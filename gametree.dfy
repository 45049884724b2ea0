/**
 * The rules library seen from the search: a finite game tree. Each node is a
 * position with its terminal flags and its legal moves in generation order;
 * each edge is a move, whether the rules call it a capture, and the position
 * it leads to. Pushing a move descends into its child and popping returns to
 * the parent, which is what the Board class below does.
 */
module GameTree {
  import opened Constants
  import opened Wrappers
  import opened Position

  /** A move in the rules library's terms: origin, destination, optional promotion. */
  datatype Move = Move(from: nat, to: nat, promotion: Option<PieceKind>)

  datatype Edge = Edge(move: Move, isCapture: bool, child: Node)

  datatype Node = Node(pos: Snapshot, gameOver: bool, checkmate: bool, edges: seq<Edge>)

  /** What the rules library guarantees: no legal move means the game is over, and mate is a game end. */
  ghost predicate Sound(n: Node)
  {
    && (n.edges == [] ==> n.gameOver)
    && (n.checkmate ==> n.gameOver)
    && forall e :: e in n.edges ==> Sound(e.child)
  }

  /** The moves of a list of edges, in order. */
  function Moves(es: seq<Edge>): (ms: seq<Move>)
    ensures |ms| == |es|
    ensures forall i :: 0 <= i < |es| ==> ms[i] == es[i].move
  {
    if es == [] then [] else [es[0].move] + Moves(es[1..])
  }

  /** The move of every edge is among the moves of the list. */
  lemma MoveOfEdge(es: seq<Edge>, e: Edge)
    requires e in es
    ensures e.move in Moves(es)
  {
    var j :| 0 <= j < |es| && es[j] == e;
    assert Moves(es)[j] == e.move;
  }

  /**
   * The board handle the search pushes moves on and pops them off. The stack
   * holds the root position first and the current position last.
   */
  class Board {
    var stack: seq<Node>

    constructor (root: Node)
      ensures stack == [root]
    {
      stack := [root];
    }

    function Current(): Node
      reads this
      requires stack != []
    {
      stack[|stack| - 1]
    }

    /** Play a legal move of the current position. */
    method Push(e: Edge)
      requires stack != [] && e in Current().edges
      modifies this
      ensures stack == old(stack) + [e.child]
    {
      stack := stack + [e.child];
    }

    /** Take back the last move played. */
    method Pop()
      requires |stack| > 1
      modifies this
      ensures stack == old(stack)[..|old(stack)| - 1]
    {
      stack := stack[..|stack| - 1];
    }
  }
}
