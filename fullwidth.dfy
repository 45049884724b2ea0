/**
 * Fixed-depth full-width negamax with material evaluation at the leaves:
 * every legal move is searched, and the score of a position is the largest
 * negated score of its children. It is also the reference the pruned
 * searches are compared against.
 */
module FullWidth {
  import opened Constants
  import opened Wrappers
  import opened GameTree
  import opened Session
  import Material

  /** The score of a position whose side to move is checkmated, `ply` half-moves from the root. */
  function MatedScore(ply: nat): int
  {
    -(CHECKMATE_SCORE - ply)
  }

  /** A running best: the highest score seen so far and the move that first reached it. */
  datatype Choice = Choice(score: int, move: Option<Move>)

  /** The negamax value of node n searched to `depth` plies, n lying `ply` plies below the root. */
  function Value(n: Node, depth: nat, ply: nat): int
    decreases n, 1
  {
    if n.gameOver then (if n.checkmate then MatedScore(ply) else DRAW_SCORE)
    else if depth == 0 then Material.MaterialEval(n.pos)
    else Best(n, |n.edges|, depth, ply).score
  }

  /**
   * The running best after the first k moves of n, starting from
   * -CHECKMATE_SCORE and no move, replacing it only on a strictly larger score.
   */
  function Best(n: Node, k: nat, depth: nat, ply: nat): Choice
    requires k <= |n.edges| && depth >= 1
    decreases n, 0, k
  {
    if k == 0 then Choice(-CHECKMATE_SCORE, None)
    else
      var prev := Best(n, k - 1, depth, ply);
      var score := ChildScore(n, k - 1, depth, ply);
      if score > prev.score then Choice(score, Some(n.edges[k - 1].move)) else prev
  }

  /** The negated value of the i-th move's child: the score of playing that move. */
  function ChildScore(n: Node, i: nat, depth: nat, ply: nat): int
    requires i < |n.edges| && depth >= 1
    decreases n, 0, 0
  {
    -Value(n.edges[i].child, depth - 1, ply + 1)
  }

  /** Number of nodes the search counts below and including n. */
  function Size(n: Node, depth: nat): nat
    decreases n, 1
  {
    1 + (if n.gameOver || depth == 0 then 0 else SizeSum(n, |n.edges|, depth))
  }

  /** Nodes counted in the subtrees of the first k moves of n. */
  function SizeSum(n: Node, k: nat, depth: nat): nat
    requires k <= |n.edges| && depth >= 1
    decreases n, 0, k
  {
    if k == 0 then 0 else SizeSum(n, k - 1, depth) + Size(n.edges[k - 1].child, depth - 1)
  }

  /** Whether a search of n writes the root's best move: the root, not terminal, depth left. */
  predicate WritesBest(n: Node, depth: nat, ply: nat)
  {
    ply == 0 && !n.gameOver && depth > 0
  }

  /**
   * The search itself, over the board handle and the shared record. A set
   * stop flag makes it return 0 at once; otherwise it counts one node per
   * position visited, and the root records its best move and score.
   */
  method Negamax(board: Board, depth: nat, ply: nat, st: SearchState) returns (score: int)
    requires board.stack != []
    modifies board, st
    ensures board.stack == old(board.stack)
    ensures st.stop == old(st.stop)
    ensures old(st.stop) ==> score == 0 && st.Snap() == old(st.Snap())
    ensures !old(st.stop) ==> var n := old(board.Current());
      && score == Value(n, depth, ply)
      && st.nodes == old(st.nodes) + Size(n, depth)
      && (WritesBest(n, depth, ply) ==> st.bestMove == Best(n, |n.edges|, depth, ply).move && st.bestScore == score)
      && (!WritesBest(n, depth, ply) ==> st.bestMove == old(st.bestMove) && st.bestScore == old(st.bestScore))
    decreases depth
  {
    if st.stop {
      return 0;
    }
    st.nodes := st.nodes + 1;
    var n := board.Current();
    if n.gameOver {
      score := if n.checkmate then -(CHECKMATE_SCORE - ply) else DRAW_SCORE;
      return;
    }
    if depth == 0 {
      score := Material.Evaluate(n.pos);
      return;
    }
    var bestScore := -CHECKMATE_SCORE;
    var bestMove: Option<Move> := None;
    var i := 0;
    while i < |n.edges|
      invariant 0 <= i <= |n.edges|
      invariant board.stack == old(board.stack) && n == board.stack[|board.stack| - 1]
      invariant !st.stop
      invariant Choice(bestScore, bestMove) == Best(n, i, depth, ply)
      invariant st.nodes == old(st.nodes) + 1 + SizeSum(n, i, depth)
      invariant st.bestMove == old(st.bestMove) && st.bestScore == old(st.bestScore)
    {
      var e := n.edges[i];
      board.Push(e);
      var childScore := Negamax(board, depth - 1, ply + 1, st);
      board.Pop();
      var s := -childScore;
      if s > bestScore {
        bestScore := s;
        bestMove := Some(e.move);
      }
      i := i + 1;
    }
    if ply == 0 {
      st.bestMove := bestMove;
      st.bestScore := bestScore;
    }
    score := bestScore;
  }

  /** Move i is the first move whose score reaches the running best b, and b records it. */
  predicate FirstReaching(n: Node, i: nat, depth: nat, ply: nat, b: Choice)
    requires i < |n.edges| && depth >= 1
  {
    && b.move == Some(n.edges[i].move)
    && ChildScore(n, i, depth, ply) == b.score
    && forall j :: 0 <= j < i ==> ChildScore(n, j, depth, ply) < b.score
  }

  /**
   * The running best over the first k moves is their maximum (never below
   * -CHECKMATE_SCORE), and a recorded move is the first one reaching it.
   */
  lemma {:induction false} BestIsFirstMax(n: Node, k: nat, depth: nat, ply: nat)
    requires k <= |n.edges| && depth >= 1
    ensures var b := Best(n, k, depth, ply);
      && b.score >= -CHECKMATE_SCORE
      && (forall i :: 0 <= i < k ==> ChildScore(n, i, depth, ply) <= b.score)
      && (b.move == None <==> b.score == -CHECKMATE_SCORE)
      && (b.move.Some? ==> exists i :: 0 <= i < k && FirstReaching(n, i, depth, ply, b))
    decreases k
  {
    if k > 0 {
      BestIsFirstMax(n, k - 1, depth, ply);
      var prev := Best(n, k - 1, depth, ply);
      var b := Best(n, k, depth, ply);
      if ChildScore(n, k - 1, depth, ply) > prev.score {
        assert FirstReaching(n, k - 1, depth, ply, b);
      } else if prev.move.Some? {
        var i :| 0 <= i < k - 1 && FirstReaching(n, i, depth, ply, prev);
        assert FirstReaching(n, i, depth, ply, b);
      }
    }
  }

  /**
   * Without a stop, the score of a non-terminal position with depth left is
   * the maximum over all its moves of the negated child score, starting
   * from -CHECKMATE_SCORE.
   */
  lemma ValueIsMax(n: Node, depth: nat, ply: nat)
    requires !n.gameOver && depth >= 1
    ensures Value(n, depth, ply) >= -CHECKMATE_SCORE
    ensures forall i :: 0 <= i < |n.edges| ==> ChildScore(n, i, depth, ply) <= Value(n, depth, ply)
    ensures Value(n, depth, ply) == -CHECKMATE_SCORE
            || exists i :: 0 <= i < |n.edges| && ChildScore(n, i, depth, ply) == Value(n, depth, ply)
  {
    BestIsFirstMax(n, |n.edges|, depth, ply);
    var b := Best(n, |n.edges|, depth, ply);
    assert Value(n, depth, ply) == b.score;
    if b.move.Some? {
      var i :| 0 <= i < |n.edges| && FirstReaching(n, i, depth, ply, b);
      assert ChildScore(n, i, depth, ply) == Value(n, depth, ply);
    }
  }

  /**
   * Terminal positions are scored before the depth is looked at: mate as
   * -(CHECKMATE_SCORE - ply), any other end of game as a draw. A shorter
   * mate is worth strictly more to the side delivering it.
   */
  lemma MateDistance(m1: Node, m2: Node, d1: nat, d2: nat, p1: nat, p2: nat)
    requires m1.gameOver && m1.checkmate && m2.gameOver && m2.checkmate
    requires p1 < p2 < CHECKMATE_SCORE
    ensures Value(m1, d1, p1) == -(CHECKMATE_SCORE - p1)
    ensures 0 < -Value(m2, d2, p2) < -Value(m1, d1, p1)
  {
  }

  lemma {:induction false} SizeSumCovers(n: Node, k: nat, depth: nat)
    requires k <= |n.edges| && depth >= 1
    ensures SizeSum(n, k, depth) >= k
    ensures forall i :: 0 <= i < k ==> SizeSum(n, k, depth) >= Size(n.edges[i].child, depth - 1)
    decreases k
  {
    if k > 0 {
      SizeSumCovers(n, k - 1, depth);
    }
  }

  /**
   * Every move is visited: the count for a non-terminal position with depth
   * left includes the position itself, at least one node per move, and the
   * whole count of each move's subtree.
   */
  lemma EveryMoveVisited(n: Node, depth: nat)
    requires !n.gameOver && depth >= 1
    ensures Size(n, depth) >= 1 + |n.edges|
    ensures forall i :: 0 <= i < |n.edges| ==> Size(n, depth) >= 1 + Size(n.edges[i].child, depth - 1)
  {
    SizeSumCovers(n, |n.edges|, depth);
  }

  /**
   * In a tree the rules library produced, every value met below the root
   * (and the root's own value when it is not terminal) lies strictly
   * between -CHECKMATE_SCORE and CHECKMATE_SCORE: a mate found ply >= 1
   * plies down scores above -CHECKMATE_SCORE, material stays within 57600,
   * and a position with moves takes the best of its children.
   */
  lemma ValueInside(n: Node, depth: nat, ply: nat)
    requires Sound(n) && (ply >= 1 || !n.gameOver) && ply + depth < CHECKMATE_SCORE
    ensures -CHECKMATE_SCORE < Value(n, depth, ply) < CHECKMATE_SCORE
    decreases n
  {
    if n.gameOver {
    } else if depth == 0 {
      Material.MaterialEvalBounds(n.pos);
    } else {
      forall i | 0 <= i < |n.edges|
        ensures -CHECKMATE_SCORE < ChildScore(n, i, depth, ply) < CHECKMATE_SCORE
      {
        assert n.edges[i] in n.edges;
        ValueInside(n.edges[i].child, depth - 1, ply + 1);
      }
      ValueIsMax(n, depth, ply);
      assert ChildScore(n, 0, depth, ply) <= Value(n, depth, ply);
    }
  }

  /**
   * Fixed-depth driver: nothing to search or a stop already requested gives
   * (None, 0, 0); otherwise one depth-3 search, reporting the root's record
   * and depth 3.
   */
  method GetBestMove(board: Board, stopSet: bool) returns (move: Option<Move>, score: int, depth: nat)
    requires board.stack != []
    modifies board
    ensures board.stack == old(board.stack)
    ensures var n := old(board.Current());
      && (n.edges == [] || stopSet ==> move == None && score == 0 && depth == 0)
      && (n.edges != [] && !stopSet ==>
            && depth == 3
            && (n.gameOver ==> move == None && score == 0)
            && (!n.gameOver ==> Choice(score, move) == Best(n, |n.edges|, 3, 0) && score == Value(n, 3, 0))
            && (Sound(n) && !n.gameOver ==> move.Some?))
      && (move.Some? ==> move.value in Moves(n.edges))
  {
    var n := board.Current();
    if n.edges == [] || stopSet {
      return None, 0, 0;
    }
    var st := new SearchState();
    var _ := Negamax(board, 3, 0, st);
    if !n.gameOver {
      BestIsFirstMax(n, |n.edges|, 3, 0);
      if Sound(n) {
        ValueInside(n, 3, 0);
      }
    }
    return st.bestMove, st.bestScore, 3;
  }
}
