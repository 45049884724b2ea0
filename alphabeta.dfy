/**
 * Fixed-depth negamax with alpha-beta pruning and material evaluation at
 * the leaves. Each move is searched with the negated, swapped window of the
 * current bounds, and the remaining moves are skipped once alpha reaches
 * beta. The scores are fail-soft: the running best is returned even when
 * it lies outside the window.
 */
module AlphaBeta {
  import opened Constants
  import opened Wrappers
  import opened GameTree
  import opened Session
  import opened Window
  import opened FullWidth
  import Material

  /** The result of one search: its score and the nodes it counted. */
  datatype Searched = Searched(score: int, nodes: nat)

  /** The move loop's state: running best and its move, current alpha, nodes counted so far. */
  datatype Scan = Scan(best: int, move: Option<Move>, alpha: int, nodes: nat)

  /** The score and node count of the pruned search of n (the stop flag being clear). */
  function Search(n: Node, depth: nat, alpha: int, beta: int, ply: nat): Searched
    decreases n, 2
  {
    if n.gameOver then Searched(if n.checkmate then MatedScore(ply) else DRAW_SCORE, 1)
    else if depth == 0 then Searched(Material.MaterialEval(n.pos), 1)
    else
      var r := Root(n, depth, alpha, beta, ply);
      Searched(r.best, r.nodes)
  }

  /** The move loop of a non-terminal position with depth left, from its first move. */
  function Root(n: Node, depth: nat, alpha: int, beta: int, ply: nat): Scan
    requires depth >= 1
    decreases n, 1, |n.edges| + 1
  {
    Loop(n, 0, depth, beta, ply, Scan(-CHECKMATE_SCORE, None, alpha, 1))
  }

  /** Account for the score `score` of move m whose subtree counted `nodes` nodes. */
  function Step(acc: Scan, score: int, m: Move, nodes: nat): Scan
  {
    var best := if score > acc.best then score else acc.best;
    var move := if score > acc.best then Some(m) else acc.move;
    Scan(best, move, if best > acc.alpha then best else acc.alpha, acc.nodes + nodes)
  }

  /** The move loop from move i on: search, update, and stop once alpha reaches beta. */
  function Loop(n: Node, i: nat, depth: nat, beta: int, ply: nat, acc: Scan): Scan
    requires i <= |n.edges| && depth >= 1
    decreases n, 1, |n.edges| - i
  {
    if i == |n.edges| then acc
    else
      var r := Search(n.edges[i].child, depth - 1, -beta, -acc.alpha, ply + 1);
      var next := Step(acc, -r.score, n.edges[i].move, r.nodes);
      if next.alpha >= beta then next else Loop(n, i + 1, depth, beta, ply, next)
  }

  /** One turn of the move loop, given the result of the move's search. */
  lemma LoopUnfold(n: Node, i: nat, depth: nat, beta: int, ply: nat, acc: Scan, r: Searched)
    requires i < |n.edges| && depth >= 1
    requires r == Search(n.edges[i].child, depth - 1, -beta, -acc.alpha, ply + 1)
    ensures var next := Step(acc, -r.score, n.edges[i].move, r.nodes);
      Loop(n, i, depth, beta, ply, acc) == if next.alpha >= beta then next else Loop(n, i + 1, depth, beta, ply, next)
  {
  }

  /**
   * The pruned search over the board handle and the shared record. A set
   * stop flag makes it return 0 at once; otherwise it agrees with Search,
   * and the root records the running best of its move loop.
   */
  method Negamax(board: Board, depth: nat, alpha: int, beta: int, ply: nat, st: SearchState) returns (score: int)
    requires board.stack != []
    modifies board, st
    ensures board.stack == old(board.stack)
    ensures st.stop == old(st.stop)
    ensures old(st.stop) ==> score == 0 && st.Snap() == old(st.Snap())
    ensures !old(st.stop) ==> var n := old(board.Current());
      && score == Search(n, depth, alpha, beta, ply).score
      && st.nodes == old(st.nodes) + Search(n, depth, alpha, beta, ply).nodes
      && (WritesBest(n, depth, ply) ==>
            st.bestMove == Root(n, depth, alpha, beta, ply).move && st.bestScore == score)
      && (!WritesBest(n, depth, ply) ==> st.bestMove == old(st.bestMove) && st.bestScore == old(st.bestScore))
    decreases depth, 1
  {
    if st.stop {
      return 0;
    }
    st.nodes := st.nodes + 1;
    var n := board.Current();
    if n.gameOver {
      score := if n.checkmate then -(CHECKMATE_SCORE - ply) else DRAW_SCORE;
      return;
    }
    if depth == 0 {
      score := Material.Evaluate(n.pos);
      return;
    }
    var bestScore, bestMove := SearchMoves(board, n, depth, alpha, beta, ply, st);
    if ply == 0 {
      st.bestMove := bestMove;
      st.bestScore := bestScore;
    }
    score := bestScore;
  }

  /**
   * The move loop over the moves of the current position n, one node
   * already counted for n itself: agrees with Root and touches only the
   * node counter.
   */
  method SearchMoves(board: Board, n: Node, depth: nat, alpha: int, beta: int, ply: nat, st: SearchState)
    returns (bestScore: int, bestMove: Option<Move>)
    requires board.stack != [] && board.Current() == n && depth >= 1 && !st.stop
    modifies board, st
    ensures board.stack == old(board.stack)
    ensures !st.stop && st.bestMove == old(st.bestMove) && st.bestScore == old(st.bestScore)
    ensures var r := Root(n, depth, alpha, beta, ply);
      bestScore == r.best && bestMove == r.move && st.nodes == old(st.nodes) + r.nodes - 1
    decreases depth, 0
  {
    ghost var result := Root(n, depth, alpha, beta, ply);
    ghost var counted: nat := 1;
    var a := alpha;
    bestScore := -CHECKMATE_SCORE;
    bestMove := None;
    var i := 0;
    while i < |n.edges|
      invariant 0 <= i <= |n.edges|
      invariant board.stack == old(board.stack) && n == board.stack[|board.stack| - 1]
      invariant !st.stop
      invariant st.nodes == old(st.nodes) + counted - 1
      invariant Loop(n, i, depth, beta, ply, Scan(bestScore, bestMove, a, counted)) == result
      invariant st.bestMove == old(st.bestMove) && st.bestScore == old(st.bestScore)
    {
      ghost var acc := Scan(bestScore, bestMove, a, counted);
      var e := n.edges[i];
      board.Push(e);
      ghost var before := st.nodes;
      var childScore := Negamax(board, depth - 1, -beta, -a, ply + 1, st);
      board.Pop();
      LoopUnfold(n, i, depth, beta, ply, acc, Search(e.child, depth - 1, -beta, -a, ply + 1));
      counted := counted + (st.nodes - before);
      var s := -childScore;
      if s > bestScore {
        bestScore := s;
        bestMove := Some(e.move);
      }
      if bestScore > a {
        a := bestScore;
      }
      if a >= beta {
        break;
      }
      i := i + 1;
    }
  }

  lemma {:induction false} BestMonotone(n: Node, i: nat, j: nat, depth: nat, ply: nat)
    requires i <= j <= |n.edges| && depth >= 1
    ensures Best(n, i, depth, ply).score <= Best(n, j, depth, ply).score
    decreases j - i
  {
    if i < j {
      BestMonotone(n, i, j - 1, depth, ply);
    }
  }

  /**
   * The window guarantee against the full-width value: for any alpha < beta,
   * a pruned score strictly inside the window equals the full-width value,
   * one at or below alpha is an upper bound on it, and one at or above beta
   * a lower bound.
   */
  lemma {:induction false} SearchBound(n: Node, depth: nat, alpha: int, beta: int, ply: nat)
    requires alpha < beta
    ensures Bound(Search(n, depth, alpha, beta, ply).score, Value(n, depth, ply), alpha, beta)
    decreases n, 2
  {
    if !n.gameOver && depth > 0 {
      RootBound(n, depth, alpha, beta, ply);
    }
  }

  /** The root's move loop meets the guarantee, and inside the window records the full-width best move. */
  lemma {:induction false} RootBound(n: Node, depth: nat, alpha: int, beta: int, ply: nat)
    requires alpha < beta && depth >= 1
    ensures var r := Root(n, depth, alpha, beta, ply);
      var full := Best(n, |n.edges|, depth, ply);
      && Bound(r.best, full.score, alpha, beta)
      && (alpha < r.best < beta ==> r.move == full.move)
    decreases n, 1, |n.edges| + 1
  {
    LoopBound(n, 0, depth, alpha, beta, ply, Scan(-CHECKMATE_SCORE, None, alpha, 1));
  }

  lemma {:induction false} LoopBound(n: Node, i: nat, depth: nat, alpha: int, beta: int, ply: nat, acc: Scan)
    requires i <= |n.edges| && depth >= 1 && alpha < beta
    requires alpha <= acc.alpha <= Max(alpha, acc.best) && acc.alpha < beta
    requires Bound(acc.best, Best(n, i, depth, ply).score, alpha, beta)
    requires alpha < acc.best < beta ==> acc.move == Best(n, i, depth, ply).move
    ensures var r := Loop(n, i, depth, beta, ply, acc);
      var full := Best(n, |n.edges|, depth, ply);
      && Bound(r.best, full.score, alpha, beta)
      && (alpha < r.best < beta ==> r.move == full.move)
    decreases n, 1, |n.edges| - i
  {
    if i < |n.edges| {
      var child := n.edges[i].child;
      var r := Search(child, depth - 1, -beta, -acc.alpha, ply + 1);
      LoopUnfold(n, i, depth, beta, ply, acc, r);
      SearchBound(child, depth - 1, -beta, -acc.alpha, ply + 1);
      ScanStep(alpha, beta, acc.alpha, acc.best, Best(n, i, depth, ply).score,
               -r.score, ChildScore(n, i, depth, ply));
      var next := Step(acc, -r.score, n.edges[i].move, r.nodes);
      var prev, cur := Best(n, i, depth, ply), Best(n, i + 1, depth, ply);
      assert cur == if ChildScore(n, i, depth, ply) > prev.score then Choice(ChildScore(n, i, depth, ply), Some(n.edges[i].move)) else prev;
      if next.alpha >= beta {
        BestMonotone(n, i + 1, |n.edges|, depth, ply);
        assert next.best >= beta;
      } else {
        LoopBound(n, i + 1, depth, alpha, beta, ply, next);
      }
    }
  }

  /**
   * Pruning never changes the result: searched with the full window
   * (-CHECKMATE_SCORE, CHECKMATE_SCORE), a position whose full-width value
   * lies strictly inside it gets exactly that value, and the root records
   * the same move as the full-width search.
   */
  lemma FullWindowAgrees(n: Node, depth: nat, ply: nat)
    requires -CHECKMATE_SCORE < Value(n, depth, ply) < CHECKMATE_SCORE
    ensures Search(n, depth, -CHECKMATE_SCORE, CHECKMATE_SCORE, ply).score == Value(n, depth, ply)
    ensures WritesBest(n, depth, ply) ==>
      Root(n, depth, -CHECKMATE_SCORE, CHECKMATE_SCORE, ply).move == Best(n, |n.edges|, depth, ply).move
  {
    SearchBound(n, depth, -CHECKMATE_SCORE, CHECKMATE_SCORE, ply);
    if WritesBest(n, depth, ply) {
      RootBound(n, depth, -CHECKMATE_SCORE, CHECKMATE_SCORE, ply);
    }
  }

  lemma {:induction false} SizeSumMonotone(n: Node, i: nat, j: nat, depth: nat)
    requires i <= j <= |n.edges| && depth >= 1
    ensures SizeSum(n, i, depth) <= SizeSum(n, j, depth)
    decreases j - i
  {
    if i < j {
      SizeSumMonotone(n, i, j - 1, depth);
    }
  }

  /** The pruned search never counts more nodes than the full-width search of the same tree and depth. */
  lemma {:induction false} SearchNodes(n: Node, depth: nat, alpha: int, beta: int, ply: nat)
    ensures Search(n, depth, alpha, beta, ply).nodes <= Size(n, depth)
    decreases n, 2
  {
    if !n.gameOver && depth > 0 {
      LoopNodes(n, 0, depth, beta, ply, Scan(-CHECKMATE_SCORE, None, alpha, 1));
    }
  }

  lemma {:induction false} LoopNodes(n: Node, i: nat, depth: nat, beta: int, ply: nat, acc: Scan)
    requires i <= |n.edges| && depth >= 1
    ensures Loop(n, i, depth, beta, ply, acc).nodes + SizeSum(n, i, depth) <= acc.nodes + SizeSum(n, |n.edges|, depth)
    decreases n, 1, |n.edges| - i
  {
    if i < |n.edges| {
      var child := n.edges[i].child;
      SearchNodes(child, depth - 1, -beta, -acc.alpha, ply + 1);
      var r := Search(child, depth - 1, -beta, -acc.alpha, ply + 1);
      var next := Step(acc, -r.score, n.edges[i].move, r.nodes);
      if next.alpha >= beta {
        SizeSumMonotone(n, i + 1, |n.edges|, depth);
      } else {
        LoopNodes(n, i + 1, depth, beta, ply, next);
      }
    }
  }

  /** A move the loop records is always a legal move of n. */
  lemma {:induction false} LoopMoveIsLegal(n: Node, i: nat, depth: nat, beta: int, ply: nat, acc: Scan)
    requires i <= |n.edges| && depth >= 1
    requires acc.move.Some? ==> acc.move.value in Moves(n.edges)
    ensures var m := Loop(n, i, depth, beta, ply, acc).move;
      m.Some? ==> m.value in Moves(n.edges)
    decreases |n.edges| - i
  {
    if i < |n.edges| {
      var r := Search(n.edges[i].child, depth - 1, -beta, -acc.alpha, ply + 1);
      LoopUnfold(n, i, depth, beta, ply, acc, r);
      assert Moves(n.edges)[i] == n.edges[i].move;
      var next := Step(acc, -r.score, n.edges[i].move, r.nodes);
      if next.alpha < beta {
        LoopMoveIsLegal(n, i + 1, depth, beta, ply, next);
      }
    }
  }

  /**
   * Fixed-depth driver: nothing to search or a stop already requested gives
   * (None, 0, 0); otherwise one full-window depth-3 search, reporting the
   * root's record and depth 3.
   */
  method GetBestMove(board: Board, stopSet: bool) returns (move: Option<Move>, score: int, depth: nat)
    requires board.stack != []
    modifies board
    ensures board.stack == old(board.stack)
    ensures var n := old(board.Current());
      && (n.edges == [] || stopSet ==> move == None && score == 0 && depth == 0)
      && (n.edges != [] && !stopSet ==>
            && depth == 3
            && (n.gameOver ==> move == None && score == 0)
            && (!n.gameOver ==>
                  var r := Root(n, 3, -CHECKMATE_SCORE, CHECKMATE_SCORE, 0);
                  move == r.move && score == r.best)
            && (Sound(n) && !n.gameOver ==>
                  && move.Some?
                  && score == FullWidth.Value(n, 3, 0)
                  && move == FullWidth.Best(n, |n.edges|, 3, 0).move))
      && (move.Some? ==> move.value in Moves(n.edges))
  {
    var n := board.Current();
    if n.edges == [] || stopSet {
      return None, 0, 0;
    }
    var st := new SearchState();
    var _ := Negamax(board, 3, -CHECKMATE_SCORE, CHECKMATE_SCORE, 0, st);
    LoopMoveIsLegal(n, 0, 3, CHECKMATE_SCORE, 0, Scan(-CHECKMATE_SCORE, None, -CHECKMATE_SCORE, 1));
    if Sound(n) && !n.gameOver {
      ValueInside(n, 3, 0);
      FullWindowAgrees(n, 3, 0);
      BestIsFirstMax(n, |n.edges|, 3, 0);
    }
    return st.bestMove, st.bestScore, 3;
  }
}
