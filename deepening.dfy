/**
 * The iterative-deepening driver: full-window searches of depth 1, 2, ...
 * up to MAX_DEPTH from the root, each started only while less than 90% of
 * the budget is spent. When an iteration is cut short by the stop flag the
 * best move and score found before it are put back, provided there was one.
 */
module Deepening {
  import opened Constants
  import opened Wrappers
  import opened GameTree
  import opened Session
  import opened Position
  import TimedSearch
  import Quiescence
  import FullWidth

  /** The record after one full-window root search of depth d starting from record s. */
  function Iteration(n: Node, d: nat, s: Sess, c: Clock, ev: Snapshot -> int): Sess
  {
    TimedSearch.Search(n, d, -CHECKMATE_SCORE, CHECKMATE_SCORE, 0, s, c, ev).s
  }

  /** The record after iterations 1 to k, one after the other, starting from record s0. */
  function After(n: Node, k: nat, s0: Sess, c: Clock, ev: Snapshot -> int): Sess
  {
    if k == 0 then s0 else Iteration(n, k, After(n, k - 1, s0, c, ev), c, ev)
  }

  /** The driver's final record and the last depth it completed. */
  datatype Deepened = Deepened(s: Sess, completed: nat)

  /** The iterations from depth d on, `completed` being the last depth completed so far. */
  function Deepen(n: Node, d: nat, s: Sess, completed: nat, c: Clock, ev: Snapshot -> int): Deepened
    decreases MAX_DEPTH + 1 - d
  {
    if d > MAX_DEPTH || Expired(c, s.nodes) then Deepened(s, completed)
    else
      var s' := Iteration(n, d, s, c, ev);
      if s'.stop then
        Deepened(if s.bestMove.Some? then s'.(bestMove := s.bestMove, bestScore := s.bestScore) else s', completed)
      else Deepen(n, d + 1, s', d, c, ev)
  }

  /** One iteration of the driver, given the record the search of depth d leaves. */
  lemma DeepenStep(n: Node, d: nat, s: Sess, completed: nat, c: Clock, ev: Snapshot -> int, s': Sess)
    requires d <= MAX_DEPTH && !Expired(c, s.nodes) && s' == Iteration(n, d, s, c, ev)
    ensures Deepen(n, d, s, completed, c, ev) ==
      if s'.stop then Deepened(if s.bestMove.Some? then s'.(bestMove := s.bestMove, bestScore := s.bestScore) else s', completed)
      else Deepen(n, d + 1, s', d, c, ev)
  {
  }

  /** The record a fresh search starts from. */
  const Fresh: Sess := Sess(false, 0, None, 0)

  /**
   * The driver: no legal move or a stop already requested gives
   * (None, 0, 0); otherwise the deepening iterations from a fresh record,
   * reporting the record's best move and score and the last depth completed.
   */
  method GetBestMove(board: Board, stopSet: bool, c: Clock, ghost ev: Snapshot -> int)
    returns (move: Option<Move>, score: int, depth: nat)
    requires board.stack != [] && Quiescence.IsTapered(ev)
    modifies board
    ensures board.stack == old(board.stack)
    ensures var n := old(board.Current());
      && (n.edges == [] || stopSet ==> move == None && score == 0 && depth == 0)
      && (n.edges != [] && !stopSet ==>
            var r := Deepen(n, 1, Fresh, 0, c, ev);
            && move == r.s.bestMove && score == r.s.bestScore && depth == r.completed
            && (n.gameOver ==> move == None && score == 0)
            && (Sound(n) && !n.gameOver && !Expired(c, 0) ==> move.Some?))
  {
    var n := board.Current();
    if n.edges == [] || stopSet {
      return None, 0, 0;
    }
    var st := new SearchState();
    ghost var target := Deepen(n, 1, st.Snap(), 0, c, ev);
    var completed := 0;
    var d := 1;
    while d <= MAX_DEPTH
      invariant 1 <= d <= MAX_DEPTH + 1 && completed == d - 1
      invariant board.stack == old(board.stack) && n == board.stack[|board.stack| - 1]
      invariant !st.stop
      invariant Deepen(n, d, st.Snap(), completed, c, ev) == target
    {
      if Expired(c, st.nodes) {
        break;
      }
      var prevMove := st.bestMove;
      var prevScore := st.bestScore;
      ghost var before := st.Snap();
      var _ := TimedSearch.Negamax(board, d, -CHECKMATE_SCORE, CHECKMATE_SCORE, 0, st, c, ev);
      DeepenStep(n, d, before, completed, c, ev, st.Snap());
      if st.stop {
        if prevMove != None {
          st.bestMove := prevMove;
          st.bestScore := prevScore;
        }
        break;
      }
      completed := d;
      d := d + 1;
    }
    if n.gameOver {
      GameOverRootNoMove(n, c, ev);
    } else if Sound(n) && !Expired(c, 0) {
      DriverFindsMove(n, c, ev);
    }
    return st.bestMove, st.bestScore, completed;
  }

  /**
   * What the driver reports, in terms of the completed iterations: with no
   * stop, the record after the last completed depth, which is MAX_DEPTH or
   * was reached with the budget spent; after a stop, the interrupted
   * iteration is the next depth, and the best move and score are those of
   * the last completed depth when it had a move, or else those the
   * interrupted iteration left.
   */
  lemma {:induction false} DeepenReport(n: Node, k: nat, s0: Sess, c: Clock, ev: Snapshot -> int)
    requires k <= MAX_DEPTH && !After(n, k, s0, c, ev).stop
    ensures var r := Deepen(n, k + 1, After(n, k, s0, c, ev), k, c, ev);
      var a := After(n, r.completed, s0, c, ev);
      && k <= r.completed <= MAX_DEPTH
      && (forall j :: k <= j <= r.completed ==> !After(n, j, s0, c, ev).stop)
      && (!r.s.stop ==> r.s == a && (r.completed == MAX_DEPTH || Expired(c, a.nodes)))
      && (r.s.stop ==>
            && r.completed < MAX_DEPTH
            && Iteration(n, r.completed + 1, a, c, ev).stop
            && (a.bestMove.Some? ==> r.s.bestMove == a.bestMove && r.s.bestScore == a.bestScore)
            && (a.bestMove == None ==> r.s == Iteration(n, r.completed + 1, a, c, ev)))
    decreases MAX_DEPTH - k
  {
    var s := After(n, k, s0, c, ev);
    if k + 1 <= MAX_DEPTH && !Expired(c, s.nodes) {
      var s' := Iteration(n, k + 1, s, c, ev);
      assert s' == After(n, k + 1, s0, c, ev);
      if !s'.stop {
        DeepenReport(n, k + 1, s0, c, ev);
      }
    }
  }

  /**
   * A completed iteration of depth k records the reference result: when the
   * root's reference value lies strictly inside the full window, its best
   * move is the reference's first best move, the first in move order to reach the reference value, and its score that value.
   */
  lemma CompletedIterationIsReference(n: Node, k: nat, s: Sess, c: Clock, ev: Snapshot -> int)
    requires k >= 1 && !n.gameOver && !Iteration(n, k, s, c, ev).stop
    requires -CHECKMATE_SCORE < TimedSearch.Value(n, k, 0, ev) < CHECKMATE_SCORE
    ensures Iteration(n, k, s, c, ev).bestMove == TimedSearch.FullBest(n, k, 0, ev).move
    ensures Iteration(n, k, s, c, ev).bestScore == TimedSearch.Value(n, k, 0, ev)
    ensures var cs := TimedSearch.MoveOrder(n);
      Iteration(n, k, s, c, ev).bestMove.Some? ==>
        && Quiescence.MovesOf(n, cs)
        && exists i :: 0 <= i < |cs| && TimedSearch.FirstReaching(n, cs, i, k, 0, ev, TimedSearch.FullBest(n, k, 0, ev))
  {
    TimedSearch.FullWindowAgrees(n, k, 0, s, c, ev);
    TimedSearch.MoveOrderMembers(n);
    TimedSearch.BestIsFirstMax(n, TimedSearch.MoveOrder(n), |TimedSearch.MoveOrder(n)|, k, 0, ev);
  }

  /** Iterations started from a record holding no move or a legal move of the root end with no move or a legal one. */
  lemma {:induction false} DeepenMoveIsLegal(n: Node, d: nat, s: Sess, completed: nat, c: Clock, ev: Snapshot -> int)
    requires s.bestMove.Some? ==> s.bestMove.value in Moves(n.edges)
    ensures var m := Deepen(n, d, s, completed, c, ev).s.bestMove;
      m.Some? ==> m.value in Moves(n.edges)
    decreases MAX_DEPTH + 1 - d
  {
    if d <= MAX_DEPTH && !Expired(c, s.nodes) {
      var s' := Iteration(n, d, s, c, ev);
      TimedSearch.RootMoveIsLegal(n, d, -CHECKMATE_SCORE, CHECKMATE_SCORE, s, c, ev);
      if !s'.stop {
        DeepenMoveIsLegal(n, d + 1, s', d, c, ev);
      }
    }
  }

  /** The driver's move, when it reports one, is a legal move of the root. */
  lemma DriverMoveIsLegal(n: Node, c: Clock, ev: Snapshot -> int)
    ensures var m := Deepen(n, 1, Fresh, 0, c, ev).s.bestMove;
      m.Some? ==> m.value in Moves(n.edges)
  {
    DeepenMoveIsLegal(n, 1, Fresh, 0, c, ev);
  }

  /**
   * A depth-1 iteration cut short has nothing to restore: the driver
   * reports depth 0 and the best move and score the partial search wrote.
   */
  lemma PartialFirstIteration(n: Node, c: Clock, ev: Snapshot -> int)
    requires !Expired(c, 0) && Iteration(n, 1, Fresh, c, ev).stop
    ensures var r := Deepen(n, 1, Fresh, 0, c, ev);
      r.completed == 0 && r.s == Iteration(n, 1, Fresh, c, ev)
  {
  }

  /**
   * A root the rules library calls game over still gets searched when it
   * has moves, but each iteration only scores it as terminal and never
   * writes the record: the driver's best move and score stay as they were.
   */
  lemma {:induction false} GameOverKeepsRecord(n: Node, d: nat, s: Sess, completed: nat, c: Clock, ev: Snapshot -> int)
    requires n.gameOver
    ensures var r := Deepen(n, d, s, completed, c, ev);
      r.s.bestMove == s.bestMove && r.s.bestScore == s.bestScore
    decreases MAX_DEPTH + 1 - d
  {
    if d <= MAX_DEPTH && !Expired(c, s.nodes) {
      var s' := Iteration(n, d, s, c, ev);
      if !s'.stop {
        GameOverKeepsRecord(n, d + 1, s', d, c, ev);
      }
    }
  }

  /** Each iteration at a game-over root counts one node, so the clock is never polled within MAX_DEPTH iterations. */
  lemma {:induction false} GameOverRunsOut(n: Node, d: nat, s: Sess, c: Clock, ev: Snapshot -> int)
    requires n.gameOver && 1 <= d <= MAX_DEPTH + 1 && s.nodes == d - 1 && !s.stop
    requires forall k: nat :: k <= MAX_DEPTH ==> !Expired(c, k)
    ensures Deepen(n, d, s, d - 1, c, ev).completed == MAX_DEPTH
    decreases MAX_DEPTH + 1 - d
  {
    if d <= MAX_DEPTH {
      assert !TimedSearch.Polls(d);
      GameOverRunsOut(n, d + 1, s.(nodes := d), c, ev);
    }
  }

  /**
   * The driver at a game-over root with moves reports no move and score 0
   * and, while the clock is never past its budget, depth MAX_DEPTH:
   * (None, 0, 64), although moves were available.
   */
  lemma GameOverRootNoMove(n: Node, c: Clock, ev: Snapshot -> int)
    requires n.gameOver
    ensures var r := Deepen(n, 1, Fresh, 0, c, ev);
      && r.s.bestMove == None && r.s.bestScore == 0
      && ((forall k: nat :: k <= MAX_DEPTH ==> !Expired(c, k)) ==> r.completed == MAX_DEPTH)
  {
    GameOverKeepsRecord(n, 1, Fresh, 0, c, ev);
    if forall k: nat :: k <= MAX_DEPTH ==> !Expired(c, k) {
      GameOverRunsOut(n, 1, Fresh, c, ev);
    }
  }

  /**
   * The depth-1 iteration from a fresh record always records a move at a
   * non-terminal root with moves, even when it is cut short: its first
   * move is searched before the clock can first be read, and its score
   * beats -CHECKMATE_SCORE.
   */
  lemma FirstIterationHasMove(n: Node, c: Clock, ev: Snapshot -> int)
    requires !n.gameOver && n.edges != [] && Quiescence.IsTapered(ev)
    ensures Iteration(n, 1, Fresh, c, ev).bestMove.Some?
  {
    var s1 := Fresh.(nodes := 1);
    assert !TimedSearch.Polls(1) && !TimedSearch.Polls(2);
    TimedSearch.MoveOrderMembers(n);
    var cs := TimedSearch.MoveOrder(n);
    assert n.edges[0] in cs;
    assert cs[0] in n.edges;
    var acc := TimedSearch.Scan(-CHECKMATE_SCORE, None, -CHECKMATE_SCORE, s1);
    var child := cs[0].child;
    var r := TimedSearch.Search(child, 0, -CHECKMATE_SCORE, CHECKMATE_SCORE, 1, s1, c, ev);
    if !child.gameOver {
      Quiescence.QSearchClamp(child, -CHECKMATE_SCORE, CHECKMATE_SCORE, 1, ev);
      Quiescence.QValueWithin(child, ev);
    }
    assert r.score < CHECKMATE_SCORE;
    TimedSearch.LoopUnfold(n, cs, 0, 1, CHECKMATE_SCORE, 0, acc, c, ev, r);
    var next := TimedSearch.Step(acc, -r.score, cs[0].move, r.s);
    if next.alpha < CHECKMATE_SCORE {
      TimedSearch.LoopKeepsMove(n, cs, 1, 1, CHECKMATE_SCORE, 0, next, c, ev);
    }
    assert TimedSearch.Root(n, 1, -CHECKMATE_SCORE, CHECKMATE_SCORE, 0, s1, c, ev)
        == TimedSearch.Loop(n, cs, 0, 1, CHECKMATE_SCORE, 0, acc, c, ev);
  }

  /**
   * A completed iteration at a non-terminal root of a tree the rules
   * library produced records a move: the root's reference value lies
   * strictly inside the full window, so the iteration records the
   * reference best move, which exists.
   */
  lemma CompletedIterationHasMove(n: Node, k: nat, s: Sess, c: Clock, ev: Snapshot -> int)
    requires Sound(n) && !n.gameOver && Quiescence.IsTapered(ev)
    requires 1 <= k <= MAX_DEPTH && !Iteration(n, k, s, c, ev).stop
    ensures Iteration(n, k, s, c, ev).bestMove.Some?
  {
    TimedSearch.ValueInside(n, k, 0, ev);
    CompletedIterationIsReference(n, k, s, c, ev);
    TimedSearch.MoveOrderMembers(n);
    TimedSearch.BestNoneIsFloor(n, TimedSearch.MoveOrder(n), |TimedSearch.MoveOrder(n)|, k, 0, ev);
  }

  /** Once the record holds a move, the remaining iterations at a non-terminal root leave one there. */
  lemma {:induction false} DeepenKeepsMove(n: Node, d: nat, s: Sess, completed: nat, c: Clock, ev: Snapshot -> int)
    requires Sound(n) && !n.gameOver && Quiescence.IsTapered(ev) && d >= 1 && s.bestMove.Some?
    ensures Deepen(n, d, s, completed, c, ev).s.bestMove.Some?
    decreases MAX_DEPTH + 1 - d
  {
    if d <= MAX_DEPTH && !Expired(c, s.nodes) {
      var s' := Iteration(n, d, s, c, ev);
      if !s'.stop {
        CompletedIterationHasMove(n, d, s, c, ev);
        DeepenKeepsMove(n, d + 1, s', d, c, ev);
      }
    }
  }

  /**
   * The driver finds a move at a non-terminal root of a tree the rules
   * library produced, whenever the budget is not already spent before the
   * first iteration.
   */
  lemma DriverFindsMove(n: Node, c: Clock, ev: Snapshot -> int)
    requires Sound(n) && !n.gameOver && Quiescence.IsTapered(ev) && !Expired(c, 0)
    ensures Deepen(n, 1, Fresh, 0, c, ev).s.bestMove.Some?
  {
    FirstIterationHasMove(n, c, ev);
    var s1 := Iteration(n, 1, Fresh, c, ev);
    if !s1.stop {
      DeepenKeepsMove(n, 2, s1, 1, c, ev);
    }
  }
}
