/**
 * The engine's main search: fail-soft negamax with alpha-beta pruning, moves
 * searched in MVV-LVA order, quiescence search at the horizon, and a clock
 * read every TIME_CHECK_NODES counted nodes. Reading the clock past 90% of
 * the budget raises the stop flag; a raised flag makes every later call
 * return 0 at once, while the loops already running go on with those zeros.
 */
module TimedSearch {
  import opened Constants
  import opened Wrappers
  import opened GameTree
  import opened Session
  import opened Window
  import opened Ordering
  import opened Position
  import FullWidth
  import Quiescence

  /** The move order at n: all legal moves, MVV-LVA first. */
  function MoveOrder(n: Node): seq<Edge>
  {
    OrderMoves(n.pos, n.edges)
  }

  /** The ordered moves are the legal moves, each as often as it occurs. */
  lemma MoveOrderMembers(n: Node)
    ensures forall e :: e in MoveOrder(n) <==> e in n.edges
    ensures multiset(MoveOrder(n)) == multiset(n.edges)
    ensures Quiescence.MovesOf(n, MoveOrder(n))
  {
    OrderMovesMembers(n.pos, n.edges);
    OrderMovesPermutes(n.pos, n.edges);
  }

  /** Whether the clock is read when the node counter reaches `nodes`. */
  predicate Polls(nodes: nat)
  {
    nodes % TIME_CHECK_NODES == 0
  }

  /** A search's score and the record as it leaves it. */
  datatype Outcome = Outcome(score: int, s: Sess)

  /** The move loop's state: running best and its move, current alpha, and the record. */
  datatype Scan = Scan(best: int, move: Option<Move>, alpha: int, s: Sess)

  /**
   * The search of n with `depth` plies left and window (alpha, beta),
   * starting from record s. A root (ply 0) with moves to search writes
   * its running best into the record.
   */
  function Search(n: Node, depth: nat, alpha: int, beta: int, ply: nat, s: Sess, c: Clock, ev: Snapshot -> int): Outcome
    decreases n, 2
  {
    if s.stop then Outcome(0, s)
    else
      var s1 := s.(nodes := s.nodes + 1);
      if Polls(s1.nodes) && Expired(c, s1.nodes) then Outcome(0, s1.(stop := true))
      else if n.gameOver then Outcome(if n.checkmate then FullWidth.MatedScore(ply) else DRAW_SCORE, s1)
      else if depth == 0 then
        var q := Quiescence.QSearch(n, alpha, beta, ply, ev);
        Outcome(q.score, s1.(nodes := s1.nodes + q.nodes))
      else
        var r := Root(n, depth, alpha, beta, ply, s1, c, ev);
        Outcome(r.best, if ply == 0 then r.s.(bestMove := r.move, bestScore := r.best) else r.s)
  }

  /** The move loop of a non-terminal position with depth left, over its ordered moves. */
  function Root(n: Node, depth: nat, alpha: int, beta: int, ply: nat, s: Sess, c: Clock, ev: Snapshot -> int): Scan
    requires depth >= 1
    decreases n, 1
  {
    assert Quiescence.MovesOf(n, MoveOrder(n)) by { MoveOrderMembers(n); }
    Loop(n, MoveOrder(n), 0, depth, beta, ply, Scan(-CHECKMATE_SCORE, None, alpha, s), c, ev)
  }

  /** Account for the score `score` of move m, the record being `s` after its search. */
  function Step(acc: Scan, score: int, m: Move, s: Sess): Scan
  {
    var best := if score > acc.best then score else acc.best;
    var move := if score > acc.best then Some(m) else acc.move;
    Scan(best, move, if best > acc.alpha then best else acc.alpha, s)
  }

  /** The move loop from move i of cs on: search, update, and stop once alpha reaches beta. */
  function Loop(n: Node, cs: seq<Edge>, i: nat, depth: nat, beta: int, ply: nat, acc: Scan, c: Clock,
                ev: Snapshot -> int): Scan
    requires i <= |cs| && Quiescence.MovesOf(n, cs) && depth >= 1
    decreases n, 0, |cs| - i
  {
    if i == |cs| then acc
    else
      assert cs[i] in n.edges;
      var r := Search(cs[i].child, depth - 1, -beta, -acc.alpha, ply + 1, acc.s, c, ev);
      var next := Step(acc, -r.score, cs[i].move, r.s);
      if next.alpha >= beta then next else Loop(n, cs, i + 1, depth, beta, ply, next, c, ev)
  }

  /** One turn of the move loop, given the outcome of the move's search. */
  lemma LoopUnfold(n: Node, cs: seq<Edge>, i: nat, depth: nat, beta: int, ply: nat, acc: Scan, c: Clock,
                   ev: Snapshot -> int, r: Outcome)
    requires i < |cs| && Quiescence.MovesOf(n, cs) && depth >= 1
    requires r == Search(cs[i].child, depth - 1, -beta, -acc.alpha, ply + 1, acc.s, c, ev)
    ensures var next := Step(acc, -r.score, cs[i].move, r.s);
      Loop(n, cs, i, depth, beta, ply, acc, c, ev) == if next.alpha >= beta then next else Loop(n, cs, i + 1, depth, beta, ply, next, c, ev)
  {
  }

  /**
   * The reference value: full-width negamax over the same moves, with the
   * capture-only quiescence value at the horizon and no clock.
   */
  function Value(n: Node, depth: nat, ply: nat, ev: Snapshot -> int): int
    decreases n, 3
  {
    if n.gameOver then (if n.checkmate then FullWidth.MatedScore(ply) else DRAW_SCORE)
    else if depth == 0 then Quiescence.QValue(n, ev)
    else FullBest(n, depth, ply, ev).score
  }

  /** The reference best over all of n's ordered moves: the highest score and the first move reaching it. */
  function FullBest(n: Node, depth: nat, ply: nat, ev: Snapshot -> int): FullWidth.Choice
    requires depth >= 1
    decreases n, 2
  {
    assert Quiescence.MovesOf(n, MoveOrder(n)) by { MoveOrderMembers(n); }
    Best(n, MoveOrder(n), |MoveOrder(n)|, depth, ply, ev)
  }

  /** The running best over the first k moves of cs, replaced only on a strictly larger score. */
  function Best(n: Node, cs: seq<Edge>, k: nat, depth: nat, ply: nat, ev: Snapshot -> int): FullWidth.Choice
    requires k <= |cs| && Quiescence.MovesOf(n, cs) && depth >= 1
    decreases n, 1, k
  {
    if k == 0 then FullWidth.Choice(-CHECKMATE_SCORE, None)
    else
      assert cs[k - 1] in n.edges;
      var prev := Best(n, cs, k - 1, depth, ply, ev);
      var score := -Value(cs[k - 1].child, depth - 1, ply + 1, ev);
      if score > prev.score then FullWidth.Choice(score, Some(cs[k - 1].move)) else prev
  }

  /** The running best never decreases along the moves. */
  lemma {:induction false} BestMonotone(n: Node, cs: seq<Edge>, i: nat, j: nat, depth: nat, ply: nat, ev: Snapshot -> int)
    requires i <= j <= |cs| && Quiescence.MovesOf(n, cs) && depth >= 1
    ensures Best(n, cs, i, depth, ply, ev).score <= Best(n, cs, j, depth, ply, ev).score
    decreases j - i
  {
    if i < j {
      BestMonotone(n, cs, i, j - 1, depth, ply, ev);
    }
  }

  /**
   * The running best over cs is at least -CHECKMATE_SCORE and every move's
   * score, and it is -CHECKMATE_SCORE or the score of one of the moves.
   */
  lemma {:induction false} BestIsMax(n: Node, cs: seq<Edge>, k: nat, depth: nat, ply: nat, ev: Snapshot -> int)
    requires k <= |cs| && Quiescence.MovesOf(n, cs) && depth >= 1
    ensures var b := Best(n, cs, k, depth, ply, ev).score;
      && -CHECKMATE_SCORE <= b
      && (forall j :: 0 <= j < k ==> -Value(cs[j].child, depth - 1, ply + 1, ev) <= b)
      && (b == -CHECKMATE_SCORE || exists j :: 0 <= j < k && b == -Value(cs[j].child, depth - 1, ply + 1, ev))
    decreases k
  {
    if k > 0 {
      BestIsMax(n, cs, k - 1, depth, ply, ev);
      assert cs[k - 1] in n.edges;
      var b := Best(n, cs, k, depth, ply, ev).score;
      if b != -CHECKMATE_SCORE && b != Best(n, cs, k - 1, depth, ply, ev).score {
        assert b == -Value(cs[k - 1].child, depth - 1, ply + 1, ev);
      }
    }
  }

  /**
   * The reference value does not depend on the move order: it is the
   * largest negated child value over the legal moves, or -CHECKMATE_SCORE.
   */
  lemma ValueIsMax(n: Node, depth: nat, ply: nat, ev: Snapshot -> int)
    requires !n.gameOver && depth >= 1
    ensures var v := Value(n, depth, ply, ev);
      && -CHECKMATE_SCORE <= v
      && (forall e :: e in n.edges ==> -Value(e.child, depth - 1, ply + 1, ev) <= v)
      && (v == -CHECKMATE_SCORE || exists e :: e in n.edges && v == -Value(e.child, depth - 1, ply + 1, ev))
  {
    MoveOrderMembers(n);
    var cs := MoveOrder(n);
    BestIsMax(n, cs, |cs|, depth, ply, ev);
    var v := Value(n, depth, ply, ev);
    assert v == FullBest(n, depth, ply, ev).score;
    assert v == Best(n, cs, |cs|, depth, ply, ev).score;
    forall e | e in n.edges
      ensures -Value(e.child, depth - 1, ply + 1, ev) <= v
    {
      assert e in cs;
      var j :| 0 <= j < |cs| && cs[j] == e;
    }
    if v != -CHECKMATE_SCORE {
      var j :| 0 <= j < |cs| && v == -Value(cs[j].child, depth - 1, ply + 1, ev);
      assert cs[j] in n.edges;
    }
  }

  /** The running best has no move exactly when nothing beat -CHECKMATE_SCORE. */
  lemma {:induction false} BestNoneIsFloor(n: Node, cs: seq<Edge>, k: nat, depth: nat, ply: nat, ev: Snapshot -> int)
    requires k <= |cs| && Quiescence.MovesOf(n, cs) && depth >= 1
    ensures var b := Best(n, cs, k, depth, ply, ev);
      b.score >= -CHECKMATE_SCORE && (b.move == None <==> b.score == -CHECKMATE_SCORE)
    decreases k
  {
    if k > 0 {
      BestNoneIsFloor(n, cs, k - 1, depth, ply, ev);
    }
  }

  /** Move i of cs is the first whose negated child value reaches the running best b, and b records it. */
  predicate FirstReaching(n: Node, cs: seq<Edge>, i: nat, depth: nat, ply: nat, ev: Snapshot -> int, b: FullWidth.Choice)
    requires i < |cs| && Quiescence.MovesOf(n, cs) && depth >= 1
  {
    && b.move == Some(cs[i].move)
    && -Value(cs[i].child, depth - 1, ply + 1, ev) == b.score
    && forall j :: 0 <= j < i ==> -Value(cs[j].child, depth - 1, ply + 1, ev) < b.score
  }

  /**
   * A move the running best over the first k moves of cs records is the
   * first of them, in that order, whose negated child value reaches the
   * best score: later moves only replace it on a strictly larger score.
   */
  lemma {:induction false} BestIsFirstMax(n: Node, cs: seq<Edge>, k: nat, depth: nat, ply: nat, ev: Snapshot -> int)
    requires k <= |cs| && Quiescence.MovesOf(n, cs) && depth >= 1
    ensures var b := Best(n, cs, k, depth, ply, ev);
      b.move.Some? ==> exists i :: 0 <= i < k && FirstReaching(n, cs, i, depth, ply, ev, b)
    decreases k
  {
    if k > 0 {
      BestIsFirstMax(n, cs, k - 1, depth, ply, ev);
      assert cs[k - 1] in n.edges;
      var prev := Best(n, cs, k - 1, depth, ply, ev);
      var b := Best(n, cs, k, depth, ply, ev);
      if -Value(cs[k - 1].child, depth - 1, ply + 1, ev) > prev.score {
        BestIsMax(n, cs, k - 1, depth, ply, ev);
        assert FirstReaching(n, cs, k - 1, depth, ply, ev, b);
      } else if prev.move.Some? {
        var i :| 0 <= i < k - 1 && FirstReaching(n, cs, i, depth, ply, ev, prev);
        assert FirstReaching(n, cs, i, depth, ply, ev, b);
      }
    }
  }

  /**
   * In a tree the rules library produced, searched with the tapered
   * evaluator, every reference value below the root (and the root's own
   * when it is not terminal) lies strictly between -CHECKMATE_SCORE and
   * CHECKMATE_SCORE: a mate ply >= 1 plies down scores above
   * -CHECKMATE_SCORE, quiescence stays within 70400, and a position with
   * moves takes the best of its children.
   */
  lemma ValueInside(n: Node, depth: nat, ply: nat, ev: Snapshot -> int)
    requires Sound(n) && (ply >= 1 || !n.gameOver) && ply + depth < CHECKMATE_SCORE && Quiescence.IsTapered(ev)
    ensures -CHECKMATE_SCORE < Value(n, depth, ply, ev) < CHECKMATE_SCORE
    decreases n
  {
    if n.gameOver {
    } else if depth == 0 {
      Quiescence.QValueWithin(n, ev);
    } else {
      forall e | e in n.edges
        ensures -CHECKMATE_SCORE < Value(e.child, depth - 1, ply + 1, ev) < CHECKMATE_SCORE
      {
        ValueInside(e.child, depth - 1, ply + 1, ev);
      }
      ValueIsMax(n, depth, ply, ev);
      assert n.edges[0] in n.edges;
    }
  }

  /** Once the stop flag is up it stays up, and the record is left as it was. */
  lemma {:induction false} LoopStopSticks(n: Node, cs: seq<Edge>, i: nat, depth: nat, beta: int, ply: nat, acc: Scan,
                                          c: Clock, ev: Snapshot -> int)
    requires i <= |cs| && Quiescence.MovesOf(n, cs) && depth >= 1 && acc.s.stop
    ensures Loop(n, cs, i, depth, beta, ply, acc, c, ev).s == acc.s
    decreases |cs| - i
  {
    if i < |cs| {
      assert cs[i] in n.edges;
      var next := Step(acc, 0, cs[i].move, acc.s);
      if next.alpha < beta {
        LoopStopSticks(n, cs, i + 1, depth, beta, ply, next, c, ev);
      }
    }
  }

  /**
   * The quirk of the move loop: once the flag is up, each remaining move
   * scores 0, so the loop ends with the larger of its best and 0, taking
   * the next move as its best move if its best was negative.
   */
  lemma {:induction false} StoppedLoop(n: Node, cs: seq<Edge>, i: nat, depth: nat, beta: int, ply: nat, acc: Scan,
                                       c: Clock, ev: Snapshot -> int)
    requires i < |cs| && Quiescence.MovesOf(n, cs) && depth >= 1 && acc.s.stop
    ensures var r := Loop(n, cs, i, depth, beta, ply, acc, c, ev);
      && r.s == acc.s
      && r.best == Max(acc.best, 0)
      && r.move == if 0 > acc.best then Some(cs[i].move) else acc.move
    decreases |cs| - i
  {
    assert cs[i] in n.edges;
    var next := Step(acc, 0, cs[i].move, acc.s);
    if next.alpha < beta && i + 1 < |cs| {
      StoppedLoop(n, cs, i + 1, depth, beta, ply, next, c, ev);
    }
  }

  /**
   * The window guarantee against the reference value, for any alpha < beta,
   * whenever the search ends with the stop flag still down.
   */
  lemma {:induction false} SearchBound(n: Node, depth: nat, alpha: int, beta: int, ply: nat, s: Sess, c: Clock,
                                       ev: Snapshot -> int)
    requires alpha < beta
    requires !Search(n, depth, alpha, beta, ply, s, c, ev).s.stop
    ensures Bound(Search(n, depth, alpha, beta, ply, s, c, ev).score, Value(n, depth, ply, ev), alpha, beta)
    decreases n, 2
  {
    var s1 := s.(nodes := s.nodes + 1);
    if !n.gameOver {
      if depth == 0 {
        Quiescence.QSearchClamp(n, alpha, beta, ply, ev);
        ClampBound(Quiescence.QValue(n, ev), alpha, beta);
      } else {
        RootBound(n, depth, alpha, beta, ply, s1, c, ev);
      }
    }
  }

  /** The root's move loop meets the guarantee, and inside the window records the reference best move. */
  lemma {:induction false} RootBound(n: Node, depth: nat, alpha: int, beta: int, ply: nat, s: Sess, c: Clock,
                                     ev: Snapshot -> int)
    requires alpha < beta && depth >= 1
    requires !Root(n, depth, alpha, beta, ply, s, c, ev).s.stop
    ensures var r := Root(n, depth, alpha, beta, ply, s, c, ev);
      var full := FullBest(n, depth, ply, ev);
      && Bound(r.best, full.score, alpha, beta)
      && (alpha < r.best < beta ==> r.move == full.move)
    decreases n, 1
  {
    MoveOrderMembers(n);
    LoopBound(n, MoveOrder(n), 0, depth, alpha, beta, ply, Scan(-CHECKMATE_SCORE, None, alpha, s), c, ev);
  }

  lemma {:induction false} LoopBound(n: Node, cs: seq<Edge>, i: nat, depth: nat, alpha: int, beta: int, ply: nat,
                                     acc: Scan, c: Clock, ev: Snapshot -> int)
    requires i <= |cs| && Quiescence.MovesOf(n, cs) && depth >= 1 && alpha < beta
    requires alpha <= acc.alpha <= Max(alpha, acc.best) && acc.alpha < beta
    requires Bound(acc.best, Best(n, cs, i, depth, ply, ev).score, alpha, beta)
    requires alpha < acc.best < beta ==> acc.move == Best(n, cs, i, depth, ply, ev).move
    requires !Loop(n, cs, i, depth, beta, ply, acc, c, ev).s.stop
    ensures var r := Loop(n, cs, i, depth, beta, ply, acc, c, ev);
      var full := Best(n, cs, |cs|, depth, ply, ev);
      && Bound(r.best, full.score, alpha, beta)
      && (alpha < r.best < beta ==> r.move == full.move)
    decreases n, 0, |cs| - i
  {
    if i < |cs| {
      assert cs[i] in n.edges;
      var child := cs[i].child;
      var r := Search(child, depth - 1, -beta, -acc.alpha, ply + 1, acc.s, c, ev);
      var next := Step(acc, -r.score, cs[i].move, r.s);
      LoopUnfold(n, cs, i, depth, beta, ply, acc, c, ev, r);
      if r.s.stop && next.alpha < beta {
        LoopStopSticks(n, cs, i + 1, depth, beta, ply, next, c, ev);
      }
      SearchBound(child, depth - 1, -beta, -acc.alpha, ply + 1, acc.s, c, ev);
      ScanStep(alpha, beta, acc.alpha, acc.best, Best(n, cs, i, depth, ply, ev).score,
               -r.score, -Value(child, depth - 1, ply + 1, ev));
      if next.alpha >= beta {
        BestMonotone(n, cs, i + 1, |cs|, depth, ply, ev);
      } else {
        LoopBound(n, cs, i + 1, depth, alpha, beta, ply, next, c, ev);
      }
    }
  }

  /**
   * Pruning never changes the result: searched with the full window and
   * finishing without a stop, a position whose reference value lies strictly
   * inside the window gets exactly that value, and a root records the
   * reference best move and that score.
   */
  lemma FullWindowAgrees(n: Node, depth: nat, ply: nat, s: Sess, c: Clock, ev: Snapshot -> int)
    requires !Search(n, depth, -CHECKMATE_SCORE, CHECKMATE_SCORE, ply, s, c, ev).s.stop
    requires -CHECKMATE_SCORE < Value(n, depth, ply, ev) < CHECKMATE_SCORE
    ensures var r := Search(n, depth, -CHECKMATE_SCORE, CHECKMATE_SCORE, ply, s, c, ev);
      && r.score == Value(n, depth, ply, ev)
      && (FullWidth.WritesBest(n, depth, ply) ==>
            r.s.bestMove == FullBest(n, depth, ply, ev).move
            && r.s.bestScore == r.score)
  {
    SearchBound(n, depth, -CHECKMATE_SCORE, CHECKMATE_SCORE, ply, s, c, ev);
    if FullWidth.WritesBest(n, depth, ply) {
      RootBound(n, depth, -CHECKMATE_SCORE, CHECKMATE_SCORE, ply, s.(nodes := s.nodes + 1), c, ev);
    }
  }

  /** The move a loop records is one of the legal moves, if the one it started with was. */
  lemma {:induction false} LoopMoveIsLegal(n: Node, cs: seq<Edge>, i: nat, depth: nat, beta: int, ply: nat, acc: Scan,
                                           c: Clock, ev: Snapshot -> int)
    requires i <= |cs| && Quiescence.MovesOf(n, cs) && depth >= 1
    requires acc.move.Some? ==> acc.move.value in Moves(n.edges)
    ensures var m := Loop(n, cs, i, depth, beta, ply, acc, c, ev).move;
      m.Some? ==> m.value in Moves(n.edges)
    decreases |cs| - i
  {
    if i < |cs| {
      OrderedMoveIsLegal(n, cs, i);
      var r := Search(cs[i].child, depth - 1, -beta, -acc.alpha, ply + 1, acc.s, c, ev);
      var next := Step(acc, -r.score, cs[i].move, r.s);
      LoopUnfold(n, cs, i, depth, beta, ply, acc, c, ev, r);
      if next.alpha < beta {
        LoopMoveIsLegal(n, cs, i + 1, depth, beta, ply, next, c, ev);
      }
    }
  }

  /** Once the loop has recorded a move it keeps one. */
  lemma {:induction false} LoopKeepsMove(n: Node, cs: seq<Edge>, i: nat, depth: nat, beta: int, ply: nat, acc: Scan,
                                         c: Clock, ev: Snapshot -> int)
    requires i <= |cs| && Quiescence.MovesOf(n, cs) && depth >= 1 && acc.move.Some?
    ensures Loop(n, cs, i, depth, beta, ply, acc, c, ev).move.Some?
    decreases |cs| - i
  {
    if i < |cs| {
      assert cs[i] in n.edges;
      var r := Search(cs[i].child, depth - 1, -beta, -acc.alpha, ply + 1, acc.s, c, ev);
      var next := Step(acc, -r.score, cs[i].move, r.s);
      LoopUnfold(n, cs, i, depth, beta, ply, acc, c, ev, r);
      if next.alpha < beta {
        LoopKeepsMove(n, cs, i + 1, depth, beta, ply, next, c, ev);
      }
    }
  }

  /** The move of every searched edge is a legal move of n. */
  lemma OrderedMoveIsLegal(n: Node, cs: seq<Edge>, i: nat)
    requires i < |cs| && Quiescence.MovesOf(n, cs)
    ensures cs[i].move in Moves(n.edges)
  {
    assert cs[i] in n.edges;
    MoveOfEdge(n.edges, cs[i]);
  }

  /** A root search leaves in the record either the move it found before or a legal move of the root. */
  lemma RootMoveIsLegal(n: Node, depth: nat, alpha: int, beta: int, s: Sess, c: Clock, ev: Snapshot -> int)
    ensures var m := Search(n, depth, alpha, beta, 0, s, c, ev).s.bestMove;
      m == s.bestMove || (m.Some? && m.value in Moves(n.edges)) || (m == None && FullWidth.WritesBest(n, depth, 0))
  {
    if !s.stop && !n.gameOver && depth > 0 {
      MoveOrderMembers(n);
      LoopMoveIsLegal(n, MoveOrder(n), 0, depth, beta, 0, Scan(-CHECKMATE_SCORE, None, alpha, s.(nodes := s.nodes + 1)), c, ev);
    }
  }

  /**
   * The search over the board handle and the shared record: its score and
   * the record it leaves are those of Search from the record it found.
   */
  method Negamax(board: Board, depth: nat, alpha: int, beta: int, ply: nat, st: SearchState, c: Clock,
                 ghost ev: Snapshot -> int)
    returns (score: int)
    requires board.stack != [] && Quiescence.IsTapered(ev)
    modifies board, st
    ensures board.stack == old(board.stack)
    ensures var r := Search(old(board.Current()), depth, alpha, beta, ply, old(st.Snap()), c, ev);
      score == r.score && st.Snap() == r.s
    decreases board.Current(), 1
  {
    if st.stop {
      return 0;
    }
    st.nodes := st.nodes + 1;
    if st.nodes % TIME_CHECK_NODES == 0 && Expired(c, st.nodes) {
      st.stop := true;
      return 0;
    }
    var n := board.Current();
    if n.gameOver {
      return if n.checkmate then -(CHECKMATE_SCORE - ply) else DRAW_SCORE;
    }
    if depth == 0 {
      score := Quiescence.Quiesce(board, alpha, beta, ply, st, ev);
      return;
    }
    var ordered := OrderMoves(n.pos, n.edges);
    MoveOrderMembers(n);
    var bestScore, bestMove := SearchMoves(board, n, ordered, depth, alpha, beta, ply, st, c, ev);
    if ply == 0 {
      st.bestMove := bestMove;
      st.bestScore := bestScore;
    }
    score := bestScore;
  }

  /** The move loop over the ordered moves of the current position n. */
  method SearchMoves(board: Board, n: Node, ordered: seq<Edge>, depth: nat, alpha: int, beta: int, ply: nat,
                     st: SearchState, c: Clock, ghost ev: Snapshot -> int)
    returns (bestScore: int, bestMove: Option<Move>)
    requires board.stack != [] && board.Current() == n && Quiescence.MovesOf(n, ordered)
    requires depth >= 1 && Quiescence.IsTapered(ev)
    modifies board, st
    ensures board.stack == old(board.stack)
    ensures var r := Loop(n, ordered, 0, depth, beta, ply, Scan(-CHECKMATE_SCORE, None, alpha, old(st.Snap())), c, ev);
      bestScore == r.best && bestMove == r.move && st.Snap() == r.s
    decreases n, 0
  {
    ghost var target := Loop(n, ordered, 0, depth, beta, ply, Scan(-CHECKMATE_SCORE, None, alpha, st.Snap()), c, ev);
    var a := alpha;
    bestScore := -CHECKMATE_SCORE;
    bestMove := None;
    var i := 0;
    while i < |ordered|
      invariant 0 <= i <= |ordered|
      invariant board.stack == old(board.stack) && n == board.stack[|board.stack| - 1]
      invariant Loop(n, ordered, i, depth, beta, ply, Scan(bestScore, bestMove, a, st.Snap()), c, ev) == target
    {
      var e := ordered[i];
      assert e in n.edges;
      ghost var acc := Scan(bestScore, bestMove, a, st.Snap());
      board.Push(e);
      var childScore := Negamax(board, depth - 1, -beta, -a, ply + 1, st, c, ev);
      board.Pop();
      LoopUnfold(n, ordered, i, depth, beta, ply, acc, c, ev, Outcome(childScore, st.Snap()));
      var s := -childScore;
      if s > bestScore {
        bestScore := s;
        bestMove := Some(e.move);
      }
      if bestScore > a {
        a := bestScore;
      }
      if a >= beta {
        break;
      }
      i := i + 1;
    }
  }
}
