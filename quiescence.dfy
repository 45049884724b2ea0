/**
 * Fail-hard quiescence search: the static (tapered) evaluation is a lower
 * bound the side to move can always stand on, and only captures are
 * searched, in MVV-LVA order, until the position is quiet. The stop flag is
 * honoured on entry but the clock is never read here.
 */
module Quiescence {
  import opened Constants
  import opened Wrappers
  import opened GameTree
  import opened Session
  import opened Window
  import opened Ordering
  import opened Position
  import Pesto

  /** The capturing moves among es, in their original order. */
  function Captures(es: seq<Edge>): seq<Edge>
  {
    if es == [] then []
    else (if es[0].isCapture then [es[0]] else []) + Captures(es[1..])
  }

  /** The captures are exactly the capturing moves of es. */
  lemma {:induction false} CapturesMembers(es: seq<Edge>)
    ensures forall e :: e in Captures(es) <==> e in es && e.isCapture
  {
    if es != [] {
      CapturesMembers(es[1..]);
      assert es == [es[0]] + es[1..];
    }
  }

  /** The captures of n in the order they are searched. */
  function CaptureOrder(n: Node): seq<Edge>
  {
    OrderMoves(n.pos, Captures(n.edges))
  }

  /** The searched captures are exactly the capturing moves of n, each as often as it occurs among them. */
  lemma CaptureOrderMembers(n: Node)
    ensures forall e :: e in CaptureOrder(n) <==> e in n.edges && e.isCapture
    ensures multiset(CaptureOrder(n)) == multiset(Captures(n.edges))
    ensures MovesOf(n, CaptureOrder(n))
  {
    OrderMovesMembers(n.pos, Captures(n.edges));
    OrderMovesPermutes(n.pos, Captures(n.edges));
    CapturesMembers(n.edges);
  }

  /**
   * The searches below are stated for a static evaluator `ev`; the engine's
   * is the tapered evaluation, and every method requires exactly that.
   */
  ghost predicate IsTapered(ev: Snapshot -> int)
  {
    forall p: Snapshot {:trigger Pesto.TaperedEval(p)} :: ev(p) == Pesto.TaperedEval(p)
  }

  /** All of cs are moves of n (so their children are smaller than n). */
  predicate MovesOf(n: Node, cs: seq<Edge>)
  {
    forall e :: e in cs ==> e in n.edges
  }

  /** The static evaluation of the current position, through the engine's evaluator. */
  method StaticEval(n: Node, ghost ev: Snapshot -> int) returns (score: int)
    requires IsTapered(ev)
    ensures score == ev(n.pos)
  {
    score := Pesto.Evaluate(n.pos);
  }

  /**
   * The unpruned capture-only value: the larger of the stand-pat score and
   * the negated values of the positions after each capture.
   */
  function QValue(n: Node, ev: Snapshot -> int): int
    decreases n, 1
  {
    assert MovesOf(n, CaptureOrder(n)) by { CaptureOrderMembers(n); }
    QMax(n, CaptureOrder(n), |CaptureOrder(n)|, ev)
  }

  /** Maximum of the stand-pat score and the first k captures' negated values. */
  function QMax(n: Node, cs: seq<Edge>, k: nat, ev: Snapshot -> int): int
    requires k <= |cs| && MovesOf(n, cs)
    decreases n, 0, k
  {
    if k == 0 then ev(n.pos)
    else
      assert cs[k - 1] in n.edges;
      Max(QMax(n, cs, k - 1, ev), -QValue(cs[k - 1].child, ev))
  }

  datatype Searched = Searched(score: int, nodes: nat)

  /** Score and node count of the quiescence search of n (the stop flag being clear). */
  function QSearch(n: Node, alpha: int, beta: int, ply: nat, ev: Snapshot -> int): Searched
    decreases n, 2
  {
    var standPat := ev(n.pos);
    if standPat >= beta then Searched(beta, 1)
    else
      assert MovesOf(n, CaptureOrder(n)) by { CaptureOrderMembers(n); }
      QLoop(n, CaptureOrder(n), 0, if standPat > alpha then standPat else alpha, beta, ply, 1, ev)
  }

  /** The capture loop from capture i on, with the current alpha and nodes counted so far. */
  function QLoop(n: Node, cs: seq<Edge>, i: nat, alpha: int, beta: int, ply: nat, nodes: nat, ev: Snapshot -> int): Searched
    requires i <= |cs| && MovesOf(n, cs)
    decreases n, 1, |cs| - i
  {
    if i == |cs| then Searched(alpha, nodes)
    else
      assert cs[i] in n.edges;
      var r := QSearch(cs[i].child, -beta, -alpha, ply + 1, ev);
      var score := -r.score;
      if score >= beta then Searched(beta, nodes + r.nodes)
      else QLoop(n, cs, i + 1, if score > alpha then score else alpha, beta, ply, nodes + r.nodes, ev)
  }

  /** A capture whose score reaches beta ends the loop with beta. */
  lemma QLoopCut(n: Node, cs: seq<Edge>, i: nat, alpha: int, beta: int, ply: nat, nodes: nat,
                 childScore: int, childNodes: nat, ev: Snapshot -> int)
    requires i < |cs| && MovesOf(n, cs)
    requires Searched(childScore, childNodes) == QSearch(cs[i].child, -beta, -alpha, ply + 1, ev)
    requires -childScore >= beta
    ensures QLoop(n, cs, i, alpha, beta, ply, nodes, ev) == Searched(beta, nodes + childNodes)
  {
  }

  /** A capture scoring below beta raises alpha to its score if larger, and the loop goes on. */
  lemma QLoopContinue(n: Node, cs: seq<Edge>, i: nat, alpha: int, beta: int, ply: nat, nodes: nat,
                      childScore: int, childNodes: nat, alpha': int, ev: Snapshot -> int)
    requires i < |cs| && MovesOf(n, cs)
    requires Searched(childScore, childNodes) == QSearch(cs[i].child, -beta, -alpha, ply + 1, ev)
    requires -childScore < beta
    requires alpha' == if -childScore > alpha then -childScore else alpha
    ensures QLoop(n, cs, i, alpha, beta, ply, nodes, ev) == QLoop(n, cs, i + 1, alpha', beta, ply, nodes + childNodes, ev)
  {
  }

  /** Taking in more captures never lowers the maximum; in particular it never drops below the stand-pat score. */
  lemma {:induction false} QMaxMonotone(n: Node, cs: seq<Edge>, i: nat, j: nat, ev: Snapshot -> int)
    requires i <= j <= |cs| && MovesOf(n, cs)
    ensures QMax(n, cs, i, ev) <= QMax(n, cs, j, ev)
    ensures ev(n.pos) <= QMax(n, cs, j, ev)
    decreases j
  {
    if j > 0 {
      assert cs[j - 1] in n.edges;
      if i < j {
        QMaxMonotone(n, cs, i, j - 1, ev);
      } else {
        QMaxMonotone(n, cs, 0, j - 1, ev);
      }
    }
  }

  /**
   * Fail-hard: for a non-empty window the quiescence score is the
   * capture-only value clamped into [alpha, beta].
   */
  lemma {:induction false} QSearchClamp(n: Node, alpha: int, beta: int, ply: nat, ev: Snapshot -> int)
    requires alpha < beta
    ensures QSearch(n, alpha, beta, ply, ev).score == Clamp(QValue(n, ev), alpha, beta)
    decreases n, 2
  {
    CaptureOrderMembers(n);
    var cs := CaptureOrder(n);
    var standPat := ev(n.pos);
    QMaxMonotone(n, cs, 0, |cs|, ev);
    if standPat < beta {
      var a := if standPat > alpha then standPat else alpha;
      QLoopClamp(n, cs, 0, alpha, a, beta, ply, 1, ev);
    }
  }

  /** The capture loop keeps its alpha equal to max(alpha, maximum so far) and below beta. */
  lemma {:induction false} QLoopClamp(n: Node, cs: seq<Edge>, i: nat, alpha: int, a: int, beta: int, ply: nat,
                                      nodes: nat, ev: Snapshot -> int)
    requires i <= |cs| && MovesOf(n, cs)
    requires a == Max(alpha, QMax(n, cs, i, ev)) && a < beta
    ensures QLoop(n, cs, i, a, beta, ply, nodes, ev).score == Clamp(QMax(n, cs, |cs|, ev), alpha, beta)
    decreases n, 1, |cs| - i, 1
  {
    if i < |cs| {
      QLoopClampStep(n, cs, i, alpha, a, beta, ply, nodes, ev);
    }
  }

  /** One capture of the loop: a cutoff matches the clamp at beta, otherwise the loop goes on with the invariant kept. */
  lemma {:induction false} QLoopClampStep(n: Node, cs: seq<Edge>, i: nat, alpha: int, a: int, beta: int, ply: nat,
                                          nodes: nat, ev: Snapshot -> int)
    requires i < |cs| && MovesOf(n, cs)
    requires a == Max(alpha, QMax(n, cs, i, ev)) && a < beta
    ensures QLoop(n, cs, i, a, beta, ply, nodes, ev).score == Clamp(QMax(n, cs, |cs|, ev), alpha, beta)
    decreases n, 1, |cs| - i, 0
  {
    assert cs[i] in n.edges;
    var c := cs[i].child;
    var r := QSearch(c, -beta, -a, ply + 1, ev);
    var v := QValue(c, ev);
    QSearchClamp(c, -beta, -a, ply + 1, ev);
    assert QMax(n, cs, i + 1, ev) == Max(QMax(n, cs, i, ev), -v);
    QMaxMonotone(n, cs, i + 1, |cs|, ev);
    var mEnd := QMax(n, cs, |cs|, ev);
    ClampStepArith(alpha, QMax(n, cs, i, ev), a, beta, v, QMax(n, cs, i + 1, ev), mEnd);
    assert r.score == Clamp(v, -beta, -a);
    var score := -r.score;
    if score >= beta {
      QLoopCut(n, cs, i, a, beta, ply, nodes, r.score, r.nodes, ev);
      assert Clamp(mEnd, alpha, beta) == beta;
    } else {
      var a' := if score > a then score else a;
      assert a' == Max(alpha, QMax(n, cs, i + 1, ev)) < beta;
      QLoopContinue(n, cs, i, a, beta, ply, nodes, r.score, r.nodes, a', ev);
      QLoopClamp(n, cs, i + 1, alpha, a', beta, ply, nodes + r.nodes, ev);
    }
  }

  /**
   * The arithmetic of one capture: with a = max(alpha, m) below beta and a
   * child value v searched in the window (-beta, -a), a cutoff means the
   * final maximum reaches beta, and otherwise the raised alpha is
   * max(alpha, max(m, -v)).
   */
  lemma ClampStepArith(alpha: int, m: int, a: int, beta: int, v: int, m': int, mEnd: int)
    requires a == Max(alpha, m) && a < beta && m' == Max(m, -v) && m' <= mEnd
    ensures var score := -Clamp(v, -beta, -a);
      && (score >= beta ==> Clamp(mEnd, alpha, beta) == beta)
      && (score < beta ==> (if score > a then score else a) == Max(alpha, m') < beta)
  {
  }

  /** With the full window and a value inside it, quiescence returns the capture-only value itself. */
  lemma FullWindowIsValue(n: Node, ply: nat, ev: Snapshot -> int)
    requires -CHECKMATE_SCORE < QValue(n, ev) < CHECKMATE_SCORE
    ensures QSearch(n, -CHECKMATE_SCORE, CHECKMATE_SCORE, ply, ev).score == QValue(n, ev)
  {
    QSearchClamp(n, -CHECKMATE_SCORE, CHECKMATE_SCORE, ply, ev);
  }

  /**
   * With the tapered evaluator, the capture-only value stays within the
   * evaluation's own range, 70400 either way: it is always a stand-pat
   * score somewhere down a line of captures, up to sign.
   */
  lemma QValueWithin(n: Node, ev: Snapshot -> int)
    requires IsTapered(ev)
    ensures -70400 <= QValue(n, ev) <= 70400
    decreases n, 1
  {
    CaptureOrderMembers(n);
    QMaxWithin(n, CaptureOrder(n), |CaptureOrder(n)|, ev);
  }

  lemma {:induction false} QMaxWithin(n: Node, cs: seq<Edge>, k: nat, ev: Snapshot -> int)
    requires k <= |cs| && MovesOf(n, cs) && IsTapered(ev)
    ensures -70400 <= QMax(n, cs, k, ev) <= 70400
    decreases n, 0, k
  {
    if k == 0 {
      Pesto.TaperedWithin(n.pos);
    } else {
      QMaxWithin(n, cs, k - 1, ev);
      assert cs[k - 1] in n.edges;
      QValueWithin(cs[k - 1].child, ev);
    }
  }

  /** The quiescence score never falls below the lesser of the stand-pat score and beta, nor leaves [alpha, beta]. */
  lemma StandPatFloor(n: Node, alpha: int, beta: int, ply: nat, ev: Snapshot -> int)
    requires alpha < beta
    ensures var s := QSearch(n, alpha, beta, ply, ev).score;
      alpha <= s <= beta && s >= (if ev(n.pos) < beta then ev(n.pos) else beta)
  {
    QSearchClamp(n, alpha, beta, ply, ev);
    CaptureOrderMembers(n);
    QMaxMonotone(n, CaptureOrder(n), 0, |CaptureOrder(n)|, ev);
  }

  /**
   * The quiescence search over the board handle and the shared record. A
   * set stop flag makes it return 0 at once; otherwise it agrees with
   * QSearch and touches only the node counter.
   */
  method Quiesce(board: Board, alpha: int, beta: int, ply: nat, st: SearchState, ghost ev: Snapshot -> int)
    returns (score: int)
    requires board.stack != [] && IsTapered(ev)
    modifies board, st
    ensures board.stack == old(board.stack)
    ensures st.stop == old(st.stop) && st.bestMove == old(st.bestMove) && st.bestScore == old(st.bestScore)
    ensures old(st.stop) ==> score == 0 && st.nodes == old(st.nodes)
    ensures !old(st.stop) ==>
      var r := QSearch(old(board.Current()), alpha, beta, ply, ev);
      score == r.score && st.nodes == old(st.nodes) + r.nodes
    decreases board.Current(), 1
  {
    if st.stop {
      return 0;
    }
    st.nodes := st.nodes + 1;
    var n := board.Current();
    var standPat := StaticEval(n, ev);
    if standPat >= beta {
      return beta;
    }
    var a := alpha;
    if standPat > a {
      a := standPat;
    }
    var captures := Captures(n.edges);
    var ordered := OrderMoves(n.pos, captures);
    assert ordered == CaptureOrder(n);
    CaptureOrderMembers(n);
    score := SearchCaptures(board, n, ordered, a, beta, ply, st, ev);
  }

  /**
   * The loop over the ordered captures of the current position n, one node
   * already counted for n itself: agrees with QLoop from the first capture.
   */
  method SearchCaptures(board: Board, n: Node, ordered: seq<Edge>, alpha: int, beta: int, ply: nat,
                        st: SearchState, ghost ev: Snapshot -> int)
    returns (score: int)
    requires board.stack != [] && board.Current() == n && MovesOf(n, ordered) && IsTapered(ev)
    requires !st.stop
    modifies board, st
    ensures board.stack == old(board.stack)
    ensures !st.stop && st.bestMove == old(st.bestMove) && st.bestScore == old(st.bestScore)
    ensures var r := QLoop(n, ordered, 0, alpha, beta, ply, 1, ev);
      score == r.score && st.nodes == old(st.nodes) + r.nodes - 1
    decreases n, 0, 1
  {
    ghost var counted: nat := 1;
    ghost var target := QLoop(n, ordered, 0, alpha, beta, ply, 1, ev);
    var a := alpha;
    var i := 0;
    while i < |ordered|
      invariant 0 <= i <= |ordered|
      invariant board.stack == old(board.stack) && n == board.stack[|board.stack| - 1]
      invariant !st.stop && st.bestMove == old(st.bestMove) && st.bestScore == old(st.bestScore)
      invariant st.nodes == old(st.nodes) + counted - 1
      invariant QLoop(n, ordered, i, a, beta, ply, counted, ev) == target
    {
      var e := ordered[i];
      ghost var before := st.nodes;
      var childScore := QuiesceChild(board, n, e, -beta, -a, ply + 1, st, ev);
      ghost var childNodes := st.nodes - before;
      var s := -childScore;
      if s >= beta {
        QLoopCut(n, ordered, i, a, beta, ply, counted, childScore, childNodes, ev);
        return beta;
      }
      ghost var a0 := a;
      if s > a {
        a := s;
      }
      QLoopContinue(n, ordered, i, a0, beta, ply, counted, childScore, childNodes, a, ev);
      counted := counted + childNodes;
      i := i + 1;
    }
    score := a;
  }

  /** Play capture e from n, search the position it leads to, and take it back. */
  method QuiesceChild(board: Board, n: Node, e: Edge, alpha: int, beta: int, ply: nat, st: SearchState,
                      ghost ev: Snapshot -> int)
    returns (score: int)
    requires board.stack != [] && board.Current() == n && e in n.edges && IsTapered(ev)
    requires !st.stop
    modifies board, st
    ensures board.stack == old(board.stack)
    ensures !st.stop && st.bestMove == old(st.bestMove) && st.bestScore == old(st.bestScore)
    ensures var r := QSearch(e.child, alpha, beta, ply, ev);
      score == r.score && st.nodes == old(st.nodes) + r.nodes
    decreases n, 0, 0
  {
    board.Push(e);
    score := Quiesce(board, alpha, beta, ply, st, ev);
    board.Pop();
  }
}
