/**
 * MVV-LVA move ordering: captures of valuable pieces by cheap pieces first.
 * The order is a stable sort on a descending integer key, as a sort with a
 * key and reversed comparison is in the source language.
 */
module Ordering {
  import opened Constants
  import opened Wrappers
  import opened Position
  import opened GameTree

  /** The MVV-LVA key of a move: 0 for a quiet move, 10000 + victim - attacker for a capture. */
  function MvvLva(p: Pos, e: Edge): int
  {
    if !e.isCapture then 0
    else
      var attacker := PieceAt(p, e.move.from);
      var victim := PieceAt(p, e.move.to);
      var attackerVal := if attacker.Some? then PieceValue(attacker.value.kind) else 0;
      // En passant: the captured pawn is not on the destination square.
      var victimVal := if victim.Some? then PieceValue(victim.value.kind) else PAWN_VALUE;
      10000 + victimVal - attackerVal
  }

  /** Keys never increase from left to right. */
  ghost predicate SortedByKey(p: Pos, es: seq<Edge>)
  {
    forall i, j :: 0 <= i < j < |es| ==> MvvLva(p, es[i]) >= MvvLva(p, es[j])
  }

  /** The edges whose key equals k, in their original order. */
  function WithKey(p: Pos, es: seq<Edge>, k: int): (r: seq<Edge>)
    ensures |r| <= |es|
  {
    if es == [] then []
    else (if MvvLva(p, es[0]) == k then [es[0]] else []) + WithKey(p, es[1..], k)
  }

  /** Put e in front of the first edge whose key is not larger than its own. */
  function Insert(p: Pos, e: Edge, es: seq<Edge>): seq<Edge>
  {
    if es == [] || MvvLva(p, e) >= MvvLva(p, es[0]) then [e] + es
    else [es[0]] + Insert(p, e, es[1..])
  }

  /** The source's ordering of a move list. */
  function OrderMoves(p: Pos, es: seq<Edge>): seq<Edge>
  {
    if es == [] then []
    else Insert(p, es[0], OrderMoves(p, es[1..]))
  }

  /** Insertion adds exactly one occurrence of e. */
  lemma {:induction false} InsertPermutes(p: Pos, e: Edge, es: seq<Edge>)
    ensures multiset(Insert(p, e, es)) == multiset(es) + multiset{e}
    ensures |Insert(p, e, es)| == |es| + 1
  {
    if es != [] && MvvLva(p, e) < MvvLva(p, es[0]) {
      InsertPermutes(p, e, es[1..]);
      assert es == [es[0]] + es[1..];
    }
  }

  /** The ordered list is a permutation of the input. */
  lemma {:induction false} OrderMovesPermutes(p: Pos, es: seq<Edge>)
    ensures multiset(OrderMoves(p, es)) == multiset(es)
    ensures |OrderMoves(p, es)| == |es|
  {
    if es != [] {
      OrderMovesPermutes(p, es[1..]);
      InsertPermutes(p, es[0], OrderMoves(p, es[1..]));
      assert es == [es[0]] + es[1..];
    }
  }

  /** Every ordered move comes from the input, and every input move is in the ordered list. */
  lemma OrderMovesMembers(p: Pos, es: seq<Edge>)
    ensures forall e :: e in OrderMoves(p, es) <==> e in es
  {
    OrderMovesPermutes(p, es);
    forall e ensures e in OrderMoves(p, es) <==> e in es {
      assert e in OrderMoves(p, es) <==> e in multiset(OrderMoves(p, es));
      assert e in es <==> e in multiset(es);
    }
  }

  /** Inserting an edge whose key is at most b among edges whose keys are at most b keeps every key at most b. */
  lemma {:induction false} InsertBounded(p: Pos, e: Edge, es: seq<Edge>, b: int)
    requires MvvLva(p, e) <= b && forall i :: 0 <= i < |es| ==> MvvLva(p, es[i]) <= b
    ensures forall i :: 0 <= i < |Insert(p, e, es)| ==> MvvLva(p, Insert(p, e, es)[i]) <= b
  {
    if es != [] && MvvLva(p, e) < MvvLva(p, es[0]) {
      InsertBounded(p, e, es[1..], b);
      var r := Insert(p, e, es);
      assert r == [es[0]] + Insert(p, e, es[1..]);
      forall i | 0 < i < |r| ensures MvvLva(p, r[i]) <= b {
        assert r[i] == Insert(p, e, es[1..])[i - 1];
      }
    }
  }

  lemma {:induction false} InsertSorted(p: Pos, e: Edge, es: seq<Edge>)
    requires SortedByKey(p, es)
    ensures SortedByKey(p, Insert(p, e, es))
  {
    if es != [] && MvvLva(p, e) < MvvLva(p, es[0]) {
      InsertSorted(p, e, es[1..]);
      InsertBounded(p, e, es[1..], MvvLva(p, es[0]));
      var rest := Insert(p, e, es[1..]);
      var r := [es[0]] + rest;
      assert r == Insert(p, e, es);
      forall i, j | 0 <= i < j < |r| ensures MvvLva(p, r[i]) >= MvvLva(p, r[j]) {
        assert r[j] == rest[j - 1];
        if i > 0 {
          assert r[i] == rest[i - 1];
        }
      }
    }
  }

  /** The ordered list is sorted by non-increasing key. */
  lemma {:induction false} OrderMovesSorted(p: Pos, es: seq<Edge>)
    ensures SortedByKey(p, OrderMoves(p, es))
  {
    if es != [] {
      OrderMovesSorted(p, es[1..]);
      InsertSorted(p, es[0], OrderMoves(p, es[1..]));
    }
  }

  lemma {:induction false} WithKeyAppend(p: Pos, a: seq<Edge>, b: seq<Edge>, k: int)
    ensures WithKey(p, a + b, k) == WithKey(p, a, k) + WithKey(p, b, k)
  {
    if a == [] {
      assert a + b == b;
    } else {
      assert (a + b)[1..] == a[1..] + b;
      WithKeyAppend(p, a[1..], b, k);
    }
  }

  /** Inserting into a sorted list keeps every key class in order, with e first among its equals. */
  lemma {:induction false} InsertStable(p: Pos, e: Edge, es: seq<Edge>, k: int)
    requires SortedByKey(p, es)
    ensures WithKey(p, Insert(p, e, es), k) == WithKey(p, [e], k) + WithKey(p, es, k)
  {
    if es == [] || MvvLva(p, e) >= MvvLva(p, es[0]) {
      WithKeyAppend(p, [e], es, k);
    } else {
      InsertStable(p, e, es[1..], k);
      WithKeyAppend(p, [es[0]], Insert(p, e, es[1..]), k);
      WithKeyAppend(p, [es[0]], es[1..], k);
      assert [es[0]] + es[1..] == es;
      if MvvLva(p, e) == k {
        assert WithKey(p, [es[0]], k) == [];
      }
    }
  }

  /**
   * Stability: for every key value, the moves carrying it appear in the
   * ordered list exactly in the order they had in the input.
   */
  lemma {:induction false} OrderMovesStable(p: Pos, es: seq<Edge>, k: int)
    ensures WithKey(p, OrderMoves(p, es), k) == WithKey(p, es, k)
  {
    if es != [] {
      OrderMovesStable(p, es[1..], k);
      OrderMovesSorted(p, es[1..]);
      InsertStable(p, es[0], OrderMoves(p, es[1..]), k);
      WithKeyAppend(p, [es[0]], es[1..], k);
      assert [es[0]] + es[1..] == es;
    }
  }

  /** A capture whose attacker is not a king and whose victim is not a king (the only captures legal chess has). */
  predicate NonKingCapture(p: Pos, e: Edge)
  {
    e.isCapture
    && (match PieceAt(p, e.move.from) case Some(a) => a.kind != King case None => true)
    && (match PieceAt(p, e.move.to) case Some(v) => v.kind != King case None => true)
  }

  /** A king capturing a non-king piece. */
  predicate KingCapture(p: Pos, e: Edge)
  {
    e.isCapture
    && (match PieceAt(p, e.move.from) case Some(a) => a.kind == King case None => false)
    && (match PieceAt(p, e.move.to) case Some(v) => v.kind != King case None => true)
  }

  /**
   * Non-king captures score above every quiet move (at least 10000 + 100 - 900);
   * king captures score below them (at most 10000 + 900 - 20000); a capture
   * onto an empty square (en passant) values its victim as a pawn.
   */
  lemma CaptureKeys(p: Pos, e: Edge)
    ensures !e.isCapture ==> MvvLva(p, e) == 0
    ensures NonKingCapture(p, e) ==> 9200 <= MvvLva(p, e) <= 10900
    ensures KingCapture(p, e) ==> -9900 <= MvvLva(p, e) <= -9100
    ensures e.isCapture && PieceAt(p, e.move.to) == None
            && PieceAt(p, e.move.from).Some? && PieceAt(p, e.move.from).value.kind == Pawn
            ==> MvvLva(p, e) == 10000
  {
  }

  /**
   * In the ordered list every non-king capture precedes every quiet move,
   * and every quiet move precedes every king capture.
   */
  lemma CapturesBeforeQuietMoves(p: Pos, es: seq<Edge>, i: nat, j: nat)
    requires i < |OrderMoves(p, es)| && j < |OrderMoves(p, es)|
    ensures var r := OrderMoves(p, es);
      (NonKingCapture(p, r[j]) && !r[i].isCapture ==> j < i)
      && (KingCapture(p, r[j]) && !r[i].isCapture ==> i < j)
  {
    var r := OrderMoves(p, es);
    OrderMovesPermutes(p, es);
    OrderMovesSorted(p, es);
    CaptureKeys(p, r[j]);
  }
}
