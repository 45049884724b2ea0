/**
 * Material evaluation: White's material minus Black's, from the point of
 * view of the side to move. Kings carry no material.
 */
module Material {
  import opened Constants
  import opened Wrappers
  import opened Position

  /** The kinds that are counted, in the order the evaluator visits them. */
  const COUNTED_KINDS: seq<PieceKind> := [Pawn, Knight, Bishop, Rook, Queen]

  /** Total value of one colour's pieces of the given kinds. */
  function MaterialOver(s: seq<Option<Piece>>, color: Color, kinds: seq<PieceKind>): int
  {
    if kinds == [] then 0
    else
      var k := kinds[|kinds| - 1];
      MaterialOver(s, color, kinds[..|kinds| - 1]) + Count(s, k, color) * PieceValue(k)
  }

  /** Value times count difference, summed over the given kinds. */
  function BalanceOver(s: seq<Option<Piece>>, kinds: seq<PieceKind>): int
  {
    if kinds == [] then 0
    else
      var k := kinds[|kinds| - 1];
      BalanceOver(s, kinds[..|kinds| - 1]) + PieceValue(k) * (Count(s, k, White) - Count(s, k, Black))
  }

  /** The side-to-move material score the snapshot engines and the engine package use. */
  function MaterialEval(p: Pos): int
  {
    var score := MaterialOver(p.squares, White, COUNTED_KINDS) - MaterialOver(p.squares, Black, COUNTED_KINDS);
    if p.whiteToMove then score else -score
  }

  /**
   * The evaluator's loop: visits the five counted kinds and accumulates each
   * side's material, then converts to the side-to-move perspective.
   */
  method Evaluate(p: Pos) returns (score: int)
    ensures score == MaterialEval(p)
    ensures score == (if p.whiteToMove then 1 else -1) * BalanceOver(p.squares, COUNTED_KINDS)
  {
    var whiteMaterial := 0;
    var blackMaterial := 0;
    var i := 0;
    while i < |COUNTED_KINDS|
      invariant 0 <= i <= |COUNTED_KINDS|
      invariant whiteMaterial == MaterialOver(p.squares, White, COUNTED_KINDS[..i])
      invariant blackMaterial == MaterialOver(p.squares, Black, COUNTED_KINDS[..i])
    {
      var kind := COUNTED_KINDS[i];
      var value := PieceValue(kind);
      assert COUNTED_KINDS[..i + 1][..i] == COUNTED_KINDS[..i];
      whiteMaterial := whiteMaterial + Count(p.squares, kind, White) * value;
      blackMaterial := blackMaterial + Count(p.squares, kind, Black) * value;
      i := i + 1;
    }
    assert COUNTED_KINDS[..i] == COUNTED_KINDS;
    var diff := whiteMaterial - blackMaterial;
    BalanceIsDifference(p.squares, COUNTED_KINDS);
    score := if p.whiteToMove then diff else -diff;
  }

  /** The score is the sum over the counted kinds of value times (White count - Black count). */
  lemma {:induction false} BalanceIsDifference(s: seq<Option<Piece>>, kinds: seq<PieceKind>)
    ensures BalanceOver(s, kinds) == MaterialOver(s, White, kinds) - MaterialOver(s, Black, kinds)
    decreases |kinds|
  {
    if kinds != [] {
      var k := kinds[|kinds| - 1];
      BalanceIsDifference(s, kinds[..|kinds| - 1]);
      var v, w, b := PieceValue(k), Count(s, k, White), Count(s, k, Black);
      assert v * (w - b) == w * v - b * v;
    }
  }

  /** Handing the move to the other side negates the material score exactly. */
  lemma FlipNegates(p: Pos)
    ensures MaterialEval(FlipTurn(p)) == -MaterialEval(p)
  {
  }

  /** How one square's content changes a piece count. */
  lemma {:induction false} CountUpdate(s: seq<Option<Piece>>, i: nat, x: Option<Piece>, kind: PieceKind, color: Color)
    requires i < |s|
    ensures Count(s[i := x], kind, color)
         == Count(s, kind, color)
            - (if s[i] == Some(Piece(kind, color)) then 1 else 0)
            + (if x == Some(Piece(kind, color)) then 1 else 0)
  {
    if i == 0 {
      assert s[i := x][1..] == s[1..];
    } else {
      assert s[i := x][1..] == s[1..][i - 1 := x];
      CountUpdate(s[1..], i - 1, x, kind, color);
    }
  }

  /** Kind counts of a non-king kind decide the material of a colour. */
  lemma {:induction false} MaterialOverCounts(s: seq<Option<Piece>>, t: seq<Option<Piece>>, color: Color, kinds: seq<PieceKind>)
    requires forall k :: k in kinds ==> Count(s, k, color) == Count(t, k, color)
    ensures MaterialOver(s, color, kinds) == MaterialOver(t, color, kinds)
    decreases |kinds|
  {
    if kinds != [] {
      MaterialOverCounts(s, t, color, kinds[..|kinds| - 1]);
    }
  }

  /** Kings never contribute: putting a king on an empty square, or removing one, leaves the score unchanged. */
  lemma KingsNeverCount(p: Pos, sq: nat, c: Color)
    requires sq < |p.squares| && p.squares[sq] == None
    ensures MaterialEval(p.(squares := p.squares[sq := Some(Piece(King, c))])) == MaterialEval(p)
  {
    var t := p.squares[sq := Some(Piece(King, c))];
    forall k, color | k in COUNTED_KINDS
      ensures Count(t, k, color) == Count(p.squares, k, color)
    {
      CountUpdate(p.squares, sq, Some(Piece(King, c)), k, color);
    }
    MaterialOverCounts(t, p.squares, White, COUNTED_KINDS);
    MaterialOverCounts(t, p.squares, Black, COUNTED_KINDS);
  }

  function Ind(x: Option<Piece>, kind: PieceKind, color: Color): nat
  {
    if x == Some(Piece(kind, color)) then 1 else 0
  }

  lemma CountCons(x: Option<Piece>, s: seq<Option<Piece>>, kind: PieceKind, color: Color)
    ensures Count([x] + s, kind, color) == Ind(x, kind, color) + Count(s, kind, color)
  {
    assert ([x] + s)[1..] == s;
  }

  /** Counting a rank of eight squares, one square at a time. */
  lemma CountRank(a: Option<Piece>, b: Option<Piece>, c: Option<Piece>, d: Option<Piece>,
                  e: Option<Piece>, f: Option<Piece>, g: Option<Piece>, h: Option<Piece>,
                  kind: PieceKind, color: Color)
    ensures Count([a, b, c, d, e, f, g, h], kind, color)
         == Ind(a, kind, color) + Ind(b, kind, color) + Ind(c, kind, color) + Ind(d, kind, color)
            + Ind(e, kind, color) + Ind(f, kind, color) + Ind(g, kind, color) + Ind(h, kind, color)
  {
    assert [a, b, c, d, e, f, g, h] == [a] + ([b] + ([c] + ([d] + ([e] + ([f] + ([g] + [h]))))));
    assert [h] + [] == [h];
    CountCons(h, [], kind, color);
    CountCons(g, [h], kind, color);
    CountCons(f, [g] + [h], kind, color);
    CountCons(e, [f] + ([g] + [h]), kind, color);
    CountCons(d, [e] + ([f] + ([g] + [h])), kind, color);
    CountCons(c, [d] + ([e] + ([f] + ([g] + [h]))), kind, color);
    CountCons(b, [c] + ([d] + ([e] + ([f] + ([g] + [h])))), kind, color);
    CountCons(a, [b] + ([c] + ([d] + ([e] + ([f] + ([g] + [h]))))), kind, color);
  }

  lemma RowCount(x: Option<Piece>, kind: PieceKind, color: Color)
    ensures Count(Row(x), kind, color) == 8 * Ind(x, kind, color)
  {
    CountRank(x, x, x, x, x, x, x, x, kind, color);
  }

  /** How many pieces of a kind each side has on its back rank at the start. */
  function BackRankShare(kind: PieceKind): nat
  {
    match kind
    case Pawn => 0
    case Knight => 2
    case Bishop => 2
    case Rook => 2
    case Queen => 1
    case King => 1
  }

  lemma BackRankCount(c: Color, kind: PieceKind, color: Color)
    ensures Count(BackRank(c), kind, color) == if c != color then 0 else BackRankShare(kind)
  {
    CountRank(Some(Piece(Rook, c)), Some(Piece(Knight, c)), Some(Piece(Bishop, c)), Some(Piece(Queen, c)),
              Some(Piece(King, c)), Some(Piece(Bishop, c)), Some(Piece(Knight, c)), Some(Piece(Rook, c)),
              kind, color);
  }

  /** The starting position's count, rank by rank. */
  lemma StartCountByRanks(s: seq<Option<Piece>>, kind: PieceKind, color: Color)
    requires s == StartPosition().squares
    ensures Count(s, kind, color)
         == Count(BackRank(White), kind, color) + Count(Row(Some(Piece(Pawn, White))), kind, color)
            + 4 * Count(Row(None), kind, color)
            + Count(Row(Some(Piece(Pawn, Black))), kind, color) + Count(BackRank(Black), kind, color)
  {
    var wb, wp, e := BackRank(White), Row(Some(Piece(Pawn, White))), Row(None);
    var bp, bb := Row(Some(Piece(Pawn, Black))), BackRank(Black);
    var s1 := wb + wp;
    var s2 := s1 + e;
    var s3 := s2 + e;
    var s4 := s3 + e;
    var s5 := s4 + e;
    var s6 := s5 + bp;
    assert s == s6 + bb;
    CountAppend(wb, wp, kind, color);
    CountAppend(s1, e, kind, color);
    CountAppend(s2, e, kind, color);
    CountAppend(s3, e, kind, color);
    CountAppend(s4, e, kind, color);
    CountAppend(s5, bp, kind, color);
    CountAppend(s6, bb, kind, color);
  }

  /** Per-kind counts of the starting position: the same for both colours. */
  lemma StartCounts(s: seq<Option<Piece>>, kind: PieceKind, color: Color)
    requires s == StartPosition().squares
    ensures Count(s, kind, color) == BackRankShare(kind) + (if kind == Pawn then 8 else 0)
  {
    StartCountByRanks(s, kind, color);
    PawnRanksCount(kind, color);
    BackRanksCount(kind, color);
    RowCount(None, kind, color);
  }

  lemma PawnRanksCount(kind: PieceKind, color: Color)
    ensures Count(Row(Some(Piece(Pawn, White))), kind, color) + Count(Row(Some(Piece(Pawn, Black))), kind, color)
         == if kind == Pawn then 8 else 0
  {
    RowCount(Some(Piece(Pawn, White)), kind, color);
    RowCount(Some(Piece(Pawn, Black)), kind, color);
  }

  lemma BackRanksCount(kind: PieceKind, color: Color)
    ensures Count(BackRank(White), kind, color) + Count(BackRank(Black), kind, color) == BackRankShare(kind)
  {
    BackRankCount(White, kind, color);
    BackRankCount(Black, kind, color);
  }

  /** The starting position is materially level. */
  lemma StartPositionIsLevel()
    ensures MaterialEval(StartPosition()) == 0
  {
    var s := StartPosition().squares;
    forall k | k in COUNTED_KINDS
      ensures Count(s, k, White) == Count(s, k, Black)
    {
      StartCounts(s, k, White);
      StartCounts(s, k, Black);
    }
    MaterialOverCounts(s, s, White, COUNTED_KINDS);
    BalanceIsDifference(s, COUNTED_KINDS);
    BalanceLevel(s, COUNTED_KINDS);
  }

  lemma {:induction false} BalanceLevel(s: seq<Option<Piece>>, kinds: seq<PieceKind>)
    requires forall k :: k in kinds ==> Count(s, k, White) == Count(s, k, Black)
    ensures BalanceOver(s, kinds) == 0
    decreases |kinds|
  {
    if kinds != [] {
      BalanceLevel(s, kinds[..|kinds| - 1]);
    }
  }

  /** The material balance written out kind by kind. */
  lemma BalanceOfCountedKinds(s: seq<Option<Piece>>)
    ensures BalanceOver(s, COUNTED_KINDS)
         == 100 * (Count(s, Pawn, White) - Count(s, Pawn, Black))
            + 320 * (Count(s, Knight, White) - Count(s, Knight, Black))
            + 330 * (Count(s, Bishop, White) - Count(s, Bishop, Black))
            + 500 * (Count(s, Rook, White) - Count(s, Rook, Black))
            + 900 * (Count(s, Queen, White) - Count(s, Queen, Black))
  {
    assert COUNTED_KINDS[..4] == [Pawn, Knight, Bishop, Rook];
    assert [Pawn, Knight, Bishop, Rook][..3] == [Pawn, Knight, Bishop];
    assert [Pawn, Knight, Bishop][..2] == [Pawn, Knight];
    assert [Pawn, Knight][..1] == [Pawn];
    assert [Pawn][..0] == [];
    var d := k => Count(s, k, White) - Count(s, k, Black);
    assert BalanceOver(s, [Pawn]) == 100 * d(Pawn);
    assert BalanceOver(s, [Pawn, Knight]) == BalanceOver(s, [Pawn]) + 320 * d(Knight);
    assert BalanceOver(s, [Pawn, Knight, Bishop]) == BalanceOver(s, [Pawn, Knight]) + 330 * d(Bishop);
    assert BalanceOver(s, [Pawn, Knight, Bishop, Rook]) == BalanceOver(s, [Pawn, Knight, Bishop]) + 500 * d(Rook);
  }

  /** A square holds at most one piece, so one colour's counted pieces number at most the squares. */
  lemma {:induction false} CountedPiecesFit(s: seq<Option<Piece>>, color: Color)
    ensures Count(s, Pawn, color) + Count(s, Knight, color) + Count(s, Bishop, color)
            + Count(s, Rook, color) + Count(s, Queen, color) <= |s|
  {
    if s != [] {
      CountedPiecesFit(s[1..], color);
    }
  }

  /** One colour's material written out kind by kind. */
  lemma MaterialOfCountedKinds(s: seq<Option<Piece>>, color: Color)
    ensures MaterialOver(s, color, COUNTED_KINDS)
         == 100 * Count(s, Pawn, color) + 320 * Count(s, Knight, color) + 330 * Count(s, Bishop, color)
            + 500 * Count(s, Rook, color) + 900 * Count(s, Queen, color)
  {
    assert COUNTED_KINDS[..4] == [Pawn, Knight, Bishop, Rook];
    assert [Pawn, Knight, Bishop, Rook][..3] == [Pawn, Knight, Bishop];
    assert [Pawn, Knight, Bishop][..2] == [Pawn, Knight];
    assert [Pawn, Knight][..1] == [Pawn];
    assert [Pawn][..0] == [];
    assert MaterialOver(s, color, [Pawn]) == 100 * Count(s, Pawn, color);
    assert MaterialOver(s, color, [Pawn, Knight]) == MaterialOver(s, color, [Pawn]) + 320 * Count(s, Knight, color);
    assert MaterialOver(s, color, [Pawn, Knight, Bishop])
        == MaterialOver(s, color, [Pawn, Knight]) + 330 * Count(s, Bishop, color);
    assert MaterialOver(s, color, [Pawn, Knight, Bishop, Rook])
        == MaterialOver(s, color, [Pawn, Knight, Bishop]) + 500 * Count(s, Rook, color);
  }

  /**
   * The material score is at most a queen's value per square in either
   * direction: on a 64-square board it stays within 57600, far from the
   * mate score.
   */
  lemma MaterialEvalBounds(p: Pos)
    ensures -900 * |p.squares| <= MaterialEval(p) <= 900 * |p.squares|
  {
    MaterialOfCountedKinds(p.squares, White);
    MaterialOfCountedKinds(p.squares, Black);
    CountedPiecesFit(p.squares, White);
    CountedPiecesFit(p.squares, Black);
  }

  /** Per-kind count difference once Black's queen is taken off the starting position. */
  lemma QueenlessDifference(q: seq<Option<Piece>>, k: PieceKind)
    requires q == StartPosition().squares[D8 := None]
    ensures Count(q, k, White) - Count(q, k, Black) == if k == Queen then 1 else 0
  {
    var s := StartPosition().squares;
    assert s[D8] == Some(Piece(Queen, Black));
    CountUpdate(s, D8, None, k, White);
    CountUpdate(s, D8, None, k, Black);
    StartCounts(s, k, White);
    StartCounts(s, k, Black);
  }

  /** With Black's queen taken off the starting position White is a queen up: +900 for White to move, -900 for Black. */
  lemma QueenOddsScores()
    ensures MaterialEval(RemovePieceAt(StartPosition(), D8)) == 900
    ensures MaterialEval(FlipTurn(RemovePieceAt(StartPosition(), D8))) == -900
  {
    var q := RemovePieceAt(StartPosition(), D8);
    assert q.squares == StartPosition().squares[D8 := None];
    QueenlessDifference(q.squares, Pawn);
    QueenlessDifference(q.squares, Knight);
    QueenlessDifference(q.squares, Bishop);
    QueenlessDifference(q.squares, Rook);
    QueenlessDifference(q.squares, Queen);
    BalanceIsDifference(q.squares, COUNTED_KINDS);
    BalanceOfCountedKinds(q.squares);
  }
}
