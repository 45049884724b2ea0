/**
 * Tapered PeSTO evaluation: material plus piece-square bonuses, summed
 * separately for the middlegame and the endgame (White minus Black), then
 * blended by a game phase computed from the non-pawn material on the board.
 */
module Pesto {
  import opened Constants
  import opened Wrappers
  import opened Position
  import opened PestoTables

  /** Material counted by the tapered evaluator: the king contributes only its table bonus. */
  function TaperedMaterial(k: PieceKind): int
  {
    if k == King then 0 else PieceValue(k)
  }

  /** Index into the tables for a piece of the given colour on board square sq. */
  function TableIndex(c: Color, sq: nat): (i: nat)
    requires sq < 64
    ensures i < 64
  {
    if c == White then FlipSquare(sq) else sq
  }

  /** Signed middlegame contribution of one square (positive for White). */
  function SquareMg(x: Option<Piece>, sq: nat): int
    requires sq < 64
  {
    match x
    case None => 0
    case Some(pc) =>
      var v := TaperedMaterial(pc.kind) + MgTable(pc.kind)[TableIndex(pc.color, sq)];
      if pc.color == White then v else -v
  }

  /** Signed endgame contribution of one square (positive for White). */
  function SquareEg(x: Option<Piece>, sq: nat): int
    requires sq < 64
  {
    match x
    case None => 0
    case Some(pc) =>
      var v := TaperedMaterial(pc.kind) + EgTable(pc.kind)[TableIndex(pc.color, sq)];
      if pc.color == White then v else -v
  }

  function SquarePhase(x: Option<Piece>): nat
  {
    match x
    case None => 0
    case Some(pc) => PhaseWeight(pc.kind)
  }

  /** Middlegame total over the first n squares. */
  function MgSum(s: seq<Option<Piece>>, n: nat): int
    requires n <= |s| <= 64
  {
    if n == 0 then 0 else MgSum(s, n - 1) + SquareMg(s[n - 1], n - 1)
  }

  /** Endgame total over the first n squares. */
  function EgSum(s: seq<Option<Piece>>, n: nat): int
    requires n <= |s| <= 64
  {
    if n == 0 then 0 else EgSum(s, n - 1) + SquareEg(s[n - 1], n - 1)
  }

  /** Unclamped phase over the first n squares. */
  function PhaseSum(s: seq<Option<Piece>>, n: nat): nat
    requires n <= |s|
  {
    if n == 0 then 0 else PhaseSum(s, n - 1) + SquarePhase(s[n - 1])
  }

  /** The phase, clamped to the maximum. */
  function Phase(p: Pos): (ph: nat)
    requires WellFormed(p)
    ensures ph <= MAX_PHASE
  {
    var raw := PhaseSum(p.squares, |p.squares|);
    if raw < MAX_PHASE then raw else MAX_PHASE
  }

  /** Blend of the two totals, rounded towards minus infinity as the source's floor division does. */
  function Blend(mg: int, eg: int, phase: nat): int
    requires phase <= MAX_PHASE
  {
    (mg * phase + eg * (MAX_PHASE - phase)) / MAX_PHASE
  }

  /** The tapered score from the side-to-move's point of view. */
  function TaperedEval(p: Pos): int
    requires WellFormed(p)
  {
    var t := Blend(MgSum(p.squares, |p.squares|), EgSum(p.squares, |p.squares|), Phase(p));
    if p.whiteToMove then t else -t
  }

  /**
   * The evaluator's loop over the 64 squares, accumulating the middlegame
   * and endgame totals and the unclamped phase.
   */
  method Totals(p: Pos) returns (mgScore: int, egScore: int, phase: nat)
    requires WellFormed(p)
    ensures mgScore == MgSum(p.squares, 64) && egScore == EgSum(p.squares, 64) && phase == PhaseSum(p.squares, 64)
  {
    mgScore, egScore, phase := 0, 0, 0;
    var sq := 0;
    while sq < 64
      invariant 0 <= sq <= 64
      invariant mgScore == MgSum(p.squares, sq)
      invariant egScore == EgSum(p.squares, sq)
      invariant phase == PhaseSum(p.squares, sq)
    {
      // the square's material (none for a king) plus its table bonus,
      // mirrored and added for White, subtracted for Black
      var mg, eg, weight := 0, 0, 0;
      var piece := p.squares[sq];
      if piece.Some? {
        var pt := piece.value.kind;
        var material := if pt == King then 0 else PieceValue(pt);
        if piece.value.color == White {
          var idx := FlipSquare(sq);
          mg, eg := material + MgTable(pt)[idx], material + EgTable(pt)[idx];
        } else {
          var idx := sq;
          mg, eg := -(material + MgTable(pt)[idx]), -(material + EgTable(pt)[idx]);
        }
        weight := PhaseWeight(pt);
      }
      SumsStep(p.squares, sq);
      mgScore := mgScore + mg;
      egScore := egScore + eg;
      phase := phase + weight;
      sq := sq + 1;
    }
  }

  /** The totals over the first sq + 1 squares extend those over the first sq by square sq's terms. */
  lemma SumsStep(s: seq<Option<Piece>>, sq: nat)
    requires sq < |s| <= 64
    ensures MgSum(s, sq + 1) == MgSum(s, sq) + SquareMg(s[sq], sq)
    ensures EgSum(s, sq + 1) == EgSum(s, sq) + SquareEg(s[sq], sq)
    ensures PhaseSum(s, sq + 1) == PhaseSum(s, sq) + SquarePhase(s[sq])
  {
  }

  /** The evaluator: the totals, then the phase clamp and the blend, seen from the side to move. */
  method Evaluate(p: Pos) returns (score: int)
    requires WellFormed(p)
    ensures score == TaperedEval(p)
  {
    var mgScore, egScore, phase := Totals(p);
    if phase > MAX_PHASE {
      phase := MAX_PHASE;
    }
    var tapered := (mgScore * phase + egScore * (MAX_PHASE - phase)) / MAX_PHASE;
    score := if p.whiteToMove then tapered else -tapered;
  }

  /** Handing the move to the other side negates the tapered score exactly. */
  lemma FlipNegates(p: Pos)
    requires WellFormed(p)
    ensures TaperedEval(FlipTurn(p)) == -TaperedEval(p)
  {
  }

  lemma {:induction false} EmptySums(s: seq<Option<Piece>>, n: nat)
    requires n <= |s| <= 64
    requires forall i :: 0 <= i < |s| ==> s[i] == None
    ensures MgSum(s, n) == 0 && EgSum(s, n) == 0 && PhaseSum(s, n) == 0
  {
    if n > 0 {
      EmptySums(s, n - 1);
    }
  }

  /** A board with no pieces evaluates to 0 whoever is to move. */
  lemma EmptyBoardIsZero(p: Pos)
    requires WellFormed(p)
    requires forall i :: 0 <= i < 64 ==> p.squares[i] == None
    ensures TaperedEval(p) == 0
  {
    EmptySums(p.squares, |p.squares|);
  }

  /**
   * The blend lies between the middlegame and the endgame totals; it is the
   * middlegame total at full phase and the endgame total at phase 0.
   */
  lemma BlendBounds(mg: int, eg: int, phase: nat)
    requires phase <= MAX_PHASE
    ensures (if mg <= eg then mg else eg) <= Blend(mg, eg, phase) <= (if mg <= eg then eg else mg)
    ensures phase == MAX_PHASE ==> Blend(mg, eg, phase) == mg
    ensures phase == 0 ==> Blend(mg, eg, phase) == eg
  {
    var num := mg * phase + eg * (MAX_PHASE - phase);
    BlendNumerator(mg, eg, phase);
    ScaledBetween(mg - eg, phase);
    var lo := if mg <= eg then mg else eg;
    var hi := if mg <= eg then eg else mg;
    assert 24 * lo <= num <= 24 * hi;
    DivBounds(num, lo, hi);
  }

  /** The blend's numerator as the endgame total plus the scaled difference. */
  lemma BlendNumerator(mg: int, eg: int, phase: nat)
    requires phase <= MAX_PHASE
    ensures mg * phase + eg * (MAX_PHASE - phase) == 24 * eg + (mg - eg) * phase
  {
  }

  /** A difference scaled by a phase lies between 0 and the difference scaled by the full phase. */
  lemma ScaledBetween(d: int, phase: nat)
    requires phase <= MAX_PHASE
    ensures d >= 0 ==> 0 <= d * phase <= d * 24
    ensures d < 0 ==> d * 24 <= d * phase <= 0
  {
  }

  lemma DivBounds(num: int, lo: int, hi: int)
    requires 24 * lo <= num <= 24 * hi
    ensures lo <= num / 24 <= hi
  {
  }

  /** The tapered score, seen from White, is bracketed by the middlegame and endgame totals. */
  lemma TaperedBetweenTotals(p: Pos)
    requires WellFormed(p) && p.whiteToMove
    ensures var mg, eg := MgSum(p.squares, |p.squares|), EgSum(p.squares, |p.squares|);
      (if mg <= eg then mg else eg) <= TaperedEval(p) <= (if mg <= eg then eg else mg)
    ensures PhaseSum(p.squares, |p.squares|) >= MAX_PHASE ==> TaperedEval(p) == MgSum(p.squares, |p.squares|)
    ensures PhaseSum(p.squares, |p.squares|) == 0 ==> TaperedEval(p) == EgSum(p.squares, |p.squares|)
  {
    BlendBounds(MgSum(p.squares, |p.squares|), EgSum(p.squares, |p.squares|), Phase(p));
  }

  /** One square contributes at most a queen plus the largest table bonus, 1100, either way. */
  lemma SquareTermsWithin(x: Option<Piece>, sq: nat)
    requires sq < 64
    ensures -1100 <= SquareMg(x, sq) <= 1100 && -1100 <= SquareEg(x, sq) <= 1100
  {
    if x.Some? {
      TableEntriesWithin(x.value.kind, TableIndex(x.value.color, sq));
    }
  }

  lemma {:induction false} SumsWithin(s: seq<Option<Piece>>, n: nat)
    requires n <= |s| <= 64
    ensures -1100 * n <= MgSum(s, n) <= 1100 * n && -1100 * n <= EgSum(s, n) <= 1100 * n
  {
    if n > 0 {
      SumsWithin(s, n - 1);
      SquareTermsWithin(s[n - 1], n - 1);
    }
  }

  /**
   * On a 64-square board the tapered score stays within 64 * 1100 = 70400
   * either way, far from the mate score.
   */
  lemma TaperedWithin(p: Pos)
    requires WellFormed(p)
    ensures -70400 <= TaperedEval(p) <= 70400
  {
    SumsWithin(p.squares, 64);
    BlendBounds(MgSum(p.squares, |p.squares|), EgSum(p.squares, |p.squares|), Phase(p));
  }
}
