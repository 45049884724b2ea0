/**
 * Engine-wide constants: piece values, special scores and search limits.
 * The piece kinds and colours stand in for the rules library's own
 * enumerations; everything numeric is an exact integer.
 */
module Constants {

  datatype PieceKind = Pawn | Knight | Bishop | Rook | Queen | King

  datatype Color = White | Black

  const PAWN_VALUE: int := 100
  const KNIGHT_VALUE: int := 320
  const BISHOP_VALUE: int := 330
  const ROOK_VALUE: int := 500
  const QUEEN_VALUE: int := 900
  const KING_VALUE: int := 20000

  /** Returned (negated, shortened by the ply) when the side to move is mated. */
  const CHECKMATE_SCORE: int := 99999
  /** Stalemate, repetition, fifty-move rule and every other non-mate ending. */
  const DRAW_SCORE: int := 0
  /** Cap on the iterative-deepening loop. */
  const MAX_DEPTH: nat := 64
  /** The clock is consulted once every this many counted nodes. */
  const TIME_CHECK_NODES: nat := 2048
  /** The fraction 0.9 of the time budget the search may use, as an exact ratio. */
  const TIME_USAGE_NUMERATOR: nat := 9
  const TIME_USAGE_DENOMINATOR: nat := 10

  /** The centipawn value table, king included (the king entry only matters for move ordering). */
  function PieceValue(k: PieceKind): (v: int)
    ensures v > 0
    ensures k == Pawn ==> v == PAWN_VALUE
    ensures k == Knight ==> v == KNIGHT_VALUE
    ensures k == Bishop ==> v == BISHOP_VALUE
    ensures k == Rook ==> v == ROOK_VALUE
    ensures k == Queen ==> v == QUEEN_VALUE
    ensures k == King ==> v == KING_VALUE
  {
    match k
    case Pawn => PAWN_VALUE
    case Knight => KNIGHT_VALUE
    case Bishop => BISHOP_VALUE
    case Rook => ROOK_VALUE
    case Queen => QUEEN_VALUE
    case King => KING_VALUE
  }

  /** Rank of a piece kind in the order pawn < knight < bishop < rook < queen < king. */
  function KindIndex(k: PieceKind): (i: nat)
    ensures i < 6
  {
    match k
    case Pawn => 0
    case Knight => 1
    case Bishop => 2
    case Rook => 3
    case Queen => 4
    case King => 5
  }

  /** Piece values strictly increase along pawn, knight, bishop, rook, queen, king. */
  lemma PieceValuesIncrease(a: PieceKind, b: PieceKind)
    requires KindIndex(a) < KindIndex(b)
    ensures PieceValue(a) < PieceValue(b)
  {
  }

  /**
   * The budget the search may spend, `limit * 0.9`, compared without
   * floating point: `elapsed >= limit * 9 / 10` exactly when `10 * elapsed >= 9 * limit`.
   */
  predicate OverBudget(elapsedMs: int, limitMs: int)
  {
    TIME_USAGE_DENOMINATOR * elapsedMs >= TIME_USAGE_NUMERATOR * limitMs
  }

  /** Using the whole budget always crosses the threshold; using none crosses it only for a non-positive budget. */
  lemma OverBudgetBounds(limitMs: int)
    ensures limitMs >= 0 ==> OverBudget(limitMs, limitMs)
    ensures OverBudget(0, limitMs) <==> limitMs <= 0
  {
  }
}
