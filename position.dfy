/**
 * A board snapshot as the evaluators see it: 64 squares in the rules
 * library's numbering (a1 = 0, b1 = 1, ..., h8 = 63) and the side to move.
 */
module Position {
  import opened Constants
  import opened Wrappers

  datatype Piece = Piece(kind: PieceKind, color: Color)

  datatype Pos = Pos(squares: seq<Option<Piece>>, whiteToMove: bool)

  /** A snapshot with exactly one entry per square. */
  predicate WellFormed(p: Pos)
  {
    |p.squares| == 64
  }

  /** The positions a game tree carries: always 64 squares. */
  type Snapshot = p: Pos | WellFormed(p) witness Pos(seq(64, i => None), true)

  /** The piece standing on a square, or nothing (also for an index off the board). */
  function PieceAt(p: Pos, sq: int): (r: Option<Piece>)
    ensures 0 <= sq < |p.squares| ==> r == p.squares[sq]
    ensures !(0 <= sq < |p.squares|) ==> r == None
  {
    if 0 <= sq < |p.squares| then p.squares[sq] else None
  }

  /** The same squares with the other side to move. */
  function FlipTurn(p: Pos): (q: Pos)
    ensures q.squares == p.squares && q.whiteToMove == !p.whiteToMove
  {
    p.(whiteToMove := !p.whiteToMove)
  }

  /** Number of pieces of one kind and colour among the squares. */
  function Count(s: seq<Option<Piece>>, kind: PieceKind, color: Color): (n: nat)
    ensures n <= |s|
  {
    if s == [] then 0
    else (if s[0] == Some(Piece(kind, color)) then 1 else 0) + Count(s[1..], kind, color)
  }

  lemma {:induction false} CountAppend(a: seq<Option<Piece>>, b: seq<Option<Piece>>, kind: PieceKind, color: Color)
    ensures Count(a + b, kind, color) == Count(a, kind, color) + Count(b, kind, color)
  {
    if a == [] {
      assert a + b == b;
    } else {
      assert (a + b)[1..] == a[1..] + b;
      CountAppend(a[1..], b, kind, color);
    }
  }

  /** Eight copies of one square's content. */
  function Row(x: Option<Piece>): seq<Option<Piece>>
  {
    [x, x, x, x, x, x, x, x]
  }

  /** The back rank, a-file to h-file, for one colour. */
  function BackRank(c: Color): seq<Option<Piece>>
  {
    [Some(Piece(Rook, c)), Some(Piece(Knight, c)), Some(Piece(Bishop, c)), Some(Piece(Queen, c)),
     Some(Piece(King, c)), Some(Piece(Bishop, c)), Some(Piece(Knight, c)), Some(Piece(Rook, c))]
  }

  /** The standard starting position, White to move. */
  function StartPosition(): (p: Pos)
    ensures WellFormed(p) && p.whiteToMove
  {
    Pos(BackRank(White) + Row(Some(Piece(Pawn, White)))
        + Row(None) + Row(None) + Row(None) + Row(None)
        + Row(Some(Piece(Pawn, Black))) + BackRank(Black), true)
  }

  /** Square d8, where Black's queen starts. */
  const D8: nat := 59

  /** The same position with one square emptied. */
  function RemovePieceAt(p: Pos, sq: nat): (q: Pos)
    requires sq < |p.squares|
    ensures |q.squares| == |p.squares| && q.whiteToMove == p.whiteToMove
    ensures q.squares[sq] == None
    ensures forall i :: 0 <= i < |p.squares| && i != sq ==> q.squares[i] == p.squares[i]
  {
    p.(squares := p.squares[sq := None])
  }
}
