/**
 * The first engine: a uniformly random legal move, reported with score 0
 * and depth 1. The random choice is modelled as an arbitrary choice among
 * the legal moves; the board is only read.
 */
module RandomMover {
  import opened Wrappers
  import opened GameTree

  /**
   * No legal move, or a stop already requested, gives (None, 0, 0);
   * otherwise some legal move of the current position with score 0 and
   * depth 1.
   */
  method GetBestMove(board: Board, stopSet: bool) returns (move: Option<Move>, score: int, depth: nat)
    requires board.stack != []
    ensures var legal := Moves(board.Current().edges);
      && (legal == [] || stopSet ==> move == None && score == 0 && depth == 0)
      && (legal != [] && !stopSet ==> move.Some? && move.value in legal && score == 0 && depth == 1)
  {
    var legal := Moves(board.Current().edges);
    if legal == [] || stopSet {
      return None, 0, 0;
    }
    assert legal[0] in legal;
    var m :| m in legal;
    return Some(m), 0, 1;
  }
}
