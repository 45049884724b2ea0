/**
 * The record a search shares with its caller, and the clock it consults.
 */
module Session {
  import opened Constants
  import opened Wrappers
  import opened GameTree

  /** The search's view of its state at one moment, as a value. */
  datatype Sess = Sess(stop: bool, nodes: nat, bestMove: Option<Move>, bestScore: int)

  /**
   * The mutable search record: the stop flag, the node counter, and the best
   * move and score the root of the search last wrote.
   */
  class SearchState {
    var stop: bool
    var nodes: nat
    var bestMove: Option<Move>
    var bestScore: int

    /** A fresh record: flag clear, no nodes counted, no best move, score 0. */
    constructor ()
      ensures stop == false && nodes == 0 && bestMove == None && bestScore == 0
    {
      stop := false;
      nodes := 0;
      bestMove := None;
      bestScore := 0;
    }

    function Snap(): Sess
      reads this
    {
      Sess(stop, nodes, bestMove, bestScore)
    }
  }

  /**
   * The wall clock as seen by the search: the elapsed milliseconds reported
   * when the clock is read with a given number of nodes counted, and the
   * time budget of the search.
   */
  datatype Clock = Clock(elapsedMs: nat -> int, limitMs: int)

  /** The clock read with `nodes` nodes counted says that 90% of the budget is spent. */
  predicate Expired(c: Clock, nodes: nat)
  {
    OverBudget(c.elapsedMs(nodes), c.limitMs)
  }
}
