# ChessAI search core in Dafny

A model of the search core of ChessAI, a UCI chess engine written in Python.
It covers the four frozen engine snapshots, which are:

- v1: a random mover;
- v2: a depth-3 full-width negamax with material evaluation;
- v3: the same search with alpha-beta pruning;
- v4: iterative deepening over a fail-soft alpha-beta negamax with MVV-LVA
  move ordering, fail-hard quiescence search and a tapered PeSTO evaluation.

It also covers the engine package's constants, its material evaluator, its
random-mover `get_best_move`, and the protocol handler's `position`,
`ucinewgame` and `go` time-budget commands.

The chess rules library is not modelled. The search sees it as a finite game
tree (`GameTree.Node`):

- each node is a position snapshot (64 squares and the side to move) with
  its game-over and checkmate flags;
- each node holds its legal moves in generation order, each with a capture
  flag and the child position.

Pushing a move descends into a child and popping returns to the parent. The
`GameTree.Board` class does this with a stack of nodes, and every search
method proves the stack is restored on every exit path.

The state dictionary shared by a search becomes the `Session.SearchState`
class. It holds the stop flag, the node counter, and the best move and score.
Each search method is proved against a pure function over the value
`Session.Sess`:

- `FullWidth.Value`, the reference negamax;
- `AlphaBeta.Search`;
- `Quiescence.QSearch`;
- `TimedSearch.Search`;
- `Deepening.Deepen`.

The main results are:

- Pruning never changes the result. With the full window
  (-99999, 99999), no stop, and a reference value strictly inside the
  window, v3's alpha-beta score and root move equal v2's full-width negamax.
  v4's search likewise equals a full-width negamax that has the capture-only
  quiescence value at its horizon.
- For any window alpha < beta, the window guarantee holds. A score strictly
  inside the window is exact; a score at or below alpha is an upper bound;
  a score at or above beta is a lower bound.
- Quiescence returns the capture-only value clamped into [alpha, beta].
- The pruned search counts no more nodes than the full-width search.
- The MVV-LVA order is a stable permutation that sorts by non-increasing key.
- With White to move, the tapered evaluation lies between the middlegame
  and endgame totals.
- The iterative-deepening driver reports the last completed iteration, and
  any move it reports is legal.
- Every driver finds a move at a root that is not game over, in a tree
  where every position without moves is game over; v4 needs in addition
  that the budget is not spent before its first iteration. Evaluations
  stay far inside the mate score (57600 for material, 70400 for the
  tapered score), so the root's best score beats -99999.

The model follows the code wherever the engine's own description says
otherwise. The code's behaviours kept as they are:

- Quiescence checks the stop flag but never reads the clock
  (snapshots/engine_v4.py:268-271). Only negamax polls the clock, every 2048
  nodes (snapshots/engine_v4.py:306-310).
- Once the stop flag is up, a move loop that is already running goes on. Each
  remaining child scores 0, and the root still writes its best move and
  score. `TimedSearch.StoppedLoop` states exactly what the loop then returns.
- An interrupted depth-1 iteration has no earlier result to restore, so its
  partial result is reported with depth 0 (`Deepening.PartialFirstIteration`).
- The handler stops replaying `position` moves at the first illegal move.
  The single-file engines skip that move and go on
  (`UciPosition.ReplaysDiverge`).
- `engine/search.py` returns a triple (move, score, depth), and
  `RandomMover.GetBestMove` models it as such.
- A root that the rules library calls game over but that still has legal
  moves (insufficient material such as king against king, the
  seventy-five-move rule or fivefold repetition; the engines never pass
  `claim_draw`, so threefold repetition and the fifty-move rule do not end
  the game there) passes the
  drivers' "no legal move" test, yet its search returns before the move
  loop. The drivers then report no move: (None, 0, 3) for v2 and v3, and
  (None, 0, 64) for v4 while the budget lasts (`FullWidth.GetBestMove`,
  `AlphaBeta.GetBestMove`, `Deepening.GameOverRootNoMove`). The v4
  driver's own description promises a valid move from each completed
  iteration; the model shows that promise only for roots that are not
  game over (`Deepening.CompletedIterationHasMove`).

## Model

| member | source | states |
|---|---|---|
| Constants.PieceValue | engine/constants.py:22-38 | the centipawn table: pawn 100, knight 320, bishop 330, rook 500, queen 900, king 20000; every value positive |
| Constants.PieceValuesIncrease | engine/constants.py:18-27 | values strictly increase along pawn, knight, bishop, rook, queen, king |
| Constants.OverBudgetBounds | engine/constants.py:78-82 | the 0.9 budget fraction as the exact ratio 9/10: spending the whole (non-negative) budget always crosses it, and spending nothing crosses it only for a non-positive budget |
| Position.Count | engine/evaluate.py:70-71 | a piece count never exceeds the number of squares |
| Position.StartPosition | engine/evaluate.py:52 | the starting position has 64 squares and White to move |
| Material.Evaluate | engine/evaluate.py:62-77 | the loop over the five counted kinds returns White's minus Black's material, negated for Black to move, which is the signed sum of value times count difference |
| Material.BalanceIsDifference | engine/evaluate.py:68-74 | the sum over kinds of value times (White count - Black count) equals White's material minus Black's |
| Material.BalanceOfCountedKinds | snapshots/engine_v2.py:45-54 | the balance written out as 100, 320, 330, 500 and 900 times the pawn, knight, bishop, rook and queen count differences |
| Material.FlipNegates | engine/evaluate.py:76-77 | handing the move to the other side negates the score |
| Material.KingsNeverCount | engine/evaluate.py:34-37 | placing a king of either colour on an empty square does not change the score |
| Material.StartCounts | engine/evaluate.py:52-54 | in the starting position each side has 8 pawns, 2 knights, 2 bishops, 2 rooks, 1 queen and 1 king |
| Material.StartPositionIsLevel | engine/evaluate.py:52-54 | the starting position evaluates to 0 |
| Material.QueenlessDifference | engine/evaluate.py:55-57 | without Black's queen, every count difference is 0 except queens, which differ by 1 |
| Material.QueenOddsScores | engine/evaluate.py:55-60 | with Black's queen removed, the score is 900 with White to move and -900 with Black to move |
| Material.CountedPiecesFit | snapshots/engine_v2.py:47-52 | a square holds at most one piece, so one colour's pawns, knights, bishops, rooks and queens together number at most the squares |
| Material.MaterialOfCountedKinds | snapshots/engine_v2.py:47-52 | one colour's material is 100, 320, 330, 500 and 900 times its pawn, knight, bishop, rook and queen counts |
| Material.MaterialEvalBounds | snapshots/engine_v2.py:45-54 | the score lies within 900 per square either way, 57600 on a board, far inside the mate score |
| FullWidth.Negamax | snapshots/engine_v2.py:62-90 | with the stop flag set: returns 0 and changes nothing. Otherwise: returns the reference value, counts exactly the nodes of the depth-limited tree, writes the root's first best move and its score only at ply 0, and restores the board |
| FullWidth.BestIsFirstMax | snapshots/engine_v2.py:82-88 | the running best is the maximum of the move scores seen (never below -99999); it has no move exactly when it is still -99999; a recorded move is the first one reaching it |
| FullWidth.ValueIsMax | snapshots/engine_v2.py:75-84 | with depth left, the value is at least -99999 and every move's negated child value; it is -99999 or the score of some move |
| FullWidth.MateDistance | snapshots/engine_v2.py:69-70 | a mate scores -(99999 - ply) whatever the depth, so a shorter mate is worth strictly more to the winner |
| FullWidth.EveryMoveVisited | snapshots/engine_v2.py:64-84 | the node count of a position with depth left includes itself, at least one node per move, and the whole subtree of every move |
| FullWidth.ValueInside | snapshots/engine_v2.py:62-90 | in a tree where every position without moves is game over, every value below the root, and the value of a non-terminal root, lies strictly between -99999 and 99999 |
| FullWidth.GetBestMove | snapshots/engine_v2.py:93-100 | no moves or a preset stop gives (None, 0, 0); otherwise depth 3 with the root's first best move and the reference value, and a reported move is legal; a game-over root that still has moves gives (None, 0, 3); in a tree where every position without moves is game over, a non-terminal root always gets a move |
| Window.ClampBound | snapshots/engine_v4.py:274-290 | clamping a value into [alpha, beta] stays in the window and meets the window guarantee |
| Window.InsideIsExact | snapshots/engine_v3.py:68-73 | when the true value lies strictly inside the window, a score meeting the guarantee equals it |
| Window.ScanStep | snapshots/engine_v3.py:91-104 | one move of the loop, searched with the window (-beta, -alpha), keeps the window guarantee for the running best; inside the window the best move changes exactly when the reference's does; a cutoff implies a fail-high |
| AlphaBeta.Negamax | snapshots/engine_v3.py:64-110 | with the stop flag set: returns 0 and changes nothing. Otherwise: agrees with the pruned search's score and node count, writes the root's move only at ply 0, and restores the board |
| AlphaBeta.SearchMoves | snapshots/engine_v3.py:85-104 | the move loop agrees with the pruned loop's best score, move and node count, and leaves the flag and the record's move untouched |
| AlphaBeta.SearchBound | snapshots/engine_v3.py:68-104 | for any alpha < beta the pruned score meets the window guarantee against v2's full-width value |
| AlphaBeta.RootBound | snapshots/engine_v3.py:85-108 | the root loop meets the guarantee; when its best lies inside the window, its move is the full-width first best move |
| AlphaBeta.LoopBound | snapshots/engine_v3.py:88-104 | the loop, started from any state meeting the scan invariant, ends meeting the guarantee with the reference's move |
| AlphaBeta.FullWindowAgrees | snapshots/engine_v3.py:12 | pruning never changes the result: with the full window and a value inside it, the score and the root move equal the full-width search's |
| AlphaBeta.SearchNodes | snapshots/engine_v3.py:77-104 | the pruned search never counts more nodes than the full-width search of the same tree and depth |
| AlphaBeta.LoopNodes | snapshots/engine_v3.py:88-104 | the move loop counts no more than the remaining full-width subtrees |
| AlphaBeta.LoopMoveIsLegal | snapshots/engine_v3.py:88-104 | the move the pruned loop records is a legal move of the position when the one it started with was |
| AlphaBeta.GetBestMove | snapshots/engine_v3.py:113-120 | no moves or a preset stop gives (None, 0, 0); otherwise depth 3 with the move and score of the full-window pruned root loop, and the board is restored; in a tree where every position without moves is game over, that score and move are exactly the full-width negamax value and first best move of the depth-3 search without pruning; a reported move is legal; a game-over root that still has moves gives (None, 0, 3); in a tree where every position without moves is game over, a non-terminal root always gets a move |
| Ordering.OrderMovesPermutes | snapshots/engine_v4.py:253 | the ordered list is a permutation of the moves (same multiset, same length) |
| Ordering.OrderMovesMembers | snapshots/engine_v4.py:253 | a move is in the ordered list exactly when it is among the input moves |
| Ordering.OrderMovesSorted | snapshots/engine_v4.py:253 | the ordered list has non-increasing MVV-LVA keys |
| Ordering.OrderMovesStable | snapshots/engine_v4.py:253 | for every key, the moves carrying it keep their input order |
| Ordering.CaptureKeys | snapshots/engine_v4.py:244-251 | a quiet move scores 0; a capture by a non-king of a non-king scores 9200..10900; a king capture scores -9900..-9100; an en-passant capture by a pawn scores 10000 |
| Ordering.CapturesBeforeQuietMoves | snapshots/engine_v4.py:242-253 | in the ordered list every non-king capture precedes every quiet move, and every quiet move precedes every king capture |
| PestoTables.MgTable | snapshots/engine_v4.py:183-190 | every middlegame piece-square table has 64 entries |
| PestoTables.EgTable | snapshots/engine_v4.py:183-190 | every endgame piece-square table has 64 entries |
| PestoTables.PhaseWeight | snapshots/engine_v4.py:192-199 | phase weights are at most 4, and 0 exactly for pawns and kings |
| PestoTables.FullSetIsMaxPhase | snapshots/engine_v4.py:200 | the non-pawn pieces of the starting position weigh exactly MAX_PHASE = 24 |
| PestoTables.FlipSquare | snapshots/engine_v4.py:221-222 | mirroring keeps the file and maps rank r to rank 7 - r |
| PestoTables.FlipSquareIsXor56 | snapshots/engine_v4.py:222 | the mirror is exactly `sq ^ 56` on every square |
| PestoTables.FlipSquareInvolution | snapshots/engine_v4.py:58-60 | mirroring twice gives the square back |
| PestoTables.TableEntriesWithin | snapshots/engine_v4.py:62-181 | every entry of the twelve piece-square tables lies within 200 either way |
| Pesto.TableIndex | snapshots/engine_v4.py:221-228 | the table index of a white piece is the mirrored square, of a black piece the square itself, always below 64 |
| Pesto.Phase | snapshots/engine_v4.py:230-232 | the summed phase, clamped to at most 24 |
| Pesto.Totals | snapshots/engine_v4.py:209-230 | the loop over 64 squares accumulates the middlegame total, the endgame total and the unclamped phase |
| Pesto.Evaluate | snapshots/engine_v4.py:207-234 | returns the tapered score: blend by the clamped phase with floor division by 24, negated for Black to move |
| Pesto.FlipNegates | snapshots/engine_v4.py:234 | handing the move to the other side negates the tapered score |
| Pesto.EmptyBoardIsZero | snapshots/engine_v4.py:209-234 | an empty board evaluates to 0 whoever is to move |
| Pesto.BlendBounds | snapshots/engine_v4.py:233 | the blend lies between the two totals; it equals the middlegame total at phase 24 and the endgame total at phase 0 |
| Pesto.TaperedBetweenTotals | snapshots/engine_v4.py:230-233 | with White to move the score lies between the middlegame and endgame totals; it equals the middlegame total once the phase reaches 24 and the endgame total at phase 0 |
| Pesto.SquareTermsWithin | snapshots/engine_v4.py:214-228 | one square adds at most 1100 either way to each total: a queen's 900 plus a table entry |
| Pesto.SumsWithin | snapshots/engine_v4.py:209-230 | the totals over the first n squares stay within 1100 n either way |
| Pesto.TaperedWithin | snapshots/engine_v4.py:207-234 | the tapered score of any board stays within 70400 either way, far inside the mate score |
| Quiescence.CapturesMembers | snapshots/engine_v4.py:279 | the captures are exactly the legal moves flagged as captures |
| Quiescence.CaptureOrderMembers | snapshots/engine_v4.py:279-280 | the searched captures are the capturing moves, each as often as it occurs, and all are moves of the position |
| Quiescence.StaticEval | snapshots/engine_v4.py:273 | the stand-pat score is the tapered evaluation of the position |
| Quiescence.QLoopCut | snapshots/engine_v4.py:285-286 | a capture scoring at least beta ends the loop with beta |
| Quiescence.QLoopContinue | snapshots/engine_v4.py:287-288 | a capture scoring below beta raises alpha to its score if larger, and the loop goes on |
| Quiescence.QMaxMonotone | snapshots/engine_v4.py:273-288 | considering more captures never lowers the maximum, and it never drops below the stand-pat score |
| Quiescence.QSearchClamp | snapshots/engine_v4.py:261-290 | for alpha < beta the quiescence score is the unpruned capture-only value clamped into [alpha, beta] |
| Quiescence.QLoopClamp | snapshots/engine_v4.py:281-290 | the capture loop, with alpha equal to max(alpha, maximum so far) below beta, returns the clamped final maximum |
| Quiescence.QLoopClampStep | snapshots/engine_v4.py:281-288 | one capture keeps that invariant or cuts off at the clamped value |
| Quiescence.FullWindowIsValue | snapshots/engine_v4.py:261-290 | with the full window and a value inside it, quiescence returns the capture-only value itself |
| Quiescence.StandPatFloor | snapshots/engine_v4.py:273-277 | the score is never below min(stand-pat, beta) and stays in [alpha, beta] |
| Quiescence.QValueWithin | snapshots/engine_v4.py:261-290 | with the tapered evaluator, the capture-only value stays within 70400 either way |
| Quiescence.QMaxWithin | snapshots/engine_v4.py:273-288 | the running maximum of stand-pat and capture scores stays within the same range |
| Quiescence.Quiesce | snapshots/engine_v4.py:261-290 | with the stop flag set: returns 0 without counting. Otherwise: agrees with QSearch's score and node count, touches nothing else, and restores the board |
| Quiescence.SearchCaptures | snapshots/engine_v4.py:279-290 | the loop over the ordered captures agrees with the capture loop's score and node count |
| Quiescence.QuiesceChild | snapshots/engine_v4.py:281-283 | push, search with the given window, pop: the board is restored and the score and count are the child's |
| TimedSearch.MoveOrderMembers | snapshots/engine_v4.py:321 | the searched moves are exactly the legal moves, each as often as it occurs |
| TimedSearch.BestIsMax | snapshots/engine_v4.py:318-331 | the running best over the ordered moves is at least -99999 and every move's score, and is -99999 or one of the scores |
| TimedSearch.ValueIsMax | snapshots/engine_v4.py:318-334 | the reference value does not depend on the move order: it is the largest negated child value over the legal moves, or -99999 |
| TimedSearch.BestIsFirstMax | snapshots/engine_v4.py:318-331 | a move the running best records is the first in MVV-LVA order whose negated child value equals the best score; every earlier move scores strictly less, because only a strictly larger score replaces it |
| TimedSearch.BestNoneIsFloor | snapshots/engine_v4.py:318-328 | the running best never drops below -99999, and has no move exactly when it is still -99999 |
| TimedSearch.ValueInside | snapshots/engine_v4.py:293-340 | in a tree where every position without moves is game over, with the tapered evaluator, every reference value below the root, and that of a non-terminal root, lies strictly between -99999 and 99999 |
| TimedSearch.LoopStopSticks | snapshots/engine_v4.py:300-301 | once the stop flag is up it stays up and the record is not changed |
| TimedSearch.StoppedLoop | snapshots/engine_v4.py:321-338 | after a stop the loop goes on with 0-score children: it ends with max(best, 0), taking the next move as best if its best was negative |
| TimedSearch.SearchBound | snapshots/engine_v4.py:293-340 | for any alpha < beta, a search ending without a stop meets the window guarantee against the reference value |
| TimedSearch.RootBound | snapshots/engine_v4.py:318-338 | the root loop meets the guarantee and, inside the window, records the reference's first best move |
| TimedSearch.LoopBound | snapshots/engine_v4.py:321-334 | the ordered move loop, from any state meeting the scan invariant, ends meeting the guarantee with the reference's move |
| TimedSearch.FullWindowAgrees | snapshots/engine_v4.py:318-338 | with the full window, no stop and a value inside it, the score is the reference value and the root records the reference move and that score |
| TimedSearch.LoopMoveIsLegal | snapshots/engine_v4.py:321-328 | the move a loop records is a legal move if the one it started with was |
| TimedSearch.RootMoveIsLegal | snapshots/engine_v4.py:336-338 | a root search leaves in the record either the move it found there or a legal move of the root |
| TimedSearch.LoopKeepsMove | snapshots/engine_v4.py:321-328 | once the move loop has recorded a move it ends with one, stopped or not |
| TimedSearch.Negamax | snapshots/engine_v4.py:293-340 | the search over the board and shared record returns Search's score and leaves Search's record (stop, nodes, best move and score) from the record it found, and restores the board |
| TimedSearch.SearchMoves | snapshots/engine_v4.py:318-334 | the loop over the ordered moves agrees with the timed move loop |
| Deepening.GetBestMove | snapshots/engine_v4.py:343-383 | no moves or a preset stop gives (None, 0, 0); otherwise the deepening iterations from a fresh record, reporting its move, score and the last completed depth; the board is restored; a game-over root that still has moves reports no move and score 0; in a tree where every position without moves is game over, a non-terminal root gets a move unless the budget is spent before the first iteration |
| Deepening.DeepenReport | snapshots/engine_v4.py:365-383 | without a stop, the record after the last completed depth, which is 64 or was reached with 90% of the budget spent; after a stop, the last completed iteration's move and score when it had a move, else the partial result |
| Deepening.CompletedIterationIsReference | snapshots/engine_v4.py:373 | a completed iteration of depth k records the reference value for depth k and the reference best move, which is the first move in MVV-LVA order whose negated child value reaches that value |
| Deepening.DeepenMoveIsLegal | snapshots/engine_v4.py:365-381 | iterations started from a legal or empty record end with a legal or empty move |
| Deepening.DriverMoveIsLegal | snapshots/engine_v4.py:343-383 | the driver's move, when it reports one, is a legal move of the root |
| Deepening.PartialFirstIteration | snapshots/engine_v4.py:375-379 | an interrupted depth-1 iteration reports depth 0 and the partial iteration's record |
| Deepening.GameOverKeepsRecord | snapshots/engine_v4.py:311-312 | at a game-over root every iteration returns before the move loop, so the record's best move and score stay as they were |
| Deepening.GameOverRunsOut | snapshots/engine_v4.py:303-312 | each iteration at a game-over root counts one node, so the clock is never polled and, with the budget never spent, all 64 iterations complete |
| Deepening.GameOverRootNoMove | snapshots/engine_v4.py:343-383 | a game-over root that still has moves is reported with no move and score 0, and with depth 64 while the budget is never spent |
| Deepening.FirstIterationHasMove | snapshots/engine_v4.py:318-338 | the depth-1 iteration from a fresh record records a move at a non-terminal root with moves, even when cut short: its first move is searched before the clock can be read and scores above -99999 |
| Deepening.CompletedIterationHasMove | snapshots/engine_v4.py:347-349 | in a tree where every position without moves is game over, each completed iteration at a non-terminal root records a move |
| Deepening.DeepenKeepsMove | snapshots/engine_v4.py:365-381 | once the record holds a move, the remaining iterations leave one there: a completed one records its own, an interrupted one restores the earlier one |
| Deepening.DriverFindsMove | snapshots/engine_v4.py:343-383 | in such a tree the driver reports a move at a non-terminal root unless the budget is already spent before the first iteration |
| RandomMover.GetBestMove | engine/search.py:95-103 | no legal moves or a preset stop gives (None, 0, 0); otherwise some legal move, score 0, depth 1 |
| Session.SearchState.constructor | engine/search.py:52-56 | a fresh record: flag clear, 0 nodes, no best move, score 0 |
| GameTree.Board.Push | snapshots/engine_v4.py:322 | playing a legal move appends its child position |
| GameTree.Board.Pop | snapshots/engine_v4.py:324 | taking back a move drops the last position |
| GoTime.ParseShow | interface/uci.py:311 | a decimal rendering, with or without a sign, parses back to the number |
| GoTime.UnderscoreIgnored | interface/uci.py:311 | an underscore between digits does not change the value parsed |
| GoTime.ParseRejects | interface/uci.py:310-314 | the empty token, a bare sign and doubled, leading or trailing underscores are refused |
| GoTime.ParseGoTime | snapshots/engine_v4.py:399-414 | the scan loop and the budget rules give the budget of the scanned parameters for the side to move |
| GoTime.PairsFromTokens | interface/uci.py:306-314 | every stored pair is a key token before the last token followed by a token spelling its value; key positions increase by at least two |
| GoTime.StoreLast | interface/uci.py:311 | a later duplicate key overwrites an earlier one: a key holds the value of its last pair |
| GoTime.ParamsKeys | interface/uci.py:306-314 | a key is a parameter only if some token before the last names it and is followed by an integer with that value |
| GoTime.AlternatingPairs | interface/uci.py:306-314 | keys alternating with integers are all stored in order with their values; a trailing key is dropped |
| GoTime.MovetimeWins | interface/uci.py:317-318 | `movetime` is the budget, exactly and unclamped, for either side and whatever else is given |
| GoTime.ClockShare | interface/uci.py:325-333 | without `movetime`: max(1, time // 40 + increment) with the increment defaulting to 0, or 10,000,000 without the side's clock; always at least 1 |
| GoTime.OwnClockOnly | interface/uci.py:321-323 | the other side's clock and increment never change the budget |
| GoTime.MoreTimeMoreBudget | interface/uci.py:325-330 | more time on the side's clock never gives a smaller budget |
| GoTime.SkipExample | interface/uci.py:310-314 | a non-integer value moves the scan on by one token only, so `wtime x 100` stores x = 100 and gives the default budget |
| UciPosition.IndexOf | interface/uci.py:158 | the first occurrence of a token, or none when absent |
| UciPosition.UciHandler.constructor | interface/uci.py:85-88 | a handler starts on a new board |
| UciPosition.UciHandler.HandleUcinewgame | interface/uci.py:118-127 | the board becomes a new board |
| UciPosition.UciHandler.HandlePosition | interface/uci.py:129-181 | the board becomes the board the command asks for, with the moves replayed until one is refused |
| UciPosition.UciHandler.ReplayMoves | interface/uci.py:172-178 | the loop pushes moves until a token is not a move or not legal |
| UciPosition.UciHandler.ParseGoTime | interface/uci.py:288-333 | the budget of the tokens for the side to move on the handler's board |
| UciPosition.SnapshotPosition | snapshots/engine_v4.py:446-465 | the single-file engine's board after a `position` command |
| UciPosition.SkipReplay | snapshots/engine_v4.py:462-465 | the loop passes over illegal moves, and a token that is not a move ends it |
| UciPosition.UntilIllegalStopsAtFirstRefusal | interface/uci.py:172-178 | the replay keeps the setup and earlier moves, plays legal moves only, and stops exactly at the first token that is not a legal move |
| UciPosition.SkippingPlaysOnlyLegalMoves | snapshots/engine_v4.py:462-465 | the skipping replay keeps the setup and earlier moves and plays only legal moves, at most one per token |
| UciPosition.ReplaysAgreeOnLegalLines | snapshots/engine_v4.py:462-465 | when every token is a move legal in turn, both replays play the same moves |
| UciPosition.ReplaysDiverge | interface/uci.py:174-178 | an illegal move followed by a legal one: the handler stops, the single-file engine plays the legal one |
| UciPosition.RequestTokens | interface/uci.py:152-164 | `startpos` takes moves only when the second token is `moves`; `fen` takes the tokens before the first `moves`, joined by spaces, and the moves after it |
| UciPosition.PositionKeepsOrReplaces | interface/uci.py:149-167 | no tokens, an unknown type or a refused FEN leave the board as it was; `startpos` or an accepted FEN replace it |
| UciPosition.PushFlipsTurn | interface/uci.py:321 | each move pushed hands the turn to the other side |

## Left out

- The chess rules library is not part of this model. This covers legal move
  generation, `is_capture`, game-over and checkmate detection, push and pop,
  FEN parsing and UCI move parsing. Searches see these as the finite game
  tree; the `position` command sees them as the `UciPosition.Rules` oracle.
  The evaluators read the position snapshot stored at each node. The small
  board helpers Position.PieceAt, Position.FlipTurn and
  Position.RemovePieceAt stand in for the library's `piece_at`, the
  assignment to `board.turn` and `remove_piece_at`.
- Threads, stop events, `join` timeouts, `_stop_search` and the `stop`
  command are not modelled. The stop flag is a field that only the search's
  own clock poll raises, or a preset boolean for the drivers. A stop
  arriving from another thread mid-search is not modelled.
- The wall clock is replaced by `Session.Clock`, an oracle. It gives the
  elapsed milliseconds at each read, indexed by the nodes counted so far.
  Elapsed time is therefore integer, and the driver's reads between
  iterations see the same oracle. The driver's read after an iteration can
  land on the same node count as that iteration's last poll inside the
  search; the model then gives both reads the same elapsed time, although
  in the program the driver's read comes later. No property proved here
  depends on this.
- Constants.OverBudgetBounds: the float product `time_limit_ms * 0.9` is the
  exact ratio 9/10; floating-point rounding is not modelled.
- RandomMover.GetBestMove: the uniform `random.choice` is an arbitrary
  choice among the legal moves. The distribution is not modelled.
- The `time_limit_ms` and `stop_event` fields of `SearchState` are not
  modelled, and neither is the float default `inf`.
- `int()` is modelled for ASCII digits, an optional sign and single
  underscores between digits. Surrounding whitespace, non-ASCII digits and
  the interpreter's digit-count limit are not.
- Printing (`_send`, `_log`, `info` lines and the `bestmove` reply) and the
  stdin command loop are not modelled. This includes `uci`, `isready`,
  `go`'s search thread, `quit`, and the loop's catch-all exception handler.
  The catch-all is modelled only as ending the replay at a token that is
  not a move.
- `handle_go` is modelled only through its time-budget parser; the other
  three fields of the handler are not modelled.
- web/app.py (HTTP routing, float time clamp) and tools/bench.py (benchmark
  harness) are not part of this model.
- The unused constants `NULL_MOVE_REDUCTION` and `TT_SIZE` are not modelled.
- The v2 and v3 drivers ignore their time limit argument, and the model
  drops it.
- `engine/search.py` returns a triple while the handler unpacks four values.
  Each function is modelled on its own code; the handler's `go` closure is
  not modelled.
- Node counts are unbounded integers, as the interpreter's are.
