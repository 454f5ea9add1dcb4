# Reversi engine and agents, modelled in Dafny

This project models the core of a Reversi (Othello) playing repository written
in JavaScript. It covers three parts.

- **The board** of `src/reversi.js`: the `Board` class, the `Player` clock and
  one round of the `Game` loop.
  - `Board` is a square grid of `' '`, `'W'` and `'B'` cells.
  - `check` tests a cell along eight rays; `valid_moves` lists the legal cells
    in row-major order; `can_play` tells whether there is one.
  - `move` places a disc and turns over the bracketed runs in place.
  - `winner` counts the discs.
- **The two Turingianos agents** (V8 and V9) of `src/Turingianos.js`.
  - They build eight index grids, one per symmetry of the square. From them
    they compute eight additive position hashes, which serve as memo cache
    keys.
  - `negamax` is a fail-soft alpha-beta search with that cache and a history
    table.
  - `evaluate` is a linear score over a positional weight grid.
  - `compute` drives the search and picks its depth from the remaining time.
    The two versions differ only in that depth policy.
  - The V9 class (`src/Turingianos.js:443-876`) repeats every other V8
    method unchanged. Its `generateWeightGrid` writes the same cells with
    index loops instead of `forEach`. The model shares one definition, and
    the table cites the V8 lines.
- **The LordDemonio agent** of `src/agenteLordDemonio.js`.
  - It budgets time for each move and classifies the game phase by fill ratio.
  - It picks a search depth.
  - Its count-based heuristics cover corners, edges, centre and mobility.
  - It filters and truncates candidate moves, runs a plain negamax without
    pruning, and has a quick fallback move.

**Layout.** Each imperative piece of the source is a Dafny `class`, with
methods whose loops carry invariants:

- the board, over an `array2<Cell>`;
- the players and the game;
- the Turingianos agent with its tables;
- the LordDemonio agent.

Each such method is proved to compute a function over values of the same name
or purpose. The lemmas then prove the properties the code promises about those
functions. The files are:

| file | contents |
|---|---|
| `reversi_rules.dfy` | board values (`seq<seq<Cell>>`), rays, `check`, `valid_moves`, the board after `move`, disc counts, the winner |
| `reversi_capture.dfy` | which cells a move turns over, and what that does to the counts |
| `reversi_moves.dfy` | `valid_moves` lists exactly the legal cells, in row-major order |
| `reversi_board.dfy` | the `Board` class |
| `reversi_game.dfy` | the `Player` and `Game` classes |
| `scores.dfy` | JavaScript numbers that are finite or ±Infinity (`Ext`) |
| `sorting.dfy` | `Array.prototype.sort` as a stable insertion sort |
| `symmetry.dfy` | the index grids, the rotation and flips, and the symmetry algebra of the hash |
| `turingianos_hash.dfy` | the eight position keys |
| `turingianos_eval.dfy` | the weight grid, `evaluate`, `opponent` |
| `turingianos_search.dfy` | `negamax`, the root loop and the depth policies, on values |
| `turingianos_agent.dfy` | the agent class |
| `lord_demonio_rules.dfy` | budget, size factor, phase, depth, heuristics, on values |
| `lord_demonio_search.dfy` | candidate selection, `evaluateMove`, `findBestMove`, `getQuickMove`, on values |
| `lord_demonio_agent.dfy` | the agent class |

**Quirks of the code that the model reproduces rather than fixes.**

- Both move-ordering comparators (`src/Turingianos.js:147-159` and `342-354`)
  read `a.i` and `a.j`. The moves that `valid_moves` builds carry only `y` and
  `x`.
  - So the corner tests never hold, and every history key is the pair
    (undefined, undefined).
  - Every comparison therefore returns 0, and the stable sort leaves the moves
    in the order `valid_moves` gave them (`SortTiesKeepOrder`,
    `SourceOrdersKeepOrder`). Corners are not searched first.
- `negamax` treats a position where the side to move has no legal move as a
  leaf (`src/Turingianos.js:326`). There is no pass-and-recurse.
  - The position is scored by `evaluate` and cached like any other leaf
    (`src/Turingianos.js:326-333`).
  - So a finished game gets no separate win or loss score.
- Root children of the Turingianos agents are searched at `this.depth`, not at
  `depth - 1`.
- V8 keeps its previous depth when exactly 2000 or 6000 ms remain, because
  none of its tests holds there.
- V9's depth is not monotone in the remaining time.
  - V9 also sets `total_time` only when `turns` is 0. That happens on the call
    that (re)initializes the agent, not on the first call in general.
  - On that call the time ratio is 1, so the depth is 0.
- `findBestMove` of LordDemonio scores the position after its own move with its
  own colour, not the opponent's (`src/agenteLordDemonio.js:145-151`).
- `move` writes the disc before it knows whether anything turns over
  (`src/reversi.js:187`).
  - Its leftward turning loop stops at `k > 0` while the others stop at the
    board edge.
  - This is equivalent: a bracketed run never reaches column 0, since column
    0 would have to hold the bracketing disc.
  - The model uses one ray walker for all eight directions.
- `evaluate` weighs the grid term by `Math.min(0.1, 1 - (this.turns/100))`
  (`src/Turingianos.js:412`).
  - The weight is 0.1 up to turn 90 and falls after that.
  - It turns negative after turn 100.
- `initialize_agent` builds all eight symmetry grids for whatever board it is
  given (`src/Turingianos.js:17-30`). The rotated and diagonal grids swap rows
  and columns, so the eight grids fit the board only when it is square.

## Model

| member | source | states |
|---|---|---|
| ReversiBoard.Board.constructor | src/reversi.js:69-82 | a size×size board, all empty except W at (m,m),(m+1,m+1) and B at (m,m+1),(m+1,m), m = size/2-1, for size ≥ 2 |
| ReversiBoard.Board.Clone | src/reversi.js:85-97 | a fresh board on a fresh array, equal cell for cell to the original, so writes to the clone cannot reach the original |
| ReversiBoard.Board.Of | src/reversi.js:95-96 | the new board's cells are the given array itself, shared rather than copied, as `nb.board = b` makes them |
| ReversiBoard.Board.Scan | src/reversi.js:106-107 | the scanning loop stops at the first cell along the ray that is off the board or not a rival disc |
| ReversiBoard.Board.Brackets | src/reversi.js:106-108 | one ray test of `check`: at least one rival disc, then at once an own disc |
| ReversiBoard.Board.Check | src/reversi.js:100-154 | `check` holds iff the cell is empty and some one of the eight directions is bracketed |
| ReversiBoard.Board.RowMovesOf | src/reversi.js:161-162 | one row of `valid_moves`: the legal cells of that row, left to right |
| ReversiBoard.Board.MovesOf | src/reversi.js:158-164 | the row loop of `valid_moves` builds the legal moves row by row |
| ReversiBoard.Board.ValidMoves | src/reversi.js:157-165 | `valid_moves` returns the list of legal moves of the board |
| ReversiBoard.Board.FirstInRow | src/reversi.js:173-174 | the inner scan of `can_play` stops at the first legal column of the row, or at the end of the row when there is none |
| ReversiBoard.Board.CanPlay | src/reversi.js:168-179 | `can_play` holds iff `valid_moves` is non-empty, iff some cell passes `check` |
| ReversiBoard.Board.FlipRun | src/reversi.js:197-201 | a turning loop recolours exactly the run of rival discs along one ray and leaves every other cell unchanged |
| ReversiBoard.Board.FlipDirection | src/reversi.js:192-202 | one direction of `move`, checked on the board as it was before the placement, turns that direction's run over when bracketed, and reports whether it was |
| ReversiBoard.Board.FlipAll | src/reversi.js:192-303 | the eight directions together turn over exactly the captured cells; the flag is set iff some disc turned over |
| ReversiBoard.Board.Move | src/reversi.js:183-305 | the new board is the board after the move (the disc is placed on any free cell on the board, the bracketed runs turned over; an off-board or taken cell leaves the board unchanged); the result is whether `check` held on the old board |
| ReversiBoard.Board.RowCounts | src/reversi.js:314-316 | the W and B counts of one row |
| ReversiBoard.Board.Winner | src/reversi.js:308-320 | the counts are the numbers of W and B discs; Draw iff they are equal, otherwise the id of the side with more discs |
| ReversiMoveList.RowMovesSpec | src/reversi.js:161-162 | a move is in a row's list iff it is in that row, before column j, and legal; the list is in increasing column order |
| ReversiMoveList.MovesUpToSpec | src/reversi.js:160-163 | a move is in the first i rows' list iff it is in those rows and legal; the list is in row-major order |
| ReversiMoveList.ValidMovesSpec | src/reversi.js:157-165 | `valid_moves` contains exactly the cells on the board where `check` holds, in row-major order |
| ReversiMoveList.CanPlayIffSomeMove | src/reversi.js:168-179 | the list of legal moves is non-empty iff some cell passes `check` |
| ReversiCapture.CapturedWereRival | src/reversi.js:194-201 | every disc a move turns over was a rival disc |
| ReversiCapture.MoveCells | src/reversi.js:186-303 | after a placement, own cells = old own cells + the placed cell + the captured cells; rival cells = old rival cells − the captured cells; the captured cells were rival cells |
| ReversiCapture.MoveCounts | src/reversi.js:186-303 | after a placement, the own count rises by 1 + the number turned over and the rival count falls by that number |
| ReversiCapture.FlipsPositive | src/reversi.js:189-303 | some disc turns over in the first t directions iff one of them is bracketed |
| ReversiCapture.CapturedAreRival | src/reversi.js:194-201 | every cell a move would capture holds a rival disc |
| ReversiCapture.MoveFlagIffFlips | src/reversi.js:183-305 | `move` returns true iff the cell is free and at least one disc turns over |
| ReversiCapture.AfterMoveFrame | src/reversi.js:186-303 | an off-board or taken cell leaves every cell unchanged; a cell that changes becomes own colour and was a rival disc or the placed empty cell |
| ReversiGame.Player.constructor | src/reversi.js:341-347 | a player keeps its id, colour and time, with start and end at -1 |
| ReversiGame.Player.RemainingTime | src/reversi.js:365-367 | `remainingTime(e)` = time + start − e |
| ReversiGame.Player.Reduce | src/reversi.js:349-353 | time decreases by end − start; start and end are reset to -1; the result is time > 0 |
| ReversiGame.Player.Compute | src/reversi.js:357-363 | the time spent between the two clock readings is charged; the agent's answer is returned iff time remains, otherwise null |
| ReversiGame.Game.constructor | src/reversi.js:374-381 | player1 is W and active, player2 is B and inactive, both get the given time, a fresh initial board, no winner yet |
| ReversiGame.Game.Swap | src/reversi.js:383-387 | the active and inactive players trade places; nothing else changes |
| ReversiGame.Game.Movable | src/reversi.js:390 | `can_play` for the player's colour |
| ReversiGame.Game.Finish | src/reversi.js:390-393 | the winner is the count verdict of the board |
| ReversiGame.Game.Attempt | src/reversi.js:395-396 | the active player's clock is charged; the board becomes the board after the move of an in-time placement; the result is whether it was legal |
| ReversiGame.Game.Respond | src/reversi.js:395-401 | a legal in-time move swaps the players; any other answer names the inactive player as winner |
| ReversiGame.Game.Turn | src/reversi.js:394-401 | if the active player cannot move, the players swap first (and the other one then can); the mover then responds |
| ReversiGame.Game.Play | src/reversi.js:389-402 | if neither colour can move, the winner is the count verdict and nothing else changes; otherwise one turn is played as above |
| ReversiGame.BoardAfter | src/reversi.js:396 | only a placement changes the board |
| Scores.NegInvolution | src/Turingianos.js:360 | negating a score twice gives it back, ±Infinity included |
| Scores.NegAntitone | src/Turingianos.js:360 | negation reverses the order of scores, so `-negamax(...)` turns a child's bound into the parent's |
| Sorting.InsertPermutes | src/Turingianos.js:147-159 | one insertion step of the sort adds exactly the inserted move |
| Symmetry.GenerateMatrixHash | src/Turingianos.js:38-55 | the grid numbered i·cols + j + 1 in row-major order |
| Symmetry.IndexGridBijection | src/Turingianos.js:38-55 | the numbering is a bijection from the cells onto 1..rows·cols |
| Symmetry.IndexOf | src/Turingianos.js:38-55 | every number 1..rows·cols is the index of some cell |
| Symmetry.Rotate | src/Turingianos.js:212-222 | an n×m grid becomes an m×n grid with out[j][n-1-i] = in[i][j] |
| Symmetry.RotateMatrix | src/Turingianos.js:212-222 | the loop of `rotateMatrix` computes that rotation |
| Symmetry.RotateFour | src/Turingianos.js:21-25 | four rotations give back the grid |
| Symmetry.RotateTwice | src/Turingianos.js:22-23 | two rotations equal the horizontal flip of the vertical flip, in either order |
| Symmetry.FlipHInvolution | src/Turingianos.js:224-230 | `flipMatrixH` undoes itself |
| Symmetry.FlipVInvolution | src/Turingianos.js:233-239 | `flipMatrixV` undoes itself |
| Symmetry.FlipShapes | src/Turingianos.js:224-239 | both flips keep a rectangular grid's shape |
| Symmetry.DiagonalFlips | src/Turingianos.js:27-30 | on a square, the diagonal grid is in[n-1-j][n-1-i] and the anti-diagonal grid is the transpose in[j][i] |
| Symmetry.FixedBySymmetries | src/Turingianos.js:17-30 | a grid fixed by the rotation and both flips is fixed by all eight symmetries |
| Symmetry.HashRotate | src/Turingianos.js:241-311 | the additive hash of a rotated board under the rotated grid equals the hash of the board |
| Symmetry.HashFlipH | src/Turingianos.js:241-311 | the same for the horizontal flip |
| Symmetry.HashFlipV | src/Turingianos.js:241-311 | the same for the vertical flip |
| Symmetry.HashApply | src/Turingianos.js:17-30 | the same for each of the eight symmetries |
| TuringianosHash.Factor | src/Turingianos.js:255-297 | an own disc adds index·31, a rival disc index·31·2·7·31, an empty cell nothing |
| TuringianosHash.HashGrids | src/Turingianos.js:17-30 | `initialize_agent` builds exactly eight hash grids |
| TuringianosHash.HashGridsFit | src/Turingianos.js:17-30 | the eight grids of `initialize_agent` are all n×n on a square board |
| TuringianosHash.BoardKeys | src/Turingianos.js:241-311 | exactly eight keys, one per grid in the source's order, each tagged with the depth and the colour |
| TuringianosHash.SymmetricBoardsShareKey | src/Turingianos.js:241-311 | the key of the board transformed by the k-th symmetry, under the k-th grid, equals the identity key of the board, so symmetric positions share a key |
| TuringianosHash.EmptyBoardHashesToZero | src/Turingianos.js:257-299 | the empty board hashes to 0 under any grid |
| TuringianosEval.OpponentInvolution | src/Turingianos.js:435-437 | `opponent` is an involution without fixed points on {B, W} |
| TuringianosEval.EdgeValue | src/Turingianos.js:75-77 | the edge weight is at least 2 |
| TuringianosEval.WeightSigns | src/Turingianos.js:84-120 | for n ≥ 3: corners ≥ 55, X- and C-squares ≤ −6, other edge cells ≥ 2, interior cells 0 |
| TuringianosEval.StagesGiveWeight | src/Turingianos.js:84-120 | the four write passes (corners, X-squares, C-squares, edges) end with the closed-form weight of each cell |
| TuringianosEval.GenerateWeightGrid | src/Turingianos.js:66-123 | `generateWeightGrid` fills the closed-form weight grid |
| TuringianosEval.WeightRotate | src/Turingianos.js:66-123 | the weight grid is unchanged by `rotateMatrix` |
| TuringianosEval.WeightFlips | src/Turingianos.js:66-123 | the weight grid is unchanged by both flips |
| TuringianosEval.WeightMirror | src/Turingianos.js:84-120 | each weight equals that of its vertical mirror and of its transpose |
| TuringianosEval.MarkX | src/Turingianos.js:94-99 | one corner's X-square writes, and nothing else |
| TuringianosEval.MarkC | src/Turingianos.js:104-109 | one corner's C-square writes, and nothing else |
| TuringianosEval.WeightGridSymmetric | src/Turingianos.js:66-123 | the weight grid is fixed by all eight symmetries of the square |
| TuringianosEval.GridWeight | src/Turingianos.js:412 | the grid weight is at most 0.1, exactly 0.1 up to turn 90 |
| TuringianosEval.BlendNegates | src/Turingianos.js:413-415 | negating the three differences negates the blended score |
| TuringianosEval.EvaluationAntisymmetric | src/Turingianos.js:384-419 | evaluate(b, c) = −evaluate(b, opponent(c)) |
| Sorting.SortPermutes | src/Turingianos.js:147-159 | the stable sort returns a permutation of its input |
| Sorting.SortTiesKeepOrder | src/Turingianos.js:342-354 | a comparator that ties every pair leaves the list as it is |
| TuringianosSearch.OrdersAreTies | src/Turingianos.js:342-354 | both source comparators return 0 on every pair of moves |
| TuringianosSearch.SourceOrdersKeepOrder | src/Turingianos.js:147-159 | sorting by either source comparator leaves the moves in `valid_moves` order |
| TuringianosSearch.FirstHitSpec | src/Turingianos.js:318-323 | a miss iff no key is cached; a hit returns the value of the first cached key in list order |
| TuringianosSearch.StoreAllSpec | src/Turingianos.js:329-331 | after storing, every key maps to the value and every other entry is unchanged |
| TuringianosSearch.SearchHitCase | src/Turingianos.js:318-323 | on a cache hit, `negamax` returns the cached value before generating moves and changes nothing |
| TuringianosSearch.SearchLeafCase | src/Turingianos.js:325-333 | at depth 0 or with no moves, `negamax` returns `evaluate` and stores it under all eight keys |
| TuringianosSearch.SearchDeadlineCase | src/Turingianos.js:335-337 | past the deadline, `negamax` returns `evaluate` and stores nothing |
| TuringianosSearch.SearchExpandCase | src/Turingianos.js:339-377 | otherwise it runs the move loop over the ordered moves and stores its result under all eight keys |
| TuringianosSearch.LoopEndCase | src/Turingianos.js:358-377 | once every move has been tried, the loop returns the running maximum and changes nothing |
| TuringianosSearch.LoopStepCase | src/Turingianos.js:358-372 | one move: negated child score with window (−beta, −alpha), max update, alpha update, and on alpha ≥ beta a history bump of depth² and a cut |
| TuringianosSearch.SearchGrows | src/Turingianos.js:357-377 | no cache entry disappears and no history entry shrinks during a search |
| TuringianosSearch.LoopGrows | src/Turingianos.js:366-371 | the same for the move loop |
| TuringianosSearch.PrefixMaxIsMax | src/Turingianos.js:362-364 | the running maximum is one of the scores and bounds all of them |
| TuringianosSearch.SearchFailSoft | src/Turingianos.js:313-378 | without cache hits or deadline cut-offs, the result is exact inside (alpha, beta), an upper bound at or below alpha and a lower bound at or above beta of plain negamax |
| TuringianosSearch.FailSoftNeg | src/Turingianos.js:360-361 | a fail-soft child result in window (−beta, −alpha), negated, is fail-soft for the parent in window (alpha, beta) |
| TuringianosSearch.SearchExact | src/Turingianos.js:313-378 | with the full window and no hit or cut-off, `negamax` equals plain negamax |
| TuringianosSearch.SearchStores | src/Turingianos.js:374-376 | after a search that misses the cache and is not cut off, all eight keys map to the returned value |
| TuringianosSearch.DeadlineStoresNothing | src/Turingianos.js:335-337 | a deadline cut-off leaves cache and history unchanged |
| TuringianosSearch.CachedAnswers | src/Turingianos.js:318-323 | a cached key makes the search return the first hit and leave its state unchanged |
| TuringianosSearch.ReversiModels | src/Turingianos.js:313-378 | the search's rules are the board's `valid_moves`, `simulateMove`, `evaluate` and `getBoardHashes` |
| TuringianosSearch.ReversiSearchExact | src/Turingianos.js:313-378 | on Reversi boards, with no hit or cut-off, the full-window search is plain negamax |
| TuringianosSearch.SymmetricBoardHits | src/Turingianos.js:316-323 | once a position is cached, each of its seven symmetric images is a cache hit |
| TuringianosSearch.RootScoresExact | src/Turingianos.js:199-206 | without hits or cut-offs, each root score is the negated plain negamax value of its child |
| TuringianosSearch.PickIsFirstBest | src/Turingianos.js:199-206 | the root loop picks a maximal score, and the earliest one among ties (strict >) |
| TuringianosSearch.RootPickInvariant | src/Turingianos.js:199-206 | the loop invariant of the root loop: the best so far is the earliest maximum |
| TuringianosSearch.QuietRootPicksBest | src/Turingianos.js:192-208 | the root move is among the moves, has the largest true value, and no earlier move has the same value |
| TuringianosSearch.V8Depth | src/Turingianos.js:172-187 | depth 0 below 2000, 1 strictly between 2000 and 6000, 2 above 6000 up to 9000, 3 above 9000, and unchanged at exactly 2000 or 6000 |
| TuringianosSearch.BelowIsRatio | src/Turingianos.js:604-607 | the integer comparison the model uses is the source's `time_left / total_time < q` |
| TuringianosSearch.V9Depth | src/Turingianos.js:604-625 | depth at most 2, and 0 when `total_time` is 0 (the ratio is then NaN or infinite) |
| TuringianosSearch.V9DepthByRatio | src/Turingianos.js:604-625 | depth 2 iff 0.25 ≤ ratio < 0.80; 0 iff ratio < 0.05 or ≥ 0.99; 1 otherwise |
| TuringianosSearch.V9FirstMoveDepth | src/Turingianos.js:596-625 | on the call that sets `total_time` the ratio is 1 and the depth is 0 |
| TuringianosSearch.TimeLimitIsProduct | src/Turingianos.js:190 | the deadline is now + maxTime · depth² |
| TuringianosAgent.Tables.constructor | src/Turingianos.js:15-16 | an empty cache and an empty history table |
| TuringianosAgent.Tables.Probe | src/Turingianos.js:318-323 | the probe finds a value iff some key is cached, and returns the first such key's value |
| TuringianosAgent.Tables.Hit | src/Turingianos.js:319-321 | bookkeeping, not in the source: a ghost count of cache hits rises by one and the cache, history and clock-check count are untouched, so a hit returns without changing any table |
| TuringianosAgent.Tables.Deadline | src/Turingianos.js:335 | the test reads the next clock value against the limit and counts the reading |
| TuringianosAgent.Tables.Store | src/Turingianos.js:329-331 | every key is bound to the value, all else unchanged |
| TuringianosAgent.Tables.Clear | src/Turingianos.js:195-197 | the cache is emptied, all else unchanged |
| TuringianosAgent.Tables.Reset | src/Turingianos.js:15-16 | cache and history are emptied |
| TuringianosAgent.Tables.Reward | src/Turingianos.js:368-369 | the history entry of the key grows by the bonus |
| TuringianosAgent.SimulateMove | src/Turingianos.js:429-433 | a fresh board equal to the board after the move |
| TuringianosAgent.AddTerms | src/Turingianos.js:413-415 | the three weighted terms of `evaluate` |
| TuringianosAgent.Agent.constructor | src/Turingianos.js:3-6 | no colour yet, empty tables |
| TuringianosAgent.Agent.Tally | src/Turingianos.js:395-405 | the own and rival disc counts and weight sums of the board |
| TuringianosAgent.Agent.EvaluateRow | src/Turingianos.js:396-404 | one row's contribution to those sums |
| TuringianosAgent.Agent.Evaluate | src/Turingianos.js:384-419 | `evaluate` computes the evaluation function |
| TuringianosAgent.Agent.HashRow | src/Turingianos.js:258-298 | one row's contribution to each of the eight hashes |
| TuringianosAgent.Agent.GetBoardHashes | src/Turingianos.js:241-311 | `getBoardHashes` computes the eight keys |
| TuringianosAgent.Agent.Negamax | src/Turingianos.js:313-378 | result and new tables are those of the search function |
| TuringianosAgent.Agent.Keys | src/Turingianos.js:316 | the cache keys of a `negamax` node are the rules' keys, which the agent's rules make the eight symmetry hashes of the board, colour and depth |
| TuringianosAgent.Agent.Moves | src/Turingianos.js:325 | the moves a `negamax` node expands are the rules' moves, which the agent's rules make the legal moves of the board in scan order |
| TuringianosAgent.Agent.Leaf | src/Turingianos.js:327-335 | a leaf or timed-out node scores the rules' evaluation, which the agent's rules make the weighted evaluation function |
| TuringianosAgent.Agent.Child | src/Turingianos.js:359 | a child of a `negamax` node is a fresh board, of the agent's size, holding the rules' successor, which the agent's rules make the position after the move |
| TuringianosAgent.Agent.Expand | src/Turingianos.js:325-377 | the part after a cache miss |
| TuringianosAgent.Agent.Inner | src/Turingianos.js:335-377 | the part after the leaf test |
| TuringianosAgent.Agent.Branch | src/Turingianos.js:339-377 | order, loop, then store under all keys |
| TuringianosAgent.Agent.SearchMoves | src/Turingianos.js:357-372 | the move loop |
| TuringianosAgent.Agent.Step | src/Turingianos.js:359-371 | one iteration of the move loop, with the history bump of depth² on a cut |
| TuringianosAgent.Agent.Order | src/Turingianos.js:342-354 | the sort by the history table |
| TuringianosAgent.Agent.InitializeAgent | src/Turingianos.js:8-36 | turns 0, depth 5, the colour, fresh grids and weights, empty tables, maxTime = time / cells, timeLimit = now + maxTime |
| TuringianosAgent.MakeHashGrids | src/Turingianos.js:17-30 | the eight index grids, in key order |
| TuringianosAgent.Agent.NextTurn | src/Turingianos.js:133-141 | turns grows by 1, or the agent is reinitialized (turns 0) when the colour changed |
| TuringianosAgent.Agent.ChooseDepth | src/Turingianos.js:172-187 | the depth of the version's policy (V9, src/Turingianos.js:596-625, also sets `total_time` when turns is 0) |
| TuringianosAgent.Agent.SetDeadline | src/Turingianos.js:190 | the deadline from the depth, and the rules of the search bound to it |
| TuringianosAgent.Agent.RootChild | src/Turingianos.js:200-201 | the negated search of one root child at the agent's depth with the full window |
| TuringianosAgent.Agent.RootSearch | src/Turingianos.js:192-208 | the root loop's reply is the root move of the search function |
| TuringianosAgent.Agent.Deepen | src/Turingianos.js:172-206 | depth, deadline, cache clear iff depth ≠ 0 and turns % depth == 0 (at depth 0 the remainder is NaN), then the root search |
| TuringianosAgent.Agent.Compute | src/Turingianos.js:125-209 | V8 under 60 ms returns the random branch's move; otherwise the new depth, deadline, optional cache clear and the root move of the search, which is one of the legal moves (V9: src/Turingianos.js:565-647) |
| TuringianosAgent.LegalMoves | src/Turingianos.js:131 | the moves `compute` chooses among are exactly the legal moves of the given board, in scan order (V9: src/Turingianos.js:570) |
| TuringianosAgent.RootMove | src/Turingianos.js:192-208 | the root move is one of the moves |
| TuringianosAgent.RandomMove | src/Turingianos.js:163-170 | the move of the random branch is one of the legal moves |
| TuringianosAgent.RandomIndex | src/Turingianos.js:168 | floor(length · random) is a valid index |
| LordDemonioRules.PhaseRatio | src/agenteLordDemonio.js:7-11 | the share of usable time per phase lies in [0.25, 0.45] |
| LordDemonioRules.SizeFactor | src/agenteLordDemonio.js:97-103 | 1.0 iff at most 100 cells, 1.4 iff more than 400, always in [1.0, 1.4] |
| LordDemonioRules.SizeFactorMonotone | src/agenteLordDemonio.js:97-103 | the size factor does not decrease with the cell count |
| LordDemonioRules.TimeBudget | src/agenteLordDemonio.js:74-95 | the budget is in [500, 2000] on the first move and in [500, 5000] always |
| LordDemonioRules.PhaseShare | src/agenteLordDemonio.js:76 | the phase share of a non-negative usable time is between 0 and that time |
| LordDemonioRules.Scaled | src/agenteLordDemonio.js:87-88 | scaling by the size factor grows a non-negative time by at most 1.4× |
| LordDemonioRules.TimeBudgetMonotone | src/agenteLordDemonio.js:74-95 | more usable time never gives a smaller budget |
| LordDemonioRules.TimeBudgetUnclamped | src/agenteLordDemonio.js:74-95 | inside the clamps the budget is exactly usable · ratio (first move) or usable · ratio · size factor |
| LordDemonioRules.GamePhaseByRatio | src/agenteLordDemonio.js:105-113 | opening iff filled/total < 0.3, endgame iff > 0.7, midgame otherwise |
| LordDemonioRules.BaseDepth | src/agenteLordDemonio.js:179 | the base depth lies in [2, 4] |
| LordDemonioRules.SearchDepth | src/agenteLordDemonio.js:178-190 | the depth lies in [1, base depth] |
| LordDemonioRules.SearchDepthByTime | src/agenteLordDemonio.js:178-190 | base depth from 300 ms per candidate, one less from 150 ms, two less (but at least 1) below |
| LordDemonioRules.SearchDepthMonotone | src/agenteLordDemonio.js:178-190 | for a fixed candidate count the depth does not decrease with the budget |
| LordDemonioRules.TermNeg | src/agenteLordDemonio.js:344-345 | one cell's ±1 swaps sign with the colour |
| LordDemonioRules.CornerScore | src/agenteLordDemonio.js:334-348 | the corner score lies in [−4, 4] |
| LordDemonioRules.CornerSumNeg | src/agenteLordDemonio.js:343-346 | the corner loop's sum swaps sign with the colour |
| LordDemonioRules.CornerScoreNeg | src/agenteLordDemonio.js:334-348 | `evaluateCorners` swaps sign with the colour |
| LordDemonioRules.TopBottomNeg | src/agenteLordDemonio.js:356-362 | the top and bottom row terms swap sign with the colour |
| LordDemonioRules.SidesNeg | src/agenteLordDemonio.js:364-370 | the side column terms swap sign with the colour |
| LordDemonioRules.EdgeScoreNeg | src/agenteLordDemonio.js:350-373 | `evaluateEdges` swaps sign with the colour |
| LordDemonioRules.CenterSpan | src/agenteLordDemonio.js:379-388 | the centre window is within the board and contains the middle cell |
| LordDemonioRules.SpanRowNeg | src/agenteLordDemonio.js:391-394 | one row of the centre window swaps sign with the colour |
| LordDemonioRules.SpanRowsNeg | src/agenteLordDemonio.js:390-395 | the rows of the centre window swap sign with the colour |
| LordDemonioRules.CenterScoreNeg | src/agenteLordDemonio.js:375-398 | `evaluateCenter` swaps sign with the colour |
| LordDemonioRules.MobilityNeg | src/agenteLordDemonio.js:400-403 | `evaluateMobility` swaps sign with the colour |
| LordDemonioRules.FilledRowIsPieces | src/agenteLordDemonio.js:407-411 | a row's filled cells are its W cells plus its B cells |
| LordDemonioRules.FilledIsPieces | src/agenteLordDemonio.js:405-423 | countFilledCells(b) = countPieces(b, W) + countPieces(b, B) |
| LordDemonioRules.EvaluationWeights | src/agenteLordDemonio.js:260-289 | all four weights are positive and the corner weight is the largest |
| LordDemonioRules.QuickScoreNeg | src/agenteLordDemonio.js:248-258 | `quickEvaluate` swaps sign with the colour |
| LordDemonioRules.StrategicMoves | src/agenteLordDemonio.js:291-311 | every move is strategic outside the endgame; in the endgame, a non-corner move on a free cell is strategic iff it turns at least 2 discs over, and one on a taken cell never is |
| LordDemonioSearch.PositionBonus | src/agenteLordDemonio.js:322-329 | 50 iff a corner, 30 iff another border cell, 0 iff an inner cell |
| LordDemonioSearch.InsertDescending | src/agenteLordDemonio.js:173-174 | an insertion step keeps the list in non-increasing potential |
| LordDemonioSearch.SortDescending | src/agenteLordDemonio.js:173-174 | the sort by potential yields non-increasing potential |
| LordDemonioSearch.Take | src/agenteLordDemonio.js:175 | `slice(0, k)`: the first min(k, length) elements |
| LordDemonioSearch.Filter | src/agenteLordDemonio.js:165-167 | `filter` keeps exactly the moves that pass the test, within the input's multiset |
| LordDemonioSearch.FilterKeepsAll | src/agenteLordDemonio.js:165-167 | a test every move passes keeps the list |
| LordDemonioSearch.StrategicOutsideEndgame | src/agenteLordDemonio.js:165-167 | outside the endgame the strategic filter keeps every move |
| LordDemonioSearch.SelectSpec | src/agenteLordDemonio.js:170-175 | at most 15 moves, taken from the input, empty iff the input is, sorted by potential, from the filtered list when that is non-empty |
| LordDemonioSearch.CandidatesSpec | src/agenteLordDemonio.js:163-176 | `selectCandidateMoves` returns at most 15 moves from the input, non-empty iff the input is, sorted by potential |
| LordDemonioSearch.CandidatesStrategic | src/agenteLordDemonio.js:165-170 | when some input move is strategic, every candidate is |
| LordDemonioSearch.CandidatesOutsideEndgame | src/agenteLordDemonio.js:163-176 | outside the endgame the candidates are the first 15 moves by potential |
| LordDemonioSearch.EvalMove | src/agenteLordDemonio.js:192-196 | the search reads the clock only above depth 0 |
| LordDemonioSearch.EvalLoop | src/agenteLordDemonio.js:203-221 | the running best never decreases |
| LordDemonioSearch.BestChildIsMax | src/agenteLordDemonio.js:220 | the best child is a child value and bounds all of them, −Infinity with no children |
| LordDemonioSearch.EvalIsNegamax | src/agenteLordDemonio.js:192-224 | with time to spare, `evaluateMove` is plain negamax over the candidates, with `quickEvaluate` at depth ≤ 0 and −Infinity with no moves |
| LordDemonioSearch.EvalLoopIsBestChild | src/agenteLordDemonio.js:203-223 | with time to spare, the loop returns the best child value |
| LordDemonioSearch.EvalAfterDeadline | src/agenteLordDemonio.js:193-196 | once the budget is spent, `evaluateMove` returns `quickEvaluate` after at most one clock reading |
| LordDemonioSearch.BestLoop | src/agenteLordDemonio.js:130-158 | the pick is the first candidate or one of the candidates, and the best score never decreases |
| LordDemonioSearch.BestLoopIsFirstBest | src/agenteLordDemonio.js:133-158 | with time to spare and legal candidates, the best score bounds every candidate's value, and the pick is the earliest candidate reaching it |
| LordDemonioSearch.LordModels | src/agenteLordDemonio.js:192-224 | the search's rules are the board's `valid_moves`, clone-and-move, `quickEvaluate` and `selectCandidateMoves` with phase midgame |
| LordDemonioSearch.OnePly | src/agenteLordDemonio.js:145-151 | at search depth 1 a root candidate is worth `quickEvaluate` of the board after it, for the mover's own colour |
| LordDemonioSearch.FindBest | src/agenteLordDemonio.js:115-161 | the move `findBestMove` returns is one of the legal moves |
| LordDemonioSearch.FindBestIsFirstBest | src/agenteLordDemonio.js:115-161 | with time to spare and legal moves, the candidates are non-empty, the best score bounds all their values, and the move is the earliest candidate reaching it (or the first candidate when every value is −Infinity) |
| LordDemonioSearch.FirstMaxUnique | src/agenteLordDemonio.js:239-242 | the earliest maximum of a list is unique and in the list |
| LordDemonioSearch.QuickPickUnique | src/agenteLordDemonio.js:226-246 | the quick pick is determined by the board and colour, and is a legal move |
| LordDemonioAgent.Simulate | src/agenteLordDemonio.js:139-140 | clone and `move` give a fresh board after the move and `move`'s result |
| LordDemonioAgent.LegalMoves | src/agenteLordDemonio.js:38 | the legal moves of the board |
| LordDemonioAgent.LordDemonio.constructor | src/agenteLordDemonio.js:3-17 | moveCount and totalTime start at 0 |
| LordDemonioAgent.LordDemonio.Now | src/agenteLordDemonio.js:20 | `Date.now()` returns the next clock reading |
| LordDemonioAgent.LordDemonio.EvaluateCorners | src/agenteLordDemonio.js:334-348 | the loop computes the corner score |
| LordDemonioAgent.LordDemonio.EdgeRows | src/agenteLordDemonio.js:356-362 | the first loop computes the top and bottom row terms |
| LordDemonioAgent.LordDemonio.EdgeColumns | src/agenteLordDemonio.js:364-370 | the second loop adds the side column terms |
| LordDemonioAgent.LordDemonio.EvaluateEdges | src/agenteLordDemonio.js:350-373 | the loops compute the edge score |
| LordDemonioAgent.LordDemonio.CenterRow | src/agenteLordDemonio.js:391-394 | the inner loop adds one row of the centre window |
| LordDemonioAgent.LordDemonio.EvaluateCenter | src/agenteLordDemonio.js:375-398 | the loops compute the centre score |
| LordDemonioAgent.LordDemonio.EvaluateMobility | src/agenteLordDemonio.js:400-403 | own legal moves minus rival legal moves |
| LordDemonioAgent.LordDemonio.CountFilledCells | src/agenteLordDemonio.js:405-413 | the number of non-empty cells |
| LordDemonioAgent.LordDemonio.CountPieces | src/agenteLordDemonio.js:415-423 | the number of discs of the colour |
| LordDemonioAgent.LordDemonio.GetGamePhase | src/agenteLordDemonio.js:105-113 | the phase of the board by fill ratio |
| LordDemonioAgent.LordDemonio.GetEvaluationWeights | src/agenteLordDemonio.js:260-289 | the weights of the board's phase and size |
| LordDemonioAgent.LordDemonio.QuickEvaluate | src/agenteLordDemonio.js:248-258 | the weighted sum of the four heuristics |
| LordDemonioAgent.LordDemonio.GetSizeFactor | src/agenteLordDemonio.js:97-103 | the size factor of the board's cell count |
| LordDemonioAgent.LordDemonio.CalculateTimeBudget | src/agenteLordDemonio.js:74-95 | the clamped budget |
| LordDemonioAgent.LordDemonio.CalculateSearchDepth | src/agenteLordDemonio.js:178-190 | the depth from phase, candidate count and budget |
| LordDemonioAgent.LordDemonio.IsStrategicMove | src/agenteLordDemonio.js:291-311 | the strategic test, with the endgame's clone-and-count |
| LordDemonioAgent.LordDemonio.SelectCandidateMoves | src/agenteLordDemonio.js:163-176 | filter, fallback to the first five, sort by potential, first 15 |
| LordDemonioAgent.LordDemonio.QuickAfterMove | src/agenteLordDemonio.js:235-237 | `quickEvaluate` of the board after one move |
| LordDemonioAgent.LordDemonio.QuickLoop | src/agenteLordDemonio.js:231-243 | the loop picks the earliest move with the highest quick score |
| LordDemonioAgent.LordDemonio.GetQuickMove | src/agenteLordDemonio.js:226-246 | null iff there is no legal move, otherwise the earliest best of the first five legal moves |
| LordDemonioAgent.LordDemonio.EvaluateMove | src/agenteLordDemonio.js:192-224 | result and clock readings are those of the search function |
| LordDemonioAgent.LordDemonio.RulesQuick | src/agenteLordDemonio.js:193-196 | a leaf of `evaluateMove` scores the rules' quick value, which `Models` ties to the weighted heuristic sum |
| LordDemonioAgent.LordDemonio.RulesMoves | src/agenteLordDemonio.js:199-201 | the moves of an `evaluateMove` node are the rules' moves, which `Models` ties to the legal moves in scan order |
| LordDemonioAgent.LordDemonio.RulesSelect | src/agenteLordDemonio.js:204 | the candidates an `evaluateMove` node searches are the rules' selection, which `Models` ties to the midgame candidate selection |
| LordDemonioAgent.LordDemonio.RulesPlay | src/agenteLordDemonio.js:209-210 | the child is a fresh board of the same size holding the rules' successor, and the flag is the rules' legality test; `Models` ties these to the position after `move` and to `move`'s result |
| LordDemonioAgent.LordDemonio.EvaluateCandidates | src/agenteLordDemonio.js:203-223 | the candidate loop, stopping when the budget is spent |
| LordDemonioAgent.LordDemonio.EvaluateAfter | src/agenteLordDemonio.js:209-218 | one candidate: clone, move, negated search one ply deeper for the rival |
| LordDemonioAgent.LordDemonio.PlayAndScore | src/agenteLordDemonio.js:139-151 | a move that `move` refuses is skipped without a clock reading; a legal one is searched one ply lower with the same colour |
| LordDemonioAgent.LordDemonio.ScoreCandidates | src/agenteLordDemonio.js:130-158 | the root loop, stopping when the budget is spent |
| LordDemonioAgent.LordDemonio.FindBestMove | src/agenteLordDemonio.js:115-161 | candidates, depth, then the root loop |
| LordDemonioAgent.LordDemonio.Deliberate | src/agenteLordDemonio.js:44-71 | phase, budget from the remaining time less the 4000 ms reserve, `findBestMove`, a final clock reading; the move is a legal one |
| LordDemonioAgent.LordDemonio.Compute | src/agenteLordDemonio.js:19-72 | moveCount grows by 1 and totalTime is set on the first call; null iff no legal move; with at most 4000 ms left the quick move; otherwise the deliberated move, which is legal |

## Left out

- The Konekti user interface, the `Environment` class (`src/reversi.js:404-524`)
  and `Board.print` (`src/reversi.js:322-335`). These are rendering and
  asynchronous plumbing.
- The agent a `Player` wraps.
  - A round of `Game.play` is given the two clock readings around the agent's
    `compute` and the agent's answer (`Action`).
  - The percept the agent would receive is not built.
- `Date.now()` is not modelled; clock readings are parameters.
  - `Player.compute` and `Game.play` take them as parameters.
  - `initialize_agent` and the deadline of the Turingianos `compute` take
    them as parameters too.
  - The k-th deadline test of `negamax` reads `clock(k)`.
  - The LordDemonio agent reads `clock(k)` at its k-th reading.
- `Math.random` is not modelled. V8's critical-time branch takes the two
  random numbers as parameters `coin` and `pick`.
- `Math.sqrt` is not modelled. In `evaluateMovePotential` it is an
  uninterpreted function `root`. Only the shape of the potential, centrality
  plus the position bonus, is modelled.
- IEEE floating point is modelled as exact `real` arithmetic.
  - `Math.round` is modelled as floor(x + 0.5).
  - `-Infinity` and `Infinity` are modelled as the `Ext` datatype's `NegInf`
    and `PosInf`.
- Cache keys are tuples (hash, depth, colour), not strings.
  - Two different positions whose additive hashes collide share an entry, as
    in the source.
  - The exactness theorems (`SearchFailSoft`, `SearchExact`,
    `RootScoresExact`) assume a run with no cache hit and no deadline
    cut-off. The hit counter and cut-off counter in `SearchState` are
    bookkeeping only.
- Non-square boards. `Board` only builds square grids. The diagonal and
  rotated hash grids index out of range when rows ≠ cols.
- `console.log` calls. The stale weights in the doc comment at
  `src/Turingianos.js:57-65` (the model uses the code's values). The unused
  `time_lowerBound`/`time_upperBound` of V8, which read an undefined
  `total_time`.
- The `Agent` base class and the `RandomAgent` classes (`src/reversi.js:2-60`),
  which are not part of the modelled agents.
- `winner` returns a message string. The model returns an `Outcome` holding
  the counts and the winning id. Likewise, `Game.winner`'s forfeit message is
  a `Verdict` holding the two ids.
- TuringianosAgent.Agent.Compute: requires at least one legal move.
  - With none the source reads `x` of `undefined` and throws. On V8's random
    branch it returns `undefined` instead.
  - Neither outcome is modelled.
- TuringianosAgent.Agent.Compute: the board must keep the side length the
  agent was initialized with while its colour stays the same.
  - The source would index its grids out of range on a different board.
- LordDemonioAgent.LordDemonio.Compute: requires a non-empty board.
  - `board.board[0].length` fails on an empty board.
- LordDemonioAgent.LordDemonio.Compute: the "Tiempo usado" reading is taken
  and its value dropped, as in the source, where it only feeds a log line.
- The board a LordDemonio or Turingianos method reads is the `Board` class.
  - LordDemonio methods also take its grid value as a ghost parameter
    (`Holds(b, g)`).
  - The search functions take their rules (`Rules`, `Ctx`) as values.
  - `LordModels` and `ReversiModels` prove those rules are the board
    operations.
- `Player.thinking` is the predicate `Thinking`. It has no contract of its own.
