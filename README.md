# Othello rule engine — a verified Dafny model

This project models the rule engine of a small Java Othello game. The engine
has these parts:

- **Board.** An 8x8 grid of cells, each empty, black or white. A new board
  holds the centre cross: D4 and E5 white, E4 and D5 black.
- **Direction walker (`LineTraversor`).** The eight grid directions. For each,
  a loop guard checks either the board edge or a goal cell, and a cursor
  update moves one step.
- **Legality task (`LegalMoveRegistration`).** Walks one ray from a start
  cell. It returns the first empty cell reached after at least one rival
  pawn, if any.
- **Capture task (`ReversePawn`).** Walks one ray to the board edge. Each time
  it meets the mover's own pawn, it turns every rival pawn between the start
  and that pawn.
- **Two rule sets.**
  - `Rules` is the first revision: `legalMoves` and `doPly`.
  - `Referee` is the second: `getLegalMoves` and `generateNewContextFrom`.
    Its walks start one step from a pawn rather than on it.
- **`getState`.** Decides whether the game is over, and otherwise reports a
  win, a loss or a draw for the player whose turn it is.

Each file takes the form of the code it models:

- The board is a class over an array of 64 cells, stored row-major.
- The two tasks are classes. Their `call` and `run` are methods with the
  source's loops.
- The rule operations are methods that clone the board, queue tasks and run
  them.
- `getState` is a loop with an early return.

Each method is proved against a specification function on grid snapshots
(`seq<Cell>`), and the lemmas state what those functions promise.

The code behaves differently from a textbook Othello engine in three ways.
The model follows the code in each case:

- **`Rules.legalMoves` always returns the empty set.** Its walks start on the
  mover's own pawn, and such a walk stops at once. This is proved for every
  board (`Rules.OwnPawnWalksFindNothing`). `PlayerHasRemainingPlies` is
  therefore always false.

  Both assertions of `RulesTest` hold for the empty set that `legalMoves`
  returns. One only checks that every ply returned is among the four
  expected. The other expects none.

  `Referee.getLegalMoves` finds the usual moves: a placement is offered
  exactly when it closes an unbroken run of rival pawns against one of the
  player's own (`Referee.RefereeMovesFlank`). Both `RefereeTest` scenarios
  are proved (`RefereeScenarios`), together with White's opening moves and
  the board after Black's D3.
- **The capture walk does not stop at an empty cell or at the first own
  pawn.** A rival pawn on the ray is turned whenever the mover's pawn lies
  anywhere farther along the ray, even with empty cells in between
  (`ReversePawnTask.TurnedBy`, `ReversePawnTask.ReverseSpecAt`). It does
  stop at the board edge.
- **`getState` ends the game only on a full board.** An empty cell means
  `NotYetFinish`, even when neither player can move.

The two placement operations run their capture walks differently:

- `doPly` starts each walk on the placed pawn and runs the directions in
  declaration order.
- `generateNewContextFrom` starts each walk on the neighbour of the placed
  pawn and runs them from the last ordinal to the first.

Both lead to the same board (`Referee.RefereeAgreesWithRules`).

The files:

- `othello.dfy` (module `Othello`): shared vocabulary. Pawn and player
  identifiers, coordinates, `Index`/`CoordOf`, letter/digit coordinates,
  counts.
- `line_traversor.dfy`: directions, the loop guard and cursor updates, and
  the cells a walk visits (`Line`).
- `board.dfy` (module `OthelloBoard`): the `Board` class and the initial
  position.
- `legal_move_registration.dfy` (module `LegalMoveTask`): the legality task
  and the set of plies a task list finds.
- `reverse_pawn.dfy` (module `ReversePawnTask`): the capture task and
  sequences of capture walks.
- `rules.dfy`, `referee.dfy`: the two rule sets.
- `othello_context.dfy`: `getState`.
- `referee_scenarios.dfy`: the two referee test positions.

## Model

All source paths below are under `src/main/java/org/eisti/game/othello/`
or `src/test/java/org/eisti/game/othello/`, written in full.

| member | source | states |
|---|---|---|
| Othello.GetPawnID | src/main/java/org/eisti/game/othello/Rules.java:112-116 | The White identifier moves with the white pawn and every other identifier with the black pawn; the result is never "no pawn". |
| Othello.RivalOf | src/main/java/org/eisti/game/othello/tasks/LegalMoveRegistration.java:58-61 | The rival of a mover's pawn is a pawn, and differs from the mover's. |
| Othello.IndexRoundTrip | src/main/java/org/eisti/game/othello/Board.java:57-61 | The board's cells are stored row-major (this model's storage choice; the board library keeps its own layout): every cell of the 8x8 grid has an index in 0..63 that maps back to it. |
| Othello.CoordOfRoundTrip | src/main/java/org/eisti/game/othello/Rules.java:129-130 | The board iteration is rendered as a row-major pass over the model's storage (this model's choice): every index 0..63 it visits is a board cell whose index is itself. |
| Othello.CoordinateRoundTrip | src/main/java/org/eisti/game/othello/tasks/LegalMoveRegistration.java:86-89 | Encoding a cursor as `(column + 'A', row + '1')` and decoding it with `Coordinate` gives the cursor back, also one step off the board. |
| Othello.FlipCounts | src/main/java/org/eisti/game/othello/tasks/ReversePawn.java:92-94 | A change that only turns `from` cells into `to` cells adds the number of changed cells to the `to` count, removes it from the `from` count, and keeps every other count. |
| LineTraversor.Step | src/main/java/org/eisti/game/othello/tasks/LineTraversor.java:128-278 | Each direction's cursor update moves by a fixed unit step that is never (0, 0). |
| LineTraversor.StepsDistinct | src/main/java/org/eisti/game/othello/tasks/LineTraversor.java:128-278 | Two different directions move the cursor differently. |
| LineTraversor.AllDirectionsComplete | src/main/java/org/eisti/game/othello/tasks/LineTraversor.java:61-65 | The enum's eight values, in declaration order, include every direction. |
| LineTraversor.AdvanceNext | src/main/java/org/eisti/game/othello/tasks/LineTraversor.java:136-144 | n cursor updates from a cell reach `Advance(d, c, n)`; a step in the opposite direction undoes a step. |
| LineTraversor.RaysMeetAtStart | src/main/java/org/eisti/game/othello/tasks/LineTraversor.java:128-278 | Two rays in different directions from the same start share only the start. |
| LineTraversor.VerifyAlong | src/main/java/org/eisti/game/othello/tasks/LineTraversor.java:128-278 | With no goal, the guard holds for exactly the first `Reach(d, c)` cursors of the walk. |
| LineTraversor.VerifyGoal | src/main/java/org/eisti/game/othello/tasks/LineTraversor.java:128-278 | With a goal k steps along the ray, the guard holds exactly for the cursors strictly before the goal. |
| LineTraversor.VerifyBefore | src/main/java/org/eisti/game/othello/tasks/LineTraversor.java:128-278 | With any goal, the guard holds exactly for the first `GoalSteps(d, s, e)` cursors; for a goal on the ray this is its distance. |
| LineTraversor.WalkOnBoard | src/main/java/org/eisti/game/othello/tasks/LineTraversor.java:128-278 | For a walk from a board cell, or from one step off it, the edge guard allows at most 8 cursors, and the i-th cursor is on the board exactly when i < `Reach(d, c)`. |
| LineTraversor.LineLength | src/main/java/org/eisti/game/othello/tasks/LegalMoveRegistration.java:73-79 | The walk reads exactly `Reach(d, s)` cells. |
| LineTraversor.LineAt | src/main/java/org/eisti/game/othello/tasks/LegalMoveRegistration.java:73-79 | The i-th cell the walk reads is the cell i steps along the ray. |
| LineTraversor.LineSuffix | src/main/java/org/eisti/game/othello/tasks/LegalMoveRegistration.java:73-79 | What a walk reads after i steps is what a walk starting i steps further reads. |
| OthelloBoard.InitialPosition | src/main/java/org/eisti/game/othello/Board.java:66-72 | The initial grid has white at (3,3) and (4,4), black at (3,4) and (4,3), and every other cell empty. |
| OthelloBoard.InitialCounts | src/main/java/org/eisti/game/othello/Board.java:66-72 | The initial grid holds two pawns of each colour and 60 empty cells. |
| OthelloBoard.PlaceOnEmpty | src/main/java/org/eisti/game/othello/Rules.java:85 | Putting a pawn on an empty cell removes one empty cell, adds one pawn of that colour and keeps the rival count. |
| OthelloBoard.Board.constructor | src/main/java/org/eisti/game/othello/Board.java:57-61 | A new board has fresh storage holding the initial grid. |
| OthelloBoard.Board.Clone | src/main/java/org/eisti/game/othello/Rules.java:80 | A clone has fresh storage with the same cells, so later writes leave the original alone. |
| OthelloBoard.Board.InitializeBoard | src/main/java/org/eisti/game/othello/Board.java:67-72 | The four centre cells D4, D5, E4 and E5 get white, black, black and white; nothing else changes. |
| OthelloBoard.Board.SetPawnID | src/main/java/org/eisti/game/othello/tasks/ReversePawn.java:94 | Writing a pawn at (row, column) changes that cell only. |
| OthelloBoard.Board.SetPawnAt | src/main/java/org/eisti/game/othello/Rules.java:85 | Writing a pawn at a coordinate changes that cell only. |
| OthelloBoard.Board.SetPawn | src/main/java/org/eisti/game/othello/Board.java:68-71 | Writing by letter and digit changes the cell at row digit - '1', column letter - 'A' only. |
| LegalMoveTask.ScanLine | src/main/java/org/eisti/game/othello/tasks/LegalMoveRegistration.java:70-102 | A position the scan reports is an empty cell of the line; position 0 only when a rival pawn was already seen. |
| LegalMoveTask.ScanLineFinds | src/main/java/org/eisti/game/othello/tasks/LegalMoveRegistration.java:70-102 | The scan reports position k exactly when cell k is empty, every cell before it is a rival pawn, and a rival pawn was seen (k > 0). |
| LegalMoveTask.RegisteredFinds | src/main/java/org/eisti/game/othello/tasks/LegalMoveRegistration.java:70-102 | A walk returns the placement at c exactly when c is an empty board cell k >= 1 steps along the ray and the k cells before it are rival pawns. |
| LegalMoveTask.RegisteredIsEmptyCell | src/main/java/org/eisti/game/othello/tasks/LegalMoveRegistration.java:82-89 | Every ply a walk returns is a placement on an empty board cell. |
| LegalMoveTask.RegisteredFromOwnPawn | src/main/java/org/eisti/game/othello/tasks/LegalMoveRegistration.java:92-94 | A walk that starts on the mover's own pawn returns nothing. |
| LegalMoveTask.RegisteredFromEmptyCell | src/main/java/org/eisti/game/othello/tasks/LegalMoveRegistration.java:82-91 | A walk that starts on an empty cell returns nothing. |
| LegalMoveTask.RegisteredOffBoard | src/main/java/org/eisti/game/othello/tasks/LegalMoveRegistration.java:73-77 | A walk that starts off the board returns nothing. |
| LegalMoveTask.RegisteredRivalThenEmpty | src/main/java/org/eisti/game/othello/tasks/LegalMoveRegistration.java:82-97 | A rival pawn followed by an empty cell: the walk returns the placement at that empty cell. |
| LegalMoveTask.RegisteredRivalThenOwn | src/main/java/org/eisti/game/othello/tasks/LegalMoveRegistration.java:92-97 | A rival pawn followed by the mover's pawn: the walk returns nothing. |
| LegalMoveTask.ScanStep | src/main/java/org/eisti/game/othello/tasks/LegalMoveRegistration.java:79-98 | One loop iteration: an empty cell ends the walk with the placement there (if a rival pawn was seen) or nothing; an own pawn ends it with nothing; a rival pawn sets the flag and goes on. |
| LegalMoveTask.ScanEnd | src/main/java/org/eisti/game/othello/tasks/LegalMoveRegistration.java:73-101 | When the edge guard fails, the walk returns nothing. |
| LegalMoveTask.FoundMembers | src/main/java/org/eisti/game/othello/Rules.java:142-146 | A ply is in the collected set exactly when some task of the list returns it. |
| LegalMoveTask.FoundPrefix | src/main/java/org/eisti/game/othello/Rules.java:142-146 | Running a longer task list never loses a ply that a prefix of it found. |
| LegalMoveTask.FoundAppend | src/main/java/org/eisti/game/othello/Rules.java:134-146 | Appending walks to a list keeps it runnable and keeps every ply found before. |
| LegalMoveTask.FoundEmptyCells | src/main/java/org/eisti/game/othello/Rules.java:142-146 | Every ply collected is a placement on an empty board cell. |
| LegalMoveTask.LegalMoveRegistration.constructor | src/main/java/org/eisti/game/othello/tasks/LegalMoveRegistration.java:52-62 | The task keeps board, direction and start; its pawn is the player's and its rival pawn is the other one. |
| LegalMoveTask.LegalMoveRegistration.Call | src/main/java/org/eisti/game/othello/tasks/LegalMoveRegistration.java:69-102 | `call` returns exactly what `Registered` specifies for the board, direction and start, so every property of `Registered` above holds of it. |
| LegalMoveTask.Queue | src/main/java/org/eisti/game/othello/Rules.java:134-140 | Queuing appends one runnable task per walk, in order, to the task list. |
| LegalMoveTask.CollectAll | src/main/java/org/eisti/game/othello/Rules.java:142-146 | Running the whole task list adds every ply any task returns, and nothing else, to the set. |
| ReversePawnTask.ReverseLineExtend | src/main/java/org/eisti/game/othello/tasks/ReversePawn.java:75-98 | Reading one more cell: an own pawn turns every rival pawn read before it; any other cell just joins the line. |
| ReversePawnTask.ReverseSpecAt | src/main/java/org/eisti/game/othello/tasks/ReversePawn.java:66-102 | Cell by cell, after `run` a cell holds the mover's pawn exactly when it lies on the ray, held a rival pawn, and the mover's pawn lies farther along the walk; every other cell is unchanged. |
| ReversePawnTask.ReverseOnlyFlips | src/main/java/org/eisti/game/othello/tasks/ReversePawn.java:92-94 | `run` changes only cells on its ray, and only from the rival pawn to the mover's pawn. |
| ReversePawnTask.ReverseCounts | src/main/java/org/eisti/game/othello/tasks/ReversePawn.java:92-94 | `run` moves exactly the changed cells from the rival's count to the mover's count and keeps the number of empty cells. |
| ReversePawnTask.ReverseWithoutOwnPawn | src/main/java/org/eisti/game/othello/tasks/ReversePawn.java:78 | If the mover's pawn is nowhere on the walk, `run` changes nothing. |
| ReversePawnTask.ReverseLineIdempotent | src/main/java/org/eisti/game/othello/tasks/ReversePawn.java:75-98 | Applying the capture rule to an already captured line changes nothing. |
| ReversePawnTask.ReverseIdempotent | src/main/java/org/eisti/game/othello/tasks/ReversePawn.java:66-102 | Running the same capture task twice leaves the board it leaves after once. |
| ReversePawnTask.ReverseFromOwnPawn | src/main/java/org/eisti/game/othello/tasks/ReversePawn.java:78-96 | A walk that starts on the mover's own pawn has an empty reversion loop there, so it captures what a walk from the next cell captures. |
| ReversePawnTask.TurnIfRival | src/main/java/org/eisti/game/othello/tasks/ReversePawn.java:92-94 | One reversion step turns the cell into the mover's pawn if it holds the rival pawn, and changes nothing else. |
| ReversePawnTask.FlipCursor | src/main/java/org/eisti/game/othello/tasks/ReversePawn.java:86-96 | While the goal guard holds, the cursor is a board cell before the goal, and one iteration is one `TurnIfRival` step. |
| ReversePawnTask.FlipStepsOverlay | src/main/java/org/eisti/game/othello/tasks/ReversePawn.java:86-96 | After m reversion steps, the ray's first m cells have their rival pawns turned and every other cell is as before. |
| ReversePawnTask.FlipTowardSteps | src/main/java/org/eisti/game/othello/tasks/ReversePawn.java:86-96 | Running the reversion loop until the goal guard fails leaves the board `FlipToward` describes. |
| ReversePawnTask.FlipDone | src/main/java/org/eisti/game/othello/tasks/ReversePawn.java:88 | When the goal guard fails, the reversion loop has done all its steps. |
| ReversePawnTask.FlipTowardAt | src/main/java/org/eisti/game/othello/tasks/ReversePawn.java:86-96 | Cell by cell, the reversion loop turns exactly the rival pawns on the ray strictly before the target. |
| ReversePawnTask.FlipTowardOverlay | src/main/java/org/eisti/game/othello/tasks/ReversePawn.java:80-96 | Reversing toward the k-th cell of the ray turns the rival pawns among the first k cells. |
| ReversePawnTask.RunCursor | src/main/java/org/eisti/game/othello/tasks/ReversePawn.java:69-98 | While the edge guard holds, the cursor is a board cell k steps along the ray. An own pawn there triggers the reversion loop toward it, and any other cell leaves the board as it is. |
| ReversePawnTask.RunStepsOverlay | src/main/java/org/eisti/game/othello/tasks/ReversePawn.java:69-98 | After k outer iterations, the first k cells of the ray hold the captured line and the rest of the board is unchanged. |
| ReversePawnTask.RunStepsSpec | src/main/java/org/eisti/game/othello/tasks/ReversePawn.java:66-102 | Running the outer loop to the board edge leaves the board `ReverseSpec` describes. |
| ReversePawnTask.RunDone | src/main/java/org/eisti/game/othello/tasks/ReversePawn.java:71 | When the edge guard fails, the outer loop has read the whole ray. |
| ReversePawnTask.CaptureSnoc | src/main/java/org/eisti/game/othello/Rules.java:89-95 | Running one more capture task applies its walk to the board the earlier tasks left. |
| ReversePawnTask.CaptureUntouched | src/main/java/org/eisti/game/othello/Rules.java:89-95 | Capture walks from a cell holding the mover's pawn leave that cell, and every cell off their rays, unchanged. |
| ReversePawnTask.CaptureAt | src/main/java/org/eisti/game/othello/Rules.java:89-95 | For walks in distinct directions from one own pawn, a cell ends as the mover's pawn exactly when one of the walks turns it on the original board; otherwise it is unchanged. The order of the walks does not matter. |
| ReversePawnTask.CaptureAllDirections | src/main/java/org/eisti/game/othello/Rules.java:89-95 | Walks in all eight directions from one own pawn turn a cell exactly when some direction turns it. |
| ReversePawnTask.CaptureCounts | src/main/java/org/eisti/game/othello/Rules.java:89-95 | A sequence of capture walks keeps the number of empty cells and the total number of pawns, and never lowers the mover's count. |
| ReversePawnTask.ReversePawn.constructor | src/main/java/org/eisti/game/othello/tasks/ReversePawn.java:50-61 | The task keeps board, direction and start; its pawn is the player's and its rival pawn is the other one. |
| ReversePawnTask.ReversePawn.Run | src/main/java/org/eisti/game/othello/tasks/ReversePawn.java:66-102 | `run` leaves on the board exactly `ReverseSpec` of the board before it, so every property of `ReverseSpec` above holds of it. |
| ReversePawnTask.ReversePawn.Visit | src/main/java/org/eisti/game/othello/tasks/ReversePawn.java:75-96 | One iteration of the outer loop, at the k-th cursor: the guard held there, so k is below the ray's reach, and reading the cell (and turning toward it if it holds the mover's pawn) takes the board from walk state k to walk state k + 1. |
| ReversePawnTask.ReversePawn.ReverseBefore | src/main/java/org/eisti/game/othello/tasks/ReversePawn.java:86-96 | The reversion loop leaves exactly `FlipToward` of the board before it. |
| Rules.WalksFromCover | src/main/java/org/eisti/game/othello/Rules.java:89-95 | The eight capture walks start at the destination, go in distinct directions and cover all eight. |
| Rules.PlyOutcomeAt | src/main/java/org/eisti/game/othello/Rules.java:80-95 | After a placement, the destination holds the mover's pawn. Another cell holds it exactly when some direction from the destination turns it; every other cell is unchanged. |
| Rules.PlyOutcomeCounts | src/main/java/org/eisti/game/othello/Rules.java:80-95 | A placement on an empty cell removes exactly one empty cell, adds one pawn to the board and raises the mover's count. |
| Rules.DoPly | src/main/java/org/eisti/game/othello/Rules.java:69-103 | A pass returns the same board. A placement on an occupied cell fails with the occupied position. Otherwise `doPly` returns a fresh board holding `PlyOutcome`, and the input board is unchanged. |
| Rules.OwnPawnWalks | src/main/java/org/eisti/game/othello/Rules.java:129-140 | Every walk `legalMoves` queues starts on a cell holding the mover's pawn. |
| Rules.OwnPawnWalksNext | src/main/java/org/eisti/game/othello/Rules.java:129-140 | Passing one more cell queues its eight walks exactly when it holds the mover's pawn. |
| Rules.OwnPawnWalksFindNothing | src/main/java/org/eisti/game/othello/Rules.java:118-156 | None of the walks `legalMoves` queues finds a ply, on any board. |
| Rules.LegalMoves | src/main/java/org/eisti/game/othello/Rules.java:118-156 | `legalMoves` returns the plies its queued walks find, and that set is empty. |
| Rules.PlayerHasRemainingPlies | src/main/java/org/eisti/game/othello/tasks/PlayerHasRemainingPlies.java:44-47 | The check holds exactly when `legalMoves` is non-empty, so it never holds. |
| Referee.Neighbour | src/main/java/org/eisti/game/othello/Referee.java:90-161 | The coordinate built from letter and digit shifted by one is the next cell in that direction. A walk can start there, and one step back returns to the pawn. |
| Referee.NeighbourWalksCover | src/main/java/org/eisti/game/othello/Referee.java:90-161 | The eight walks queued for a pawn include the walk from its neighbour in every direction. |
| Referee.RefereeWalks | src/main/java/org/eisti/game/othello/Referee.java:84-161 | Every walk `getLegalMoves` queues starts one step, in its own direction, from a cell holding the mover's pawn. |
| Referee.RefereeWalksNext | src/main/java/org/eisti/game/othello/Referee.java:84-161 | Passing one more cell queues the walks from its neighbours exactly when it holds the mover's pawn. |
| Referee.RefereeWalksComplete | src/main/java/org/eisti/game/othello/Referee.java:84-161 | For every own pawn, the walk from its neighbour in every direction is queued. |
| Referee.RefereeMoveFrom | src/main/java/org/eisti/game/othello/Referee.java:73-178 | Every ply offered is returned by the walk from the neighbour of some own pawn. |
| Referee.RefereeMoveTo | src/main/java/org/eisti/game/othello/Referee.java:73-178 | Every ply returned by a walk from the neighbour of an own pawn is offered. |
| Referee.RefereeMovesAre | src/main/java/org/eisti/game/othello/Referee.java:73-178 | Both directions together: the offered plies are exactly the plies of those walks. |
| Referee.WalkFromNeighbourFlanks | src/main/java/org/eisti/game/othello/tasks/LegalMoveRegistration.java:70-102 | The walk from the neighbour of an own pawn returns a placement at c exactly when c is an empty board cell at least two steps along the ray and every cell strictly between holds a rival pawn. |
| Referee.RefereeMovesFlank | src/main/java/org/eisti/game/othello/Referee.java:73-178 | Both directions: a placement at c is offered exactly when c is an empty board cell and some own pawn and direction flank an unbroken run of rival pawns ending next to c (the usual Othello legality rule). |
| Referee.RefereeMovesAreEmptyCells | src/main/java/org/eisti/game/othello/Referee.java:73-178 | Every ply offered is a placement on an empty board cell. |
| Referee.NoPawnNoMove | src/main/java/org/eisti/game/othello/Referee.java:84-85 | A player with no pawn on the board is offered no move. |
| Referee.GetLegalMoves | src/main/java/org/eisti/game/othello/Referee.java:73-178 | `getLegalMoves` returns exactly `RefereeMoves` of the board. |
| Referee.Reversed | src/main/java/org/eisti/game/othello/Referee.java:280-282 | Submitting from the last index to the first visits element `|s| - 1 - k` at step k. |
| Referee.CaptureFromNeighbours | src/main/java/org/eisti/game/othello/Referee.java:206-277 | Capture walks started one step from the placed pawn leave the board that walks started on the pawn leave. |
| Referee.RefereeWalksCentred | src/main/java/org/eisti/game/othello/Referee.java:206-285 | Re-centred on the destination, the eight submitted walks go in distinct directions and cover all eight. |
| Referee.RefereeAgreesAt | src/main/java/org/eisti/game/othello/Referee.java:181-293 | Cell by cell, `generateNewContextFrom` and `doPly` leave the same board. |
| Referee.RefereeAgreesWithRules | src/main/java/org/eisti/game/othello/Referee.java:181-293 | `generateNewContextFrom` and `doPly` leave the same board for every placement. |
| Referee.GenerateNewContextFrom | src/main/java/org/eisti/game/othello/Referee.java:181-293 | A placement on an occupied cell fails with the occupied position. Otherwise the result is a fresh board holding `RefereeOutcome`, and the input board is unchanged. |
| Referee.CaptureTasks | src/main/java/org/eisti/game/othello/Referee.java:201-277 | Task i goes in the i-th declared direction from the destination's neighbour, for the mover, on the cloned board. |
| Referee.RunCaptureTask | src/main/java/org/eisti/game/othello/Referee.java:280-285 | Running the task of ordinal i after those of the higher ordinals adds one more capture walk to the board's history. |
| Referee.TurnAtCursor | src/main/java/org/eisti/game/othello/Referee.java:314-322 | One pass of the `reversePawn` loop at the m-th cell of the walk turns that cell if it holds the rival pawn and advances the cursor to cell m + 1. |
| Referee.ReversePawnBetween | src/main/java/org/eisti/game/othello/Referee.java:300-394 | The static `reversePawn` changes nothing when its goal guard fails at the start, wherever the start lies; for a walk on the board it leaves exactly `FlipToward`: every rival pawn from the start up to, and not including, the end position is turned. |
| OthelloContext.FullBoardCounts | src/main/java/org/eisti/game/othello/OthelloContext.java:60-75 | On a board with no empty cell, the black and white counts add up to the number of cells. |
| OthelloContext.FullBoardDraw | src/main/java/org/eisti/game/othello/OthelloContext.java:79-90 | On a full board the counts are equal exactly when each colour holds 32 cells. |
| OthelloContext.GetState | src/main/java/org/eisti/game/othello/OthelloContext.java:57-91 | The state is "not yet finished" exactly when a cell is empty. On a full board, more black pawns means a win if the active player is the Black player and a loss otherwise; the same holds for white; equal counts mean a draw. |
| RefereeScenarios.OpeningWalk | src/test/java/org/eisti/game/othello/RefereeTest.java:80-91 | From any pawn of either colour in the opening position, every walk returns nothing or one of that colour's four opening moves (Black: D3, C4, E6, F5; White: E3, F4, C5, D6). |
| RefereeScenarios.OpeningPawnWalk | src/test/java/org/eisti/game/othello/RefereeTest.java:80-91 | The same, for each of the four opening pawns by name. |
| RefereeScenarios.OpeningMovesWithin | src/test/java/org/eisti/game/othello/RefereeTest.java:87-90 | Every move offered to either colour in the opening position is among that colour's four opening moves. |
| RefereeScenarios.OpeningMoveOffered | src/test/java/org/eisti/game/othello/RefereeTest.java:80-85 | Each of the eight opening moves (four per colour) is offered, found by the walk across the adjacent rival pawn. |
| RefereeScenarios.OpeningMovesOfBlack | src/test/java/org/eisti/game/othello/RefereeTest.java:67-91 | In the opening position Black is offered exactly D3, C4, E6 and F5. |
| RefereeScenarios.OpeningMovesOfWhite | src/main/java/org/eisti/game/othello/Referee.java:73-178 | In the opening position White is offered exactly E3, F4, C5 and D6. |
| RefereeScenarios.BlackD3TurnsD4 | src/main/java/org/eisti/game/othello/Rules.java:80-95 | After Black places on D3 in the opening position, the walk south turns D4. |
| RefereeScenarios.BlackD3TurnsOnlyD4 | src/main/java/org/eisti/game/othello/Rules.java:80-95 | No walk from D3 turns any cell other than D4 and D3 itself. |
| RefereeScenarios.BlackD3At | src/main/java/org/eisti/game/othello/Rules.java:80-95 | Cell by cell, Black's D3 leaves the opening position with D3 and D4 black and everything else as it was. |
| RefereeScenarios.AfterBlackD3Counts | src/main/java/org/eisti/game/othello/Board.java:66-72 | That board holds four black pawns and one white. |
| RefereeScenarios.BlackD3 | src/main/java/org/eisti/game/othello/Referee.java:181-293 | `doPly` and `generateNewContextFrom` both answer Black's D3 with that board: D4 turned, nothing else, four black and one white. |
| RefereeScenarios.RingPosition | src/test/java/org/eisti/game/othello/RefereeTest.java:96-118 | The test position, cell by cell: white at (4,4), black on the rest of rows and columns 3-5, empty elsewhere. |
| RefereeScenarios.RingWalk | src/test/java/org/eisti/game/othello/RefereeTest.java:93-136 | In that position, no walk from the neighbour of a black pawn returns a ply. |
| RefereeScenarios.RingHasNoMove | src/test/java/org/eisti/game/othello/RefereeTest.java:93-136 | In that position Black is offered no move. |
| RefereeScenarios.LegalMovesOnNewBoard | src/test/java/org/eisti/game/othello/RefereeTest.java:67-91 | On a new board, `getLegalMoves` for the Black identifier returns exactly D3, C4, E6 and F5. |
| RefereeScenarios.NoMoveAvailable | src/test/java/org/eisti/game/othello/RefereeTest.java:93-136 | After the nine writes of the test, `getLegalMoves` for the Black identifier returns no move. |

## Left out

- Concurrency. The executor (`LINE_CHECKER`), `submit`, `invokeAll`,
  `awaitTermination` and futures are modelled as running the tasks one after
  the other, in the order they are submitted. Interleavings of the capture
  tasks on the shared board are not modelled.
- `doPly` waits with `awaitTermination(0, …)`, which does not wait for the
  tasks. The model assumes they have finished.
- Interruption and execution errors: the `catch` branches are not modelled.
- Rules.LegalMoves: the Java version swallows an `InterruptedException` and
  keeps the plies collected so far. The model has no interruption.
- The game context. `branchOff`, history, clocks and player timing are left
  out.
  - The result of `doPly` and `generateNewContextFrom` is the new board, not
    a new context.
  - The active player is passed in as an identifier. For `getState` it is an
    identity compared with the players at the Black and White places.
- Rules.DoPly and Referee.GenerateNewContextFrom require an on-board
  destination. The Java code would fail inside the board library on an
  off-board coordinate; that library is not part of this model.
- Referee.GenerateNewContextFrom also requires a placement. The Java code
  reads the destination of a pass without checking, and the `Ply` class is
  not part of this model.
- The `require` helper is modelled as a `Failure(AlreadyOccupied(...))`
  result instead of an exception.
- The board library (`AbstractBoard`, `ICase`, iteration, `toString`) is not
  part of this model. Its iteration order is taken to be row-major. Only
  `legalMoves` and `getLegalMoves` depend on it, through the order of the
  task list, and neither result does.
- `getState`: the order in which the board iterator visits the cells is not
  part of this model. The result does not depend on it.
- `getRulesName`, `getNumberOfPlayers` and `getNumberOfTypedPawns` return
  constants and are not modelled.
- Referee.ReversePawnBetween requires that every cell its loop reads is on
  the board (or that the goal guard fails at once). In the Java code a walk
  that leaves the board makes `getCase` fail inside the board library, and
  that failure is not modelled.
- The player identifier constants are assumed to be BLACK = 0 and
  WHITE = 1; the constants class is not part of this model. Othello.GetPawnID
  depends only on which identifier is WHITE. The two referee scenarios read
  the test's mocked identifier 0 as Black's on that assumption.
- `RulesTest` is not restated: `Rules.LegalMoves` returns the empty set on
  every board, and both of its cases hold for that set.
