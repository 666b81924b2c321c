# Void Blocks — a verified model of the game core

Void Blocks is a falling-block puzzle game with a "virus" theme. Pieces are the seven tetrominoes. Each placed block has one of five kinds: standard, data fragment, special, virus or power-up. A placed block is sometimes infected, and infected blocks spread to their neighbours every three seconds. Clearing lines scores points, raises the level and speeds up the drop. Every tenth level starts a timed "firewall challenge". A system-corruption meter decays over time.

This project is a Dafny model of that core, in five modules:

| module | file | what it models |
|---|---|---|
| `Tetromino` | `tetromino.dfy` | `src/game/Piece.js`: the shape table, the matrix rotation, the weighted random block type and the `Piece` object |
| `Board` | `board.dfy` | `src/game/Grid.js`: the `Grid` object and its operations (placement check, commit with infection, line clearing, virus spread with its timer, the game-over test), plus `getGhostPosition` |
| `Logic` | `logic.dfy` | `src/game/GameLogic.js`: the `GameLogic` object (score, lines, level, drop timer and delays, firewall, corruption, glitch intensity) |
| `Session` | `session.dfy` | `src/main.js`: the module state (board, current piece, scoring object, game state) and `movePiece`, `rotatePiece`, `placePiece`, `spawnNewPiece`, `handleInput` and `gameUpdate` |
| `StatusPanel` | `statuspanel.dfy` | `src/ui/UI.js`: `formatNumber` and the connection, firewall and integrity readouts |

How the model is built:

- **Objects stay objects.** The source mutates objects in place, so `Grid`, `Piece`, `GameLogic` and the game session are Dafny classes. Their fields are reassigned and their methods carry `modifies` clauses. The board's two 2-D arrays are `seq<seq<int>>` and `seq<seq<bool>>` fields. Every method that loops in the source loops here too, with invariants. The loopers are `canPlacePiece`, `placePiece`, `spreadVirus`, `clearFullLines`, `rotateMatrix`, `getRandomType`, `getGhostPosition` and `clearVirusBlocks`.
- **Methods are proved against specification functions.** For example, `Grid.PlacePiece` ends with `cells == PlaceCells(old(cells), …)`, and `GameLogic.AddScore` ends with `Model() == ScoreAdded(old(Model()), n)`. The lemmas then prove what the game promises about those functions.
- **Randomness is a parameter.** Every `Math.random()` call becomes an injected draw in [0, 1), indexed by the event that consumes it:
  - `infect(py, px)` for shape cell (py, px) of a placed piece;
  - `draw(y, x, d)` for the attempt of infected cell (x, y) in direction d;
  - `shapeDraw` and `typeDraw` for a new piece.
- **Key polling is an explicit value.** `handleInput` takes an `Input(left, right, down, rotate)` value instead of polling keys.
- **Numbers are exact.** JavaScript numbers are modelled as exact rationals (`real`): the drop delay, `dropDelay / 3`, the 0.1 decay and `0.8^(level-1)`. The integer counters are unbounded `int`. `Math.floor(lines / 10)` equals Dafny's `/` because the divisor is positive. The source's `%` operands are never negative: the tests compare a remainder with 0, and the rotation counter `(rotation + 1) % 4` (`src/game/Piece.js:124`, `:131`) is used as a value but starts in 0..3 (`Piece.Valid`). On non-negative operands truncating and Euclidean remainders agree.

Four facts the proofs bring out about the source:

- **The firewall slows the drop.** The firewall only starts on levels 10, 20, …. From level 10 on the base delay is at most 8 ticks, so `max(10, dropDelay / 3)` always *raises* the delay to 10, though the source's comment says "triple speed" (`Logic.FirewallSlowsDrop`, `Logic.BaseDelayTable`).
- **The firewall restarts at once.** After it ends, it starts again on the very next tick for as long as the level stays a multiple of 10 (`Logic.FirewallStarts`).
- **The type fallback is dead code.** The fallback `return 1` of `getRandomType` is never reached, because the weights add up to 100 (`Tetromino.TypeForRollMatchesWeights`).
- **The data fragment's restore breaks the delay floor.** Under the firewall it restores a third of the base delay, 8/3 at level 10, below the firewall's 10 ticks. The model uses the throttled value instead; see "## Findings" (`Logic.RestoreAsWrittenBreaksFloor`).

## Model

| member | source | states |
|---|---|---|
| Tetromino.ShapesWellFormed | src/game/Piece.js:1-36 | there are seven shapes; each is a non-empty rectangular 0/1 matrix with exactly four occupied cells |
| Tetromino.Rotated | src/game/Piece.js:135-140 | a quarter turn maps an R x C matrix to a rectangular C x R matrix |
| Tetromino.RotatedAt | src/game/Piece.js:141-145 | entry (i, j) of the input lands at (j, R-1-i) of the rotated matrix |
| Tetromino.RotateMatrix | src/game/Piece.js:135-147 | the nested loops that fill a fresh C x R matrix compute exactly the quarter turn |
| Tetromino.RotatedCount | src/game/Piece.js:135-147 | a quarter turn keeps the number of occupied cells |
| Tetromino.FourTurnsIdentity | src/game/Piece.js:135-147 | four quarter turns give back the original matrix |
| Tetromino.RotateTimes | src/game/Piece.js:122-125 | n quarter turns of a rectangular matrix are rectangular; they keep the dimensions for even n and swap them for odd n |
| Tetromino.NextRotation | src/game/Piece.js:122-125 | turning the shape of rotation n gives the shape of rotation (n+1) mod 4, so the rotation counter modulo 4 always names the shape |
| Tetromino.RotatedShapeCount | src/game/Piece.js:1-36 | every piece shape holds exactly four occupied cells in every rotation |
| Tetromino.ShapeIndexFor | src/game/Piece.js:42 | floor(draw * 7) for a draw in [0, 1) is a shape index in 0..6 |
| Tetromino.TypeForRoll | src/game/Piece.js:58-70 | the type is always in 1..5; for a roll in [0, 100] it is 1 exactly when the roll is at most 60, and 5 exactly when the roll is above 95 |
| Tetromino.TypeForRollMatchesWeights | src/game/Piece.js:58-70 | the weights 60, 20, 10, 5, 5 add up to 100; the type is the first one whose cumulative weight reaches the roll, so the fallback `return 1` is unreachable for rolls in [0, 100] |
| Tetromino.RandomType | src/game/Piece.js:58-70 | the accumulator loop returns exactly the cumulative-threshold type of draw * 100 |
| Tetromino.Piece.constructor | src/game/Piece.js:39-45 | the piece is at (x, y) with rotation 0; its shape index is the given one or floor(draw * 7) in 0..6; it holds its own copy of that shape and the type of its type draw |
| Tetromino.Piece.Rotate | src/game/Piece.js:122-125 | the shape becomes its quarter turn and the rotation goes to (rotation+1) mod 4, staying in 0..3; the position, shape index and type are kept |
| Tetromino.Piece.GetRotated | src/game/Piece.js:127-133 | a new piece with the same x, y, shape index and type, the turned shape and the next rotation; the original is not modified |
| Board.Grid.constructor | src/game/Grid.js:2-9 | a height x width board of empty, uninfected cells with the spread timer at 0 |
| Board.Grid.CanPlacePiece | src/game/Grid.js:110-127 | true exactly when every occupied shape cell (x+px, y+py) is on the board and empty; nothing is modified |
| Board.Grid.PlacePiece | src/game/Grid.js:129-150 | the cells and flags become the committed board of `PlaceCells`/`PlaceFlags` |
| Board.PlaceEffect | src/game/Grid.js:129-150 | every in-bounds occupied shape cell receives a non-empty value and is infected exactly when it was or its draw is below 0.1; out-of-bounds cells are skipped; every other cell and flag is unchanged |
| Board.PlacedPieceBlocksItself | src/game/Grid.js:119-120 | after committing, the same piece at the same origin no longer fits when at least one of its cells is on the board |
| Board.PlaceKeepsVirusOnBlocks | src/game/Grid.js:140-144 | committing a non-empty type keeps "infected implies non-empty" |
| Board.Grid.IsLineFull | src/game/Grid.js:166-168 | true exactly when every cell of the row is non-empty |
| Board.Grid.ClearLine | src/game/Grid.js:170-178 | row y is removed from both matrices and an empty, uninfected row is put on top |
| Board.Grid.ClearFullLines | src/game/Grid.js:152-164 | returns the number of full rows; the cells become that many empty rows on top of the non-full rows in their original order, and each flag row moves with its cell row |
| Board.KeptRowsShape | src/game/Grid.js:152-178 | the cleared and kept rows together give the original height; kept rows keep the width and are not full |
| Board.ClearLeavesNoFullRow | src/game/Grid.js:155-161 | with a positive width, no row of the board is full after clearing |
| Board.ClearKeepsVirusOnBlocks | src/game/Grid.js:170-178 | line clearing keeps "infected implies non-empty" |
| Board.Grid.SpreadVirus | src/game/Grid.js:35-59 | cells and flags become `SpreadCells`/`SpreadFlags` of the snapshot: an attempt counts when its source was infected in the snapshot |
| Board.SpreadEffect | src/game/Grid.js:35-59 | infected cells stay infected and unchanged; each newly infected cell was non-empty, uninfected and 4-adjacent to an infected cell, and becomes 4; every other cell is unchanged |
| Board.SpreadKeepsVirusOnBlocks | src/game/Grid.js:50-51 | spreading keeps "infected implies non-empty" |
| Board.Grid.UpdateVirusSpread | src/game/Grid.js:27-33 | the timer advances modulo 180 and stays in [0, 180); the board spreads exactly on the call that reaches 180 and is unchanged otherwise; infected cells stay non-empty |
| Board.Grid.Update | src/game/Grid.js:23-25 | the per-tick update is the spread timer step; infected cells stay non-empty |
| Board.SpreadTimerCycle | src/game/Grid.js:27-33 | after n calls from 0 the timer is n mod 180, and call n spreads exactly when n is a multiple of 180 |
| Board.Grid.IsGameOver | src/game/Grid.js:184-187 | true exactly when some cell of row 0 is non-empty |
| Board.AllOccupied | src/game/Grid.js:166-168 | the element-wise scan of `every` is true exactly when the row is full |
| Board.AnyOccupied | src/game/Grid.js:184-187 | the element-wise scan of `some` is true exactly when some entry is non-empty |
| Board.GhostPosition | src/game/Piece.js:149-155 | returns g >= y such that the piece fits at every row y+1..g and not at row g+1 |
| Logic.GameLogic.constructor | src/game/GameLogic.js:2-23 | score 0, lines 0, level 1, delay 60, no firewall and no corruption; the state is consistent |
| Logic.InitialConsistent | src/game/GameLogic.js:2-23 | the initial state satisfies the invariant and has corruption in range |
| Logic.GameLogic.Update | src/game/GameLogic.js:25-30 | one tick is the drop step, then the firewall step, then the decay, then the level step, and keeps the invariant; corruption and glitch intensity stay in range when they were before |
| Logic.GameLogic.UpdateDrop | src/game/GameLogic.js:32-34 | only the drop timer changes, by one |
| Logic.GameLogic.ShouldDropPiece | src/game/GameLogic.js:36-42 | returns whether the timer has reached the delay; the timer restarts only in that case; the logic invariant and the corruption range are kept |
| Logic.DropCheckedEffect | src/game/GameLogic.js:36-42 | the drop check resets the timer to 0 exactly when it had reached the delay and changes nothing else |
| Logic.GameLogic.UpdateFirewall | src/game/GameLogic.js:44-56 | new state is the firewall step of the old |
| Logic.GameLogic.ActivateFirewall | src/game/GameLogic.js:58-63 | firewall on, timer 0, delay max(10, delay/3) |
| Logic.GameLogic.DeactivateFirewall | src/game/GameLogic.js:65-70 | firewall off, timer 0, delay back to the base delay |
| Logic.FirewallStarts | src/game/GameLogic.js:44-61 | on a positive multiple of 10 with the firewall off, the next tick turns it on, counts its first tick and sets the delay to max(10, delay/3) |
| Logic.FirewallStartsOnlyThere | src/game/GameLogic.js:44-48 | with the firewall off, a tick switches it on if and only if the level is a positive multiple of 10 |
| Logic.FirewallRuns | src/game/GameLogic.js:50-52 | while the timer is below 600, the firewall stays on and the timer counts one per tick |
| Logic.FirewallEnds | src/game/GameLogic.js:44-70 | an active firewall ends on the tick its timer reaches 600; the timer resets and the delay is the base delay |
| Logic.FirewallSlowsDrop | src/game/GameLogic.js:44-63 | at every firewall level, activating from the base delay sets the delay to 10, which is above the base delay |
| Logic.GameLogic.UpdateSystemCorruption | src/game/GameLogic.js:72-80 | new state is the decay step of the old; corruption and glitch intensity stay in range when they were before |
| Logic.CorruptionDecayedEffect | src/game/GameLogic.js:72-80 | positive corruption falls by 0.1 and stops at 0; the glitch intensity is corruption / 100 |
| Logic.GameLogic.UpdateLevel | src/game/GameLogic.js:82-88 | new state is the level step of the old |
| Logic.GameLogic.UpdateDropSpeed | src/game/GameLogic.js:90-96 | the base delay is recomputed for the level; the delay takes it only when the firewall is off |
| Logic.LevelUpdatedEffect | src/game/GameLogic.js:82-96 | afterwards the level is floor(lines/10)+1 >= 1 and the base delay matches it; on a level change with the firewall off the delay is the base delay; with the firewall on the delay is kept |
| Logic.MinDelayFloor | src/game/GameLogic.js:92 | the base delay is at least 3 at every level |
| Logic.BaseDelayNonIncreasing | src/game/GameLogic.js:92 | the base delay never grows with the level |
| Logic.BaseDelayTable | src/game/GameLogic.js:92 | the base delay is 60 at level 1, 48 at 2, 24 at 5, 10 at 9, 8 at 10, 4 at 13 and 3 from level 14 on; it is at most 8 from level 10 on |
| Logic.GameLogic.AddScore | src/game/GameLogic.js:98-113 | new state is the score step of the old; corruption and glitch intensity stay in range when they were before |
| Logic.ScoreAddedEffect | src/game/GameLogic.js:98-113 | a no-op unless 1 <= n <= 4; otherwise the score grows by a positive multiplier[n] * level (doubled under the firewall), the lines by n, and corruption becomes max(0, c - 5n); nothing else changes |
| Logic.ScoreExample | src/game/GameLogic.js:98-113 | four lines at level 3 score 3600, or 7200 under the firewall |
| Logic.GameLogic.AddVirusCorruption | src/game/GameLogic.js:115-121 | corruption becomes min(100, c + amount); the result reports reaching the maximum; a non-negative amount keeps corruption in range |
| Logic.VirusCorruptionAddedEffect | src/game/GameLogic.js:115-121 | for a non-negative amount, corruption does not fall, stays at most 100, and reaches 100 exactly when c + amount does |
| Logic.GameLogic.ActivateDataFragment | src/game/GameLogic.js:128-130 | the delay doubles; the invariant, including the delay floor, and the corruption range are kept |
| Logic.GameLogic.RestoreDropDelay | src/game/GameLogic.js:131-133 | the delay becomes the base delay if the firewall is off when the restore runs, and the throttled max(10, base/3) if it is on (the corrected restore, see Findings); the invariant and the corruption range are kept |
| Logic.DataFragmentRoundTrip | src/game/GameLogic.js:128-133 | with the firewall off and the delay at the base delay, activation doubles it and restoration gives back the state before |
| Logic.DataFragmentRestoredFirewall | src/game/GameLogic.js:132 | under the firewall the corrected restore gives at least 10 and at least a third of the base delay: exactly 10 for a base delay up to 30, and a third of it above |
| Logic.RestoreAsWrittenBreaksFloor | src/game/GameLogic.js:132 | the restore as written, from a consistent state at level 10 under the firewall, sets the delay to 8/3, below the floor of 10 (and of 3) |
| Logic.RestoreAgreesOffFirewall | src/game/GameLogic.js:132 | with the firewall off the corrected restore and the restore as written give the same state |
| Logic.GameLogic.ClearVirusBlocks | src/game/GameLogic.js:138-151 | every infected cell is emptied and every flag cleared; other cells are unchanged; corruption falls by 20 down to 0 |
| Logic.StepConsistent | src/game/GameLogic.js:25-136 | every operation keeps the invariant: level >= 1, base delay matching the level, a drop delay of at least 3 ticks and at least 10 under the firewall, firewall timer in [0, 600) and 0 when off |
| Logic.StepScoreMonotone | src/game/GameLogic.js:107-108 | no operation lowers the score or the lines, and only adding a score changes them |
| Logic.StepCorruptionInRange | src/game/GameLogic.js:72-151 | corruption stays in [0, 100] and the glitch intensity in [0, 1] under every operation except adding a negative amount |
| Logic.Run | src/game/GameLogic.js:25-136 | any sequence of operations from a consistent state ends in a consistent state |
| Logic.RunInvariants | src/game/GameLogic.js:72-121 | over any sequence of operations, the score and lines never decrease, and corruption stays in range when no negative amount is added |
| Logic.GameLogic.GetScore | src/game/GameLogic.js:167-169 | the score is non-negative |
| Logic.GameLogic.GetLevel | src/game/GameLogic.js:171-173 | the level is at least 1 |
| Logic.GameLogic.GetLines | src/game/GameLogic.js:175-177 | the line count is non-negative |
| Logic.GameLogic.GetSystemCorruption | src/game/GameLogic.js:179-181 | the corruption lies in [0, 100]; the range holds in every state of the session, since every GameLogic method keeps it and the session invariant carries it |
| Logic.GameLogic.IsFirewallActive | src/game/GameLogic.js:183-185 | when the firewall is off its timer is 0 |
| Logic.GameLogic.GetGlitchIntensity | src/game/GameLogic.js:187-189 | the glitch intensity lies in [0, 1], in every state of the session as for the corruption |
| Session.SpawnFitsEmptyBoard | src/main.js:134-141 | every shape fits at (5, 0) of an empty 10 x 20 board |
| Session.Game.constructor | src/main.js:34-44 | an empty 10 x 20 board with clean virus flags and the spread timer at 0, a fresh scoring object, and a first piece at (5, 0) with rotation 0 and the drawn shape and type; the game is playing |
| Session.Game.MovePiece | src/main.js:95-107 | with no piece, returns false; otherwise it moves and returns true exactly when the piece fits at (x+dx, y+dy), else nothing changes; a piece that fits still fits afterwards |
| Session.Game.RotatePiece | src/main.js:109-116 | the shape and rotation advance exactly when the turned shape fits at the current origin; a piece that fits still fits afterwards |
| Session.Game.PlacePiece | src/main.js:118-132 | the board becomes the committed and cleared board; the score step is applied with the number of cleared lines (a no-op for 0); the game ends exactly when row 0 is occupied afterwards; the spread timer is untouched |
| Session.Game.SpawnNewPiece | src/main.js:134-141 | a fresh piece at (floor(10/2), 0) = (5, 0) with the drawn shape and type; the game ends exactly when it does not fit there |
| Session.Game.DropOrLock | src/main.js:52-57 | the piece moves down one row if it can, and nothing else changes; otherwise it is committed (cells and flags as in PlacePiece), the score step is applied for the cleared rows, a fresh piece with the drawn shape and type appears at (5, 0) with rotation 0, and the game ends exactly when row 0 is occupied after clearing or the new piece does not fit; with no piece, only the spawn happens; the spread timer is untouched |
| Session.Game.HandleInput | src/main.js:77-93 | with no request nothing changes; otherwise the invariant is kept and the current piece is the same object or a fresh one |
| Session.Game.GameUpdate | src/main.js:46-60 | nothing changes unless the game is playing; the invariant is kept |
| StatusPanel.DecimalString | src/ui/UI.js:160 | `num.toString()` for a non-negative integer is a non-empty digit string without a leading zero |
| StatusPanel.DecimalStringValue | src/ui/UI.js:160 | reading the digits back gives the number |
| StatusPanel.FormatNumberStrips | src/ui/UI.js:159-161 | removing the commas from formatNumber(n) gives n's decimal string |
| StatusPanel.FormatNumber | src/ui/UI.js:159-161 | the output is 1-3 digits followed by groups of exactly 3 digits, each after a comma |
| StatusPanel.FormatNumberShort | src/ui/UI.js:160 | numbers below 1000 are printed unchanged, and from 1000 on the output holds a comma |
| StatusPanel.ConnectionStatus | src/ui/UI.js:77 | the label is UNSTABLE or STABLE |
| StatusPanel.FirewallStatus | src/ui/UI.js:84 | the label is CHALLENGE or ACTIVE |
| StatusPanel.StatusLabels | src/ui/UI.js:77-84 | CHALLENGE exactly on the levels where the firewall starts (the test of GameLogic.js line 46); UNSTABLE exactly above level 5 |
| StatusPanel.Integrity | src/ui/UI.js:89 | max(50, 100 - 2 * level) lies in [50, 100] for level >= 0 and is 50 exactly from level 25 on |

## Left out

- Rendering is not modelled: `Grid.render`, `Piece.render`, `renderGhost`, all UI drawing, glow and glitch effects, colours, `vec2` and `Color`. It is drawing calls and floating-point trigonometry with no game state.
- High-score persistence (`GameLogic.gameOver`, `getHighScore`, the status panel's high-score read) is not modelled. It is localStorage I/O with string/number coercion.
- `console.log` and `triggerSystemFailure` are not modelled, because they only log. `AddVirusCorruption` returns the reached-maximum test instead of logging.
- The `setTimeout` of `activateDataFragment` is not modelled as a timer. The restore it schedules is the method `RestoreDropDelay`, which the caller invokes when the timer would fire.
- Engine plumbing in `src/main.js` is not modelled: `waitForLittleJS`, `engineInit`, canvas and camera setup, and the key polling of `handleInput` (replaced by an `Input` value).
- `Math.random` is not modelled. Each draw is a parameter, indexed by the event that uses it. The source draws lazily, only for attempts that pass the cheaper tests. The model's draw functions simply ignore the draws that are never consumed.
- IEEE-754 rounding is not modelled. The 0.1 decay, `/ 3`, `* 2` and `Math.pow(0.8, …)` are exact rationals, so a corruption of, say, 0.30000000000000004 is 0.3 here.
- `Board.Grid.constructor` takes natural-number dimensions. The source's caller always passes 10 and 20.
- `Board.GhostPosition` is a module-level method taking the piece and the board. The source has it as a method of `Piece`; moving it keeps the `Tetromino` module independent of `Board`.
- `Tetromino.Piece.GetRotated` does not model the type draw of the temporary piece it constructs. The source draws a type and then overwrites it, so that draw has no effect.
- `Session.Game.GameUpdate` states only that nothing happens outside the playing state, plus the invariant. The effect of its steps is stated by `HandleInput`, `Logic.GameLogic.Update`, `ShouldDropPiece`, `DropOrLock` and `Board.Grid.Update`.
- `Session.Game.HandleInput` states only the no-request case and the invariant. Each request's effect is the contract of `MovePiece`, `DropOrLock` or `RotatePiece`; the order of the requests (left, right, down, rotate) is in the body but not in the contract.
- `StatusPanel.FormatNumber` is modelled only for non-negative integers, which is what the panel passes. Negative numbers and fractions would go through `toString` differently.
- `StatusPanel.FormatNumber` prints every natural number in full decimal. JavaScript's `toString` switches to exponent form from 1e21, which the model does not reproduce.
- `Logic.GameLogic.AddScore` keeps the score and the line count as unbounded integers. JavaScript numbers lose integer precision above 2^53; the model does not round there.
- `Logic.GameLogic.RestoreDropDelay` models the corrected restore, max(10, base/3) under the firewall, not the source's base/3 (see Findings). The restore as written is kept as `Logic.DataFragmentRestoredAsWritten`.
- `Board.Grid.ClearFullLines` requires a positive width. At width 0 every row counts as full (`every` over an empty row is true), and the source's loop never ends, because the `y++` after each clear cancels the loop's `y--`. The game always uses width 10.
- `Board.Grid.IsGameOver` requires a positive height. At height 0 the source's `this.cells[0].some(...)` reads a missing row and throws a TypeError; the model does not reproduce the exception. The game always uses height 20.
- `Board.GhostPosition` requires the shape to have an occupied cell. For a shape with no occupied cell every row fits, and the source's `while` loop never ends. All seven shapes have four occupied cells (`Tetromino.ShapesWellFormed`).
- `Board.Grid.IsValidPosition` is a predicate whose body is its definition, so it has no separate contract.

## Findings

| source | as written | input that shows it | evidently intended | confidence | as-written member | corrected member |
|---|---|---|---|---|---|---|
| src/game/GameLogic.js:132 | under the firewall the data fragment's restore sets the delay to baseDropDelay / 3 | level 10, 100 lines, firewall on with timer 5, delay 10, base delay 8: the restore gives 8/3, below the firewall's floor of 10 and the general floor of 3 | restore the firewall-throttled delay max(10, base / 3), the value `activateFirewall` sets at line 61, so the delay stays at least 3 ticks and at least 10 under the firewall | medium; not executed | Logic.RestoreAsWrittenBreaksFloor | Logic.DataFragmentRestoredFirewall |
