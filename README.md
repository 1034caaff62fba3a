# Tetris Glow game engine, modelled in Dafny

This project models the engine of the Tetris Glow falling-block game, which lives in
`src/components/TetrisGame.tsx`. The model covers these parts:

- **Shape table** (`shapes.dfy`, module `Shapes`). It holds the 10 x 20 board size and the
  seven kinds I, O, T, S, Z, J, L. Each kind has its rotation states, in the order the rotate
  command steps through them. Each state is four `[row, col]` offsets from a pivot. Colours are
  opaque tokens, one per kind. On screen, where rows grow downward, each step of T, J and L and
  the first step of S and Z turns the piece counterclockwise, `(dr, dc) -> (-dc, dr)`
  (`Shapes.StatesAreQuarterTurns`), although the comment at src/components/TetrisGame.tsx:217
  says clockwise.
- **Board** (`board.dfy`, module `Board`). A board is a sequence of rows, with row 0 at the
  top; each cell is `Empty` or `Filled(color)`. This module has three parts:
  - `Collides` is the collision test (`checkCollision`). It is a pure function, written as the
    recursive `some` over the offsets.
  - `PlaceTetromino` (`placeTetromino`) is a method. It copies the board and paints the
    piece's in-bounds cells in a loop.
  - `ClearLines` (`clearLines`) is a method. It walks the rows with a counter, puts an empty
    row in front for each full row, and appends every other row.

  Each method is proved against a specification function: `Placed` for placement, and
  `Cleared`, `Kept` and `FullCount` for clearing. The lemmas are about those functions.
- **Piece controller** (`controller.dfy`, module `Controller`). It defines shifted and rotated
  pieces, the spawn piece (row -1, column `10 / 2 = 5`, state 0) and the row-0 piece used for
  the game-over test. It also holds lemmas about collisions on concrete boards.
- **Scoring** (`scoring.dfy`, module `Scoring`). It holds the score table `[0, 100, 300, 500, 800]`
  and the fall-interval rule `max(100, ms - 20 n)`.
- **Game** (`engine.dfy`, class `Engine.Game`). The engine's state is one object. Its fields are
  `board`, `score`, `lines`, `current`, `next`, `gameOver`, `intervalMs` and `playing`.
  - The methods reassign these fields: `Reset`, `Spawn`, the spawn effect `SpawnIfIdle`,
    `MoveLeft`, `MoveRight`, `SoftDrop`, `Rotate`, and the descent `Tick` with its lock branch
    `Lock`.
  - `Valid()` is the invariant every method keeps. The board has full size and no full row,
    the counters are non-negative, and `100 <= intervalMs <= 550`. The active piece has a
    valid rotation index, and a game that is over is not playing.

The random choice of the next kind (`getRandomTetromino`) is a parameter, `draw`, of the
methods that queue a new kind. The constructor takes the first queued kind the same way.

Some behaviour of the code is modelled as written:

- **Score fallback.** The score update `s + [0,100,300,500,800][n] || n * 100` replaces the
  score with `n * 100` when `n > 4`; it does not add to the score. `Scoring.ScoreAfter` models
  it as written, and `FallbackReplacesScore` shows that the score can drop. `Engine.Game.Lock`
  proves that this branch is never reached. The board never holds a full row between steps,
  so a lock completes only rows that the piece reaches, and a piece reaches at most four rows
  (`Board.LockCompletesAtMostFour`).
- **Spawn test.** The game-over test checks the piece at row 0, but the piece appears at
  row -1. For S (and likewise Z), one cell of the spawned piece in row 0 is not a cell of
  the tested piece. So a spawn can succeed onto an occupied cell
  (`Controller.SpawnProbeMissesOverlap`). For the same reason, `Valid()` does not claim that
  the active piece is free of the board.

Three further facts about the code shape the model:

- The spawn column is `Math.floor(10 / 2) = 5` (src/components/TetrisGame.tsx:177); `Controller.SpawnPiece` uses it.
- The lock branch of the descent tick (src/components/TetrisGame.tsx:254-268) never calls `setNext`, so `Engine.Game.Lock` keeps
  `next`. During play only a spawn (src/components/TetrisGame.tsx:187) queues a new kind; a reset (src/components/TetrisGame.tsx:166) also
  draws one.
- The fallback after the score table (src/components/TetrisGame.tsx:264) replaces the score, as described above.

## Model

| member | source | states |
|---|---|---|
| `Shapes.Rotations` | src/components/TetrisGame.tsx:9-71 | every kind has 1 to 4 rotation states and every state has exactly four offsets |
| `Shapes.RotationCounts` | src/components/TetrisGame.tsx:9-71 | I, S, Z have 2 states, O has 1, T, J, L have 4 |
| `Shapes.StatesAreFourDistinctCells` | src/components/TetrisGame.tsx:9-71 | the four offsets of a state are distinct cells within [-1, 2] of the pivot |
| `Shapes.StatesAreQuarterTurns` | src/components/TetrisGame.tsx:24-71 | for T, J and L every state is the previous one turned `(dr, dc) -> (-dc, dr)`, the last wrapping to the first; for S and Z the second state is the first turned |
| `Shapes.ColorOf` | src/components/TetrisGame.tsx:16-69 | each kind has its own colour token (I Sky, O Cream, T Orchid, S Mint, Z Tangerine, J Charcoal, L Lilac), and each token belongs to exactly one kind |
| `Shapes.ColorsDistinct` | src/components/TetrisGame.tsx:16-69 | different kinds carry different colour tokens |
| `Board.AnyBlocked` | src/components/TetrisGame.tsx:95-104 | the `some` over the offsets is true exactly when some offset cell is blocked (past a wall, below the floor, or on an occupied board cell) |
| `Board.Collides` | src/components/TetrisGame.tsx:90-105 | a piece collides exactly when one of the four cells of its current state has `col < 0`, `col >= 10`, `row >= 20`, or `row >= 0` on an occupied cell |
| `Board.PlaceTetromino` | src/components/TetrisGame.tsx:107-123 | the result is a new 20 x 10 board; each in-bounds piece cell holds the given colour, or the kind's colour when none is given; every other cell, including those the piece would cover off the board, keeps its value |
| `Board.EmptyBoard` | src/components/TetrisGame.tsx:158-162 | the fresh board has 20 rows of 10 empty cells and no full row |
| `Board.ClearLines` | src/components/TetrisGame.tsx:125-139 | the count is the number of full rows; the result is that many empty rows followed by the kept rows; it has 20 rows of 10 cells and no full row |
| `Board.KeptRows` | src/components/TetrisGame.tsx:128-137 | kept rows plus cleared rows make up all input rows; no kept row is full; every kept row is an input row |
| `Board.ClearedIsBoard` | src/components/TetrisGame.tsx:125-139 | clearing a full-size board gives a full-size board with no full row |
| `Board.ClearNoFullRow` | src/components/TetrisGame.tsx:128-137 | a board with no full row clears 0 rows and is returned unchanged |
| `Board.ClearTwice` | src/components/TetrisGame.tsx:125-139 | clearing a cleared board removes nothing and changes nothing |
| `Board.KeptIsOrderedSelection` | src/components/TetrisGame.tsx:128-137 | the kept rows are exactly the non-full input rows, each once, in their original relative order |
| `Board.FullCountIsCardinality` | src/components/TetrisGame.tsx:128-131 | the count of cleared rows is the number of distinct full row indices |
| `Board.PieceRowsAtMostFour` | src/components/TetrisGame.tsx:113-115 | a piece reaches at most four distinct rows |
| `Board.LockCompletesAtMostFour` | src/components/TetrisGame.tsx:255-264 | locking a piece into a board with no full row completes at most four rows |
| `Board.SingleLineScenario` | src/components/TetrisGame.tsx:255-257 | a vertical I dropped into the one gap of the bottom row clears exactly that row; one empty row goes on top and every other row moves down by one |
| `Controller.Shifted` | src/components/TetrisGame.tsx:198-215 | a move (left, right or down, and the descent at lines 247-250) keeps the kind and rotation state, and so the four offsets |
| `Controller.ShiftMovesCells` | src/components/TetrisGame.tsx:198-215 | the moved piece covers exactly the original cells moved by the same rows and columns |
| `Controller.ShiftUndone` | src/components/TetrisGame.tsx:199-209 | a move followed by the opposite move gives back the piece, so left undoes right |
| `Controller.SpawnPiece` | src/components/TetrisGame.tsx:175-179 | a new piece is in a valid rotation state; it has pivot row -1, column 5 and state 0 (`SpawnProbeIsOneRowDown`) |
| `Controller.SpawnProbe` | src/components/TetrisGame.tsx:181 | the game-over probe is in a valid rotation state |
| `Controller.SpawnProbeIsOneRowDown` | src/components/TetrisGame.tsx:175-181 | the probe is the spawn piece moved one row down, and the spawn piece sits at row -1, column 5, state 0 |
| `Controller.Rotated` | src/components/TetrisGame.tsx:218-221 | rotation keeps kind and position and keeps the index inside `[0, number of states)` |
| `Controller.RotatedTimesIndex` | src/components/TetrisGame.tsx:220 | rotating m times advances the index by m modulo the number of states |
| `Controller.RotationCycle` | src/components/TetrisGame.tsx:220 | rotating as many times as there are states gives back the original piece |
| `Controller.FreePieceFits` | src/components/TetrisGame.tsx:90-105 | a piece that does not collide lies between the walls, above the floor, and only on empty board cells |
| `Controller.OutOfBoundsCollides` | src/components/TetrisGame.tsx:98-101 | a piece with a cell past a wall or below the floor collides on every board |
| `Controller.AboveBoardIsFree` | src/components/TetrisGame.tsx:102 | cells above row 0 between the walls never collide |
| `Controller.EmptyBoardBlocksOnlyWalls` | src/components/TetrisGame.tsx:98-102 | on the empty board a cell blocks exactly when it is past a side wall or below the floor |
| `Controller.SpawnFitsEmptyBoard` | src/components/TetrisGame.tsx:175-181 | on an empty board every kind fits at its spawn position and at the row-0 game-over test |
| `Controller.SpawnProbeMissesOverlap` | src/components/TetrisGame.tsx:175-186 | with only cell (0, 4) occupied, an S piece passes the row-0 test yet the spawned piece at row -1 collides |
| `Controller.NoWallKick` | src/components/TetrisGame.tsx:216-224 | a T piece against the left wall cannot rotate, although the rotated piece one column right would fit |
| `Controller.ODropsToFloor` | src/components/TetrisGame.tsx:247-253 | on an empty board an O piece from the spawn column moves down freely from row -1 to row 18 and is blocked below row 18, so the descent tick would lock it on rows 18 and 19 |
| `Scoring.NextInterval` | src/components/TetrisGame.tsx:266 | the new interval is `max(100, ms - 20 n)`: at least 100 and at least `ms - 20 n`, and equal to one of the two; so it never exceeds an old interval of 100 or more |
| `Scoring.NextIntervalIsMax` | src/components/TetrisGame.tsx:266 | any value meeting the contract of `NextInterval` is `NextInterval(ms, n)`, the larger of 100 and `ms - 20 n` |
| `Scoring.ScoreAfter` | src/components/TetrisGame.tsx:264 | the score update: for 0 to 4 rows the table value is added, so the score never drops and gains at most 800; past the table the result is `n * 100`, whatever the old score (see `ScoreRewards` and `FallbackReplacesScore`) |
| `Scoring.ScoreRewards` | src/components/TetrisGame.tsx:264 | for 1 to 4 rows the score strictly grows, more rows earn strictly more, and a double earns three times a single |
| `Scoring.FallbackReplacesScore` | src/components/TetrisGame.tsx:264 | past the table the new score replaces the old one: 1000 points and 5 rows give 500 |
| `Scoring.IntervalStaysInRange` | src/components/TetrisGame.tsx:152 | an interval that starts in [100, 550] stays there after any clear |
| `Engine.Game.constructor` | src/components/TetrisGame.tsx:142-153 | the initial state has an empty board, zero score and lines, no piece, the given next kind, interval 550, and is neither playing nor over |
| `Engine.Game.Reset` | src/components/TetrisGame.tsx:157-170 | reset gives an empty board, score 0, lines 0, no piece, a newly drawn next kind, not over, interval 550, playing |
| `Engine.Game.Spawn` | src/components/TetrisGame.tsx:173-188 | if the queued kind collides at row 0 the game is over and stops and no piece is set; otherwise the piece appears at row -1, column 5, state 0 and the drawn kind is queued; board, score, lines and interval stay |
| `Engine.Game.SpawnIfIdle` | src/components/TetrisGame.tsx:277-281 | a running game without a piece spawns one; in every other state nothing changes |
| `Engine.Game.Shift` | src/components/TetrisGame.tsx:196-215 | in a running game with a piece, the shifted piece replaces it exactly when it does not collide; otherwise the piece stays |
| `Engine.Game.MoveLeft` | src/components/TetrisGame.tsx:198-203 | the piece moves one column left exactly when that does not collide; otherwise nothing changes |
| `Engine.Game.MoveRight` | src/components/TetrisGame.tsx:204-209 | the piece moves one column right exactly when that does not collide; otherwise nothing changes |
| `Engine.Game.SoftDrop` | src/components/TetrisGame.tsx:210-215 | the piece moves one row down exactly when that does not collide; a blocked drop changes nothing and does not lock |
| `Engine.Game.Rotate` | src/components/TetrisGame.tsx:216-224 | the piece takes its next rotation state in place exactly when that does not collide; there is no wall kick |
| `Engine.Game.Tick` | src/components/TetrisGame.tsx:242-270 | when idle or over nothing changes; with no piece it spawns; a free piece moves one row down; a blocked piece locks; score and lines never decrease and the interval never grows |
| `Engine.Game.Lock` | src/components/TetrisGame.tsx:254-268 | the board becomes the cleared board with the piece painted in; for n > 0 cleared rows (n <= 4) the score gains the table value for n, the lines grow by n and the interval becomes `max(100, ms - 20 n)`; for n = 0 the counters stay; the piece is gone |
| `Engine.StartGame` | src/components/TetrisGame.tsx:157-188 | a reset followed by the spawn effect gives a running game on an empty board, with the queued kind in play at its spawn position and the next draw queued |

## Left out

- The rendering is not modelled: `renderBoard` (src/components/TetrisGame.tsx:284-301), the next-piece preview, the score panel, the block widget and the page are markup.
- React hooks, `setInterval`/`clearInterval` and the key listener are left out; they schedule the methods above and do no engine logic. The model runs the steps one at a time and does not capture stale closures or timer races.
- The row-clear animation flag `isRowClearing` and its 350 ms timeout (src/components/TetrisGame.tsx:259-260) are display-only.
- `Math.random` in `getRandomTetromino` is not modelled; the drawn kind is the `draw` argument.
- The restart branches of the key handler (src/components/TetrisGame.tsx:225-228) are not modelled. They test `!playing` inside a handler that is installed only while playing, so they never run; restart is `Reset`.
- The `cleared` flag of a board cell is never set by the engine and is not modelled.
- Colours are opaque tokens, not the gradient strings.
