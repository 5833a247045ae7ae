# 2048 rules engine, modelled in Dafny

This project models the rules engine of a Python/pygame 2048 game (`main.py`). It covers:

- the four moves `move_up`, `move_down`, `move_left` and `move_right`. Each one works on a 4×4 board one line at a time. It compacts the line, merges it in a single left-to-right scan with a `skip` flag, pads it with zeros and writes it back. Each created tile is added to the score.
- `spawn_piece`, which puts a 2 or a 4 into an empty cell and reports game over.
- `can_move_check`, the adjacent-equal-pair scan.
- the session state that `move_board`, `return_one_move`, `reset_game_data` and `reset_timed_game_data` change: the board, the classic and timed scores, the undo cooldown and the history of earlier boards.

Files, one module each:

- `lines.dfy` (`Lines`): the rules for one line as pure functions (`Compact`, `Merged`, `MergeScore`, `Pad`, `Slide`) and their lemmas.
- `grids.dfy` (`Grids`): the board as a value (`Grid = seq<seq<int>>`). It defines what each direction does (`MoveGrid`, `MoveGain`) and holds the board-level lemmas.
- `engine.dfy` (`Engine`): the imperative code on the board array. This is the merge loop `MergeLine`, the four in-place moves, `CanMoveCheck` and `SpawnPiece`. `MergeLine` is proved against `Lines.Merged` and `Lines.MergeScore`; the moves, `CanMoveCheck` and `SpawnPiece` are proved against the functions of `Grids`.
- `session.dfy` (`Session`): the class `Game`, which holds the state the source keeps in globals, and two client methods that exercise the undo gate: `MoveThenUndo` (one move and its undo) and `UndoAfterCooldown` (the first eleven moves of a session, with the board after a list of moves given by the function `Played`).

The board is an `array<seq<int>>` of four rows; each row is a value. In the source, every row list belongs to exactly one board. `move_left` and `move_right` replace whole rows, `move_up` and `move_down` rewrite one cell of each row, and history snapshots are deep copies. So no row is ever shared, and modelling rows as values loses nothing.

Three behaviours of the code that are easy to misread; the model follows the code:

- The cooldown starts at 10, both at program start and after a reset (main.py:124, main.py:338). So on a fresh session the first undo is possible only after the eleventh move (`Session.UndoAfterCooldown`).
- While the cooldown is 0, every move pushes another snapshot (main.py:367-368). History is not limited to one entry per cooldown cycle.
- `spawn_piece` reports game over only when it found no empty cell (`count == 0`, main.py:288). Filling the last empty cell never reports game over.

## Model

| member | source | states |
|---|---|---|
| `Lines.Compact` | main.py:478 | the compacted line is no longer than the input and holds exactly the input's non-zero values |
| `Lines.CompactMultiset` | main.py:478 | compacting keeps every non-zero value exactly as often as it occurs and drops every zero |
| `Lines.Merged` | main.py:411-422 | the merged line is never longer than its input |
| `Lines.MergeScore` | main.py:419 | a merge scan over non-negative tiles never earns negative points |
| `Lines.CompactSum` | main.py:409 | dropping the empty cells keeps the sum of the line |
| `Lines.CompactReverse` | main.py:511 | compacting then reversing (move_right) gives the same line as reversing then compacting (move_down's bottom-up read) |
| `Lines.MergedSum` | main.py:416-422 | the merge scan keeps the sum of the line (v, v becomes 2v) |
| `Lines.MergedAtLeastHalf` | main.py:413-420 | no rescan: each merged tile consumes at most two input tiles, so the merged line is at least half as long as its input |
| `Lines.MergeRun` | main.py:411-422 | no rescan: a run of n equal tiles v becomes n/2 tiles 2v, plus one v when n is odd; the score is the sum of exactly those new tiles |
| `Lines.NoRescanExamples` | main.py:411-424 | [2,2,2,2] slides to [4,4,0,0] and scores 8; [2,2,4] slides to [4,4,0,0] and scores 4 |
| `Lines.MergeOccursIff` | main.py:418-422 | the scan shortens the line iff two neighbours are equal; on positive tiles it scores iff two neighbours are equal |
| `Lines.MergedIdentity` | main.py:421-422 | a line without equal neighbours passes the scan unchanged and scores 0 |
| `Lines.MergedNonZero` | main.py:418-422 | merging a line of non-zero tiles yields only non-zero tiles |
| `Lines.MergedKeepsTiles` | main.py:418 | doubling keeps every value 0 or a power of two |
| `Lines.Pad` | main.py:424 | a padded line always has the board's length, 4 (the same padding is at lines 459, 493 and 525) |
| `Lines.PadShape` | main.py:424 | padding a zero-free line puts all tiles first and only zeros after them, and keeps tiles and sum |
| `Lines.SlideProperties` | main.py:476-494 | a slid line has length 4, has its tiles packed at the start, keeps the sum, holds no more tiles than before and keeps tile values valid |
| `Lines.SlideFixed` | main.py:476-494 | a full line with no equal neighbours slides to itself |
| `Lines.SlideFreesLastCell` | main.py:476-494 | a full line with equal neighbours ends with an empty cell after the slide |
| `Grids.MoveGrid` | main.py:396-527 | every move yields a 4×4 board |
| `Grids.MoveIsUniform` | main.py:396-527 | for every direction, each line read in the direction of travel becomes compact-merge-pad of the old line, and scores the merge of that compacted line |
| `Grids.MirrorRight` | main.py:511-526 | move_right equals move_left on the mirrored board, mirrored back, with the same score |
| `Grids.MirrorDown` | main.py:444-461 | move_down equals move_up on the board turned upside down, turned back, with the same score |
| `Grids.UpIsTransposedLeft` | main.py:406-427 | move_up equals move_left on the transposed board, transposed back, with the same score |
| `Grids.MoveShape` | main.py:424-427 | after a move, every line read in the direction of travel has its tiles first and only zeros after them (LEFT/UP toward the start, RIGHT/DOWN toward the end) |
| `Grids.MoveConservesSum` | main.py:409-427 | a move keeps the sum of all tile values on the board |
| `Grids.MoveNeverAddsTiles` | main.py:478-494 | a move never increases the number of non-empty cells |
| `Grids.MoveKeepsTiles` | main.py:416-422 | a move turns a board of 0s and powers of two into another such board |
| `Grids.MoveGainNonNegative` | main.py:419 | on a board of tiles, the score delta of any move is at least 0 |
| `Grids.FullBlockedIsStuck` | main.py:303-310 | a full board with no equal adjacent pair is left unchanged by every move |
| `Grids.FullMergeableMoves` | main.py:303-310 | a full board with an equal adjacent pair is changed by LEFT or by UP |
| `Grids.PlaceAddsTile` | main.py:280-286 | writing 2 or 4 into an empty cell adds that value to the sum and one tile, and keeps tile values valid |
| `Grids.MoveThenSpawnSum` | main.py:277-286 | a move followed by a spawn into an empty cell raises the tile sum by exactly the spawned value |
| `Engine.MergeLine` | main.py:411-422 | the skip-flag loop builds exactly `Merged` of its line and adds exactly `MergeScore` |
| `Engine.MoveLeft` | main.py:465-495 | move_left leaves the board equal to `MoveGrid(old, Left)` and returns the old score plus `MoveGain(old, Left)` |
| `Engine.MoveRight` | main.py:498-527 | move_right leaves the board equal to `MoveGrid(old, Right)` and returns the old score plus `MoveGain(old, Right)` |
| `Engine.MoveUp` | main.py:396-428 | move_up leaves the board equal to `MoveGrid(old, Up)` and returns the old score plus `MoveGain(old, Up)` |
| `Engine.MoveDown` | main.py:431-462 | move_down leaves the board equal to `MoveGrid(old, Down)` and returns the old score plus `MoveGain(old, Down)` |
| `Engine.SlideRowRight` | main.py:510-526 | one pass of move_right's row loop: the row becomes the reverse of the padded merge of its reversed compaction, no other row changes, and the points are that merge's score |
| `Engine.StoreColumnTopDown` | main.py:426-427 | the write-back loop puts line[r] into row r of the column and changes nothing else |
| `Engine.StoreColumnBottomUp` | main.py:460-461 | the write-back loop puts line[r] into row 3-r of the column and changes nothing else |
| `Engine.CanMoveCheck` | main.py:294-310 | the scan returns true iff some horizontally or vertically adjacent pair is equal |
| `Engine.SpawnPiece` | main.py:268-291 | with an empty cell: exactly one previously empty cell becomes 2 or 4, every other cell is unchanged, and the result is not game over; with no empty cell: the board is unchanged and game over holds iff no adjacent pair is equal |
| `Session.Game.constructor` | main.py:105-128 | the starting state: empty board, scores 0, cooldown 10, empty history |
| `Session.Game.MoveBoard` | main.py:356-393 | cooldown 0: pushes a copy of the pre-move board and keeps the cooldown at 0; otherwise decrements the cooldown and pushes nothing; the board becomes the move's result; the gain goes to `score` (classic) or `timedScore` (timed), the other score is unchanged, neither decreases; cooldown stays in [0,10] |
| `Session.Game.ReturnOneMove` | main.py:313-324 | succeeds iff the history is non-empty and the cooldown is 0; on success the board becomes the last snapshot, the history loses it and the cooldown is 10; otherwise nothing changes; in both cases both scores are unchanged, so an undo keeps the points of the undone move |
| `Session.Game.ResetGameData` | main.py:327-339 | empty board, score 0, cooldown 10, empty history; timed score untouched |
| `Session.Game.ResetTimedGameData` | main.py:342-350 | as reset_game_data, and the timed score is 0 too |
| `Session.MoveThenUndo` | main.py:319-324 | a move in any direction and either mode, made at cooldown 0 and then undone: the undo succeeds, the board is the one the move started from, the history is as before the move and the cooldown is 10 |
| `Session.UndoAfterCooldown` | main.py:366-370 | from a fresh session and for any eleven directions, in either mode: undo fails after each of the first ten moves; after the eleventh move undo succeeds and the board is again `Played` of the start board and the first ten directions, with the cooldown at 10 and the history empty |

`Grids.MoveGain` is the score delta of one move: the sum of the points that main.py:419, main.py:454, main.py:488 and main.py:521 add. It is a helper of the `Engine.Move*`, `Grids.MoveIsUniform`, `Grids.Mirror*` and `Grids.MoveGainNonNegative` rows, which state what it is.

## Left out

- Rendering, the colour table, menus and the tutorial screen are presentation only.
- Sound playback is a call into pygame's mixer.
- Reading and writing the high-score files is file I/O. Raising the classic best score to the current score (main.py:749-750) is frame-loop bookkeeping.
- Event handling and the frame loops (`handle_*`, `classic_game_loop`, `timed_game_loop`, `main`) are pygame input plumbing. A move sets `spawn_new`, and the next frame spawns a tile even when the move changed nothing. `reset_game_data` also resets the loop flags: `spawn_new` to true, which schedules the next spawn, and `direction` and `game_over` to their starting values. None of these flags is modelled.
- `reset_game_data` names `init_pieces_count` as global but never resets it. So after a reset the frame loop spawns only one starting tile, where the first game gets two. This is loop behaviour and is not modelled.
- The timed mode's clock and its 300-second limit use `pygame.time.get_ticks()` and float seconds. The model keeps only `timed_score`, and the start time that `reset_timed_game_data` resets is not modelled. The module docstring speaks of 3 minutes, but `time_limit` is 300 seconds.
- `Engine.SpawnPiece`: the random cell and value are a nondeterministic choice over the empty cells and {2, 4}. The rejection-sampling loop itself is not modelled. Neither is the 1-in-10 chance of a 4.
- `move_board` with a `game_type` other than classic or timed returns `None`. With a direction string that is not one of the four, it returns the board unchanged, but it has already pushed a snapshot or counted the cooldown down (main.py:367-370); with an unknown `game_type` it has done the same before returning `None`. `Mode` and `Direction` admit only the valid values.
- Integers are unbounded, like Python's.
