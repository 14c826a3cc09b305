# 2048 board engine in Dafny

A model of the board-mutation engine of a Kivy 2048 clone. The engine is the
`Board` class in `main.py`, without the widget it inherits from. It covers:

- the canonical left-merge of one row (`merge`);
- the four moves that reduce to it by reversing and transposing the board
  (`move_left`, `move_right`, `move_up`, `move_down`);
- the spawn of a new 2 or 4 on an empty cell (`add_random_tile`);
- the starting state (`__init__`, `init_board`).

The project has four modules:

- `RowMerge`:
  - `Merge` is the `merge` method with its `skip` loop. It is proved against the pure specification `MergeOf`, which drops the empty cells (`Compact`), makes one pass (`Combine`) and pads to four (`Padded`).
  - It also holds the row properties: length, packing, conserved total, score bounds, exact tile count, the no-double-merge examples and when a row is left unchanged.
- `GridMoves`:
  - The board transforms `Reversed`, `Mirrored` and `Transposed`.
  - The slide of each move before the spawn: `SlideLeft`, `SlideRight`, `SlideUp` and `SlideDown`. Each is written as the composition the source uses.
  - Their properties: the total is conserved, tiles are never added, the score never decreases, the board stays well formed, tiles are packed against the edge, and columns are merged by the vertical moves.
- `TileSpawn`:
  - The list of empty cells in reading order, the cell the random choice selects, and the board after the spawn.
  - The spawn properties: it writes only an empty cell, only 2 or 4, and nothing else. A full board is left unchanged.
- `GameBoard`:
  - `class Board` holds `board` (an `array` of four rows) and `score`.
  - It has one method per operation of the source. Each move is proved equal to the spawn applied to the slide, with the score raised by the slide's points.

`Board.Valid()` is the class invariant:
- the board has four rows of four cells;
- every cell is 0 or a power of two of at least 2;
- the score is not negative.

The constructor establishes it. `InitBoard`, `AddRandomTile` and the four moves keep it. The loop-step helpers (`Transpose`, `MergeRowAt`, `MergeRowReversedAt`, `MergeEachRow`, `MergeEachRowReversed`) neither assume nor promise it; they state the exact new contents instead.

The random choices of `add_random_tile` are a `Spawn` value that the caller supplies. Its `pick` is an index into the list of empty cells, wrapped round the list's length. Its `four` selects 4 over 2. By `AnyEmptyCellCanBeChosen`, every empty cell and either value can be chosen.

The model follows the code as written on four points:

- **Every move spawns a tile, even when nothing slid or merged.** Each move ends with `add_random_tile` (main.py:77, 86, 95, 106). `MoveSpawnsWhenNothingMoves` shows that a left move on a settled board with an empty cell still adds a tile. Spawning only after a change would differ here.
- **A merge is not idempotent.** A tile made by one merge can merge again on the next move. For example, `[2,2,4,0]` becomes `[4,4,0,0]`, which becomes `[8,0,0,0]` (`MergeNotIdempotent`). The exact condition for a row to be left unchanged is `MergeUnchangedIff`: the row is packed left and has no two equal neighbouring tiles.
- **The new tile is a 2 or a 4, with no weighting.** The model has no probabilities.
- **Rows longer than four cells are not padded.** `[0] * (4 - len(merged_row))` is empty for a negative count, so `Padded` leaves such rows as they are. `MergeOf` promises a length of four only for rows of at most four cells.

## Model

| member | source | states |
|---|---|---|
| RowMerge.Compact | main.py:110 | the filtered row has as many entries as the row has non-zero cells, none of them zero, each taken from the row |
| RowMerge.CompactSum | main.py:110 | dropping the empty cells keeps the row's total |
| RowMerge.CompactOfDense | main.py:110 | a row without empty cells is unchanged by the filter |
| RowMerge.Combine | main.py:114-124 | one pass yields at most as many tiles as it is given and at least half as many: each output tile absorbs at most two input tiles |
| RowMerge.Padded | main.py:125 | a row of at most four cells is filled up to exactly four; a row of four or more cells is returned as it is |
| RowMerge.MergeOf | main.py:109-126 | a row of at most four cells comes back with exactly four cells |
| RowMerge.MergeStep | main.py:115-124 | one loop iteration: on an equal right neighbour it appends the doubled tile, scores it and consumes both tiles; otherwise it appends the tile and consumes one |
| RowMerge.Merge | main.py:109-126 | the method's row and points equal the specification `MergeOf` of its input: compact, one left-to-right pass with `skip`, pad to four |
| RowMerge.CombineConservesSum | main.py:118-124 | a pass keeps the total value |
| RowMerge.CombineKeepsTiles | main.py:118-124 | a pass over non-zero powers of two yields non-zero powers of two |
| RowMerge.CombineScore | main.py:118-124 | for positive tiles, the pass's points are between 0 and the row's total, and are 0 exactly when no tile was consumed |
| RowMerge.CombineMergeCount | main.py:118-124 | the pass yields the input's tile count less the number of merges |
| RowMerge.CombineChangesIff | main.py:118-124 | a pass shortens the row exactly when two neighbours are equal; otherwise it returns the row unchanged with 0 points |
| RowMerge.MergeConservesSum | main.py:109-126 | the merged row's total equals the input row's total |
| RowMerge.MergePacksLeft | main.py:110-125 | the merged row's zeros all come after its tiles, and its tiles in order are the pass over the input's tiles |
| RowMerge.MergeTileCount | main.py:110-125 | the merged row's tiles equal the input's tiles minus the merges; this is never more than the input, at least half of it, and fewer exactly when the compacted input has equal neighbours |
| RowMerge.MergeScore | main.py:113-124 | for non-negative cells, `score_add` is between 0 and the row's total, and is 0 exactly when the tile count did not change |
| RowMerge.MergeKeepsTiles | main.py:109-126 | a row of tiles merges to a row of tiles |
| RowMerge.SettledRowUnchanged | main.py:109-126 | a row packed left with no equal neighbouring tiles merges to itself with 0 points |
| RowMerge.UnchangedRowSettled | main.py:109-126 | a four-cell row that merges to itself is packed left with no equal neighbouring tiles |
| RowMerge.MergeUnchangedIff | main.py:109-126 | a four-cell row is unchanged by the merge if and only if it is settled, and then it scores 0 |
| RowMerge.MergeExamples | main.py:112-122 | `[2,2,2,0]` gives `([4,2,0,0], 4)` and `[2,2,2,2]` gives `([4,4,0,0], 8)`: a tile made in the pass does not merge again |
| RowMerge.MergeGapExamples | main.py:110-125 | `[0,2,0,2]` gives `([4,0,0,0], 4)` and `[4,4,8,8]` gives `([8,16,0,0], 24)` |
| RowMerge.MergeNotIdempotent | main.py:109-126 | `[2,2,4,0]` merges to `[4,4,0,0]`, which merges again to `[8,0,0,0]` |
| GridMoves.Reversed | main.py:82 | reversing keeps the row's length |
| GridMoves.ReversedTwice | main.py:82-84 | reversing twice gives the row back, so `move_right` writes each row back in its own orientation |
| GridMoves.ReversedRow | main.py:82-84 | reversing a row keeps its total and its number of tiles |
| GridMoves.Transposed | main.py:90 | `zip(*board)` of a 4×4 board is a 4×4 board |
| GridMoves.TransposedTwice | main.py:90-94 | transposing twice gives the board back, so the second transpose of `move_up` undoes the first |
| GridMoves.TransposedRowIsColumn | main.py:90 | row `c` of the transposed board is column `c` |
| GridMoves.TransposedTotals | main.py:90 | transposing keeps the board's total and number of tiles |
| GridMoves.Mirrored | main.py:81-84 | reversing every row keeps the number of rows |
| GridMoves.MirroredTotals | main.py:81-84 | reversing every row keeps the board's total and number of tiles |
| GridMoves.MergedRows | main.py:74-76 | merging every row of a 4×4 board gives a 4×4 board |
| GridMoves.MergedRowsTotals | main.py:74-76 | merging every row keeps the total and never adds tiles |
| GridMoves.MergedRowsKeepTiles | main.py:74-76 | merging, mirroring or transposing a well-formed board gives a well-formed board |
| GridMoves.RowsGain | main.py:74-76 | the points a slide adds over rows of non-negative cells are never negative |
| GridMoves.RowsGainPrefix | main.py:74-76 | each loop iteration adds exactly its row's `score_add` to the points so far |
| GridMoves.RowsGainOfSettled | main.py:74-76 | rows that all score 0 add 0 points |
| GridMoves.RowUpdate | main.py:48 | writing one row changes the board's total and tile count by that row's differences only |
| GridMoves.EmptyGrid | main.py:35 | the starting board is 4×4 and every cell is 0 |
| GridMoves.EmptyGridFacts | main.py:35 | the starting board is well formed, with no tile and a total of 0 |
| GridMoves.SlideLeft | main.py:73-76 | the left slide of a 4×4 board is a 4×4 board |
| GridMoves.SlideRight | main.py:80-85 | the right slide of a 4×4 board is a 4×4 board |
| GridMoves.SlideUp | main.py:89-94 | the up slide (transpose, left slide, transpose) of a 4×4 board is a 4×4 board |
| GridMoves.SlideDown | main.py:98-105 | the down slide (transpose, right slide, transpose) of a 4×4 board is a 4×4 board |
| GridMoves.SlideRightRow | main.py:81-85 | row `r` after the right slide is row `r` reversed, merged and reversed back |
| GridMoves.SlideLeftKeepsWellFormed | main.py:73-76 | a left move keeps the board well formed and adds non-negative points |
| GridMoves.SlideRightKeepsWellFormed | main.py:80-85 | a right move keeps the board well formed and adds non-negative points |
| GridMoves.SlideUpKeepsWellFormed | main.py:89-94 | an up move keeps the board well formed and adds non-negative points |
| GridMoves.SlideDownKeepsWellFormed | main.py:98-105 | a down move keeps the board well formed and adds non-negative points |
| GridMoves.SlidesKeepWellFormed | main.py:73-105 | all four moves keep the board well formed and never decrease the score |
| GridMoves.SlidesConserveTotal | main.py:73-105 | no move changes the board's total value before the spawn |
| GridMoves.SlidesNeverAddTiles | main.py:73-105 | no move adds a tile before the spawn |
| GridMoves.SlideUpMergesColumns | main.py:89-94 | each column after the up move is the merge of that column, read top to bottom |
| GridMoves.SlideDownMergesColumns | main.py:98-105 | each column after the down move is the merge of that column read bottom to top, written back bottom to top |
| GridMoves.SlideLeftPacksRows | main.py:74-76 | after a left move every row's tiles are packed to the left |
| GridMoves.SlideRightPacksRows | main.py:81-85 | after a right move every row's tiles are packed to the right |
| GridMoves.SlideUpPacksColumns | main.py:89-94 | after an up move every column's tiles are packed to the top |
| GridMoves.SlideDownPacksColumns | main.py:98-105 | after a down move every column's tiles are packed to the bottom |
| GridMoves.SlideLeftUnchangedIff | main.py:73-76 | the left slide leaves the board unchanged if and only if every row is settled, and then it adds no points |
| TileSpawn.Spawn.Value | main.py:48 | the new tile's value is 2 or 4 |
| TileSpawn.Wrap | main.py:47 | the wrapped pick is a valid index, and an index already in range is kept |
| TileSpawn.EmptyCellsInRow | main.py:45 | the empty cells of one row from column `c` on number at most the columns left |
| TileSpawn.EmptyCellsFrom | main.py:45 | the empty cells of the rows from `r` on number at most the cells in those rows |
| TileSpawn.EmptyCells | main.py:45 | the list of empty cells has at most sixteen entries |
| TileSpawn.EmptyCellsMembers | main.py:45 | the list of empty cells holds exactly the cells on the board that are 0 |
| TileSpawn.NoEmptyCellIff | main.py:45-46 | any list holding exactly the empty cells is empty exactly when the board is full |
| TileSpawn.EmptyCellsEmptyIff | main.py:45-46 | the list is empty exactly when the board has no empty cell |
| TileSpawn.HasEmptyCellIff | main.py:45-46 | the board has an empty cell exactly when it holds fewer than sixteen tiles |
| TileSpawn.ChosenCell | main.py:47 | the chosen cell is on the board and empty |
| TileSpawn.AnyEmptyCellCanBeChosen | main.py:47-48 | every empty cell, with either value, is chosen for some choice |
| TileSpawn.Spawned | main.py:44-48 | the board after the spawn is still 4×4 |
| TileSpawn.SpawnFillsOneEmptyCell | main.py:44-48 | the written cell was 0 and now holds 2 or 4, every other cell is unchanged, and a full board is unchanged |
| TileSpawn.SpawnAddsOneTile | main.py:44-48 | the spawn adds exactly one tile and its value to the board when a cell is empty, and nothing when the board is full |
| TileSpawn.TileWriteKeepsWellFormed | main.py:48 | writing a tile into one cell keeps every cell 0 or a tile |
| TileSpawn.SpawnKeepsWellFormed | main.py:48 | the spawn keeps every cell 0 or a tile |
| TileSpawn.StartingBoard | main.py:35-41 | after the two initial spawns on an empty board there are exactly two tiles, the board is well formed, and the total is between 4 and 8 |
| GameBoard.MovesAccounting | main.py:73-107 | each whole move (slide then spawn) raises the total by exactly the new tile's value when a cell was free and by nothing otherwise, adds at most one tile, and adds non-negative points |
| GameBoard.MoveSpawnsWhenNothingMoves | main.py:73-77 | a left move on a settled board with an empty cell changes no tile and scores nothing, yet still adds a tile |
| GameBoard.SlideLeftExample | main.py:73-76 | two lone tiles in different rows slide to the left edge without merging |
| GameBoard.Board.constructor | main.py:33-36 | a fresh all-zero 4×4 board and a score of 0, which satisfy the class invariant |
| GameBoard.Board.InitBoard | main.py:39-41 | the board after two successive spawns |
| GameBoard.Board.AddRandomTile | main.py:44-48 | the array's new contents are the spawn applied to the old contents; the invariant is kept |
| GameBoard.Board.Transpose | main.py:90 | rebinds `board` to a fresh array holding the transposed rows; the score is unchanged |
| GameBoard.Board.MergeRowAt | main.py:75-76 | row `r` is replaced by its merge, the other rows are unchanged, and the score rises by its `score_add` |
| GameBoard.Board.MergeRowReversedAt | main.py:82-85 | row `r` is replaced by the reversal of the merge of its reversal, and the score rises by that merge's points |
| GameBoard.Board.MergeEachRow | main.py:74-76 | after the loop the board is the left slide of the old board, and the score has risen by the slide's points |
| GameBoard.Board.MergeEachRowReversed | main.py:81-85 | after the loop the board is the right slide of the old board, and the score has risen by the slide's points |
| GameBoard.Board.MoveLeft | main.py:73-77 | the new board is the spawn applied to the left slide, the score rises by the slide's points, so it never decreases, and the invariant is kept |
| GameBoard.Board.MoveRight | main.py:80-86 | the new board is the spawn applied to the right slide, the score rises by its points, so it never decreases, and the invariant is kept |
| GameBoard.Board.MoveUp | main.py:89-95 | the new board is the spawn applied to transpose, left slide, transpose; the score rises by its points, so it never decreases, and the invariant is kept |
| GameBoard.Board.MoveDown | main.py:98-106 | the new board is the spawn applied to transpose, right slide, transpose; the score rises by its points, so it never decreases, and the invariant is kept |

## Left out

- Rendering:
  - what is left out: `update_board` and its colour parsing (main.py:50-71), `update_score` (main.py:140-141), and the `COLORS` table with `get_tile_color` (main.py:15-30);
  - why: these only draw the state through Kivy widgets that are not part of this model.
- Calls to `update_board` at the end of `init_board` and of each move:
  - what is left out: those calls;
  - why: they change neither the board nor the score.
- Kivy setup:
  - what is left out: `Window`, `Builder`, the `App` subclass, and the `super().__init__` call of the widget;
  - why: this is library plumbing.
- `Clock.schedule_once(self.init_board, 0)` (main.py:37):
  - what is left out: the deferred call;
  - what the model does instead: `Board.InitBoard` is a separate method that the client calls after the constructor.
- Swipe classification in `on_touch_up` (main.py:128-138):
  - what is left out: the classification;
  - why: it compares floating-point touch positions and only picks which move method to call.
- Randomness of `random.choice` (main.py:47-48):
  - what the model does instead: the caller supplies the choices as a `Spawn`;
  - what is left out: no probability distribution is modelled.
- Win detection, game-over detection and a high score:
  - why: the code has none of them.
- Aliasing between rows:
  - what is left out: the Python board is a list of lists, while the model holds each row as a sequence value in an array;
  - why: no two rows of the source's board are the same list object, so writing one row cannot change another.
