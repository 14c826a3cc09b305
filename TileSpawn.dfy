/** Adding a random tile to the board (`add_random_tile`). The two random
    choices the game makes are supplied by the caller as a `Spawn`. */
module TileSpawn {
  import opened RowMerge
  import opened GridMoves

  /** A cell position `(r, c)` on the board. */
  datatype Cell = Cell(row: int, col: int)

  /** The outcome of the two calls to `random.choice`: `pick` selects the cell
      from the list of empty cells (wrapped round the list's length, so every
      empty cell can be selected and nothing else can) and `four` says whether
      the new tile is a 4 rather than a 2. */
  datatype Spawn = Spawn(pick: nat, four: bool)
  {
    /** The value of the new tile, one of `[2, 4]`. */
    function Value(): (v: int)
      ensures v == 2 || v == 4
    {
      if four then 4 else 2
    }
  }

  /** `pick` brought into `0 .. n - 1` by repeatedly subtracting `n`; the
      identity on the indices already in range. */
  function Wrap(pick: nat, n: nat): (k: nat)
    requires n > 0
    ensures k < n
    ensures pick < n ==> k == pick
  {
    if pick < n then pick else Wrap(pick - n, n)
  }

  /** Cell `cell` is on the board and empty. */
  predicate IsEmptyCell(g: seq<seq<int>>, cell: Cell)
    requires IsGrid(g)
  {
    0 <= cell.row < Size && 0 <= cell.col < Size && g[cell.row][cell.col] == 0
  }

  /** The board has at least one empty cell. */
  predicate HasEmptyCell(g: seq<seq<int>>)
    requires IsGrid(g)
  {
    exists r, c :: 0 <= r < Size && 0 <= c < Size && g[r][c] == 0
  }

  /** The empty cells of row `r` from column `c` on, left to right. */
  function EmptyCellsInRow(g: seq<seq<int>>, r: int, c: nat): (cells: seq<Cell>)
    requires IsGrid(g) && 0 <= r < Size && c <= Size
    ensures |cells| <= Size - c
    decreases Size - c
  {
    if c == Size then []
    else (if g[r][c] == 0 then [Cell(r, c)] else []) + EmptyCellsInRow(g, r, c + 1)
  }

  /** The empty cells of the rows from `r` on, in reading order. */
  function EmptyCellsFrom(g: seq<seq<int>>, r: nat): (cells: seq<Cell>)
    requires IsGrid(g) && r <= Size
    ensures |cells| <= (Size - r) * Size
    decreases Size - r
  {
    if r == Size then [] else EmptyCellsInRow(g, r, 0) + EmptyCellsFrom(g, r + 1)
  }

  /** `empty_cells`: the empty cells of the board, row by row. */
  function EmptyCells(g: seq<seq<int>>): (cells: seq<Cell>)
    requires IsGrid(g)
    ensures |cells| <= Size * Size
  {
    EmptyCellsFrom(g, 0)
  }

  lemma {:induction false} EmptyCellsInRowMembers(g: seq<seq<int>>, r: int, c: nat)
    requires IsGrid(g) && 0 <= r < Size && c <= Size
    ensures forall cell :: cell in EmptyCellsInRow(g, r, c) <==>
      cell.row == r && c <= cell.col < Size && g[r][cell.col] == 0
    decreases Size - c
  {
    if c < Size {
      EmptyCellsInRowMembers(g, r, c + 1);
    }
  }

  lemma {:induction false} EmptyCellsFromMembers(g: seq<seq<int>>, r: nat)
    requires IsGrid(g) && r <= Size
    ensures forall cell :: cell in EmptyCellsFrom(g, r) <==>
      r <= cell.row < Size && 0 <= cell.col < Size && g[cell.row][cell.col] == 0
    decreases Size - r
  {
    if r < Size {
      EmptyCellsInRowMembers(g, r, 0);
      EmptyCellsFromMembers(g, r + 1);
    }
  }

  /** The list of empty cells holds every empty cell of the board and no
      other cell. */
  lemma EmptyCellsMembers(g: seq<seq<int>>)
    requires IsGrid(g)
    ensures forall cell :: cell in EmptyCells(g) <==> IsEmptyCell(g, cell)
  {
    EmptyCellsFromMembers(g, 0);
  }

  /** The cell `random.choice(empty_cells)` returns for the choice `s`. */
  function ChosenCell(g: seq<seq<int>>, s: Spawn): (cell: Cell)
    requires IsGrid(g) && HasEmptyCell(g)
    ensures IsEmptyCell(g, cell)
  {
    EmptyCellsEmptyIff(g);
    var empty := EmptyCells(g);
    assert IsEmptyCell(g, empty[Wrap(s.pick, |empty|)]) by {
      EmptyCellsMembers(g);
      assert empty[Wrap(s.pick, |empty|)] in empty;
    }
    empty[Wrap(s.pick, |empty|)]
  }

  /** The board after `add_random_tile` with the choices `s`: unchanged when
      it is full, otherwise the chosen empty cell gets the new tile. */
  function Spawned(g: seq<seq<int>>, s: Spawn): (h: seq<seq<int>>)
    requires IsGrid(g)
    ensures IsGrid(h)
  {
    if HasEmptyCell(g) then
      var cell := ChosenCell(g, s);
      g[cell.row := g[cell.row][cell.col := s.Value()]]
    else
      g
  }

  // ---------------------------------------------------------------------------
  // Properties of `add_random_tile`

  /** A list holding exactly the empty cells is empty exactly when the
      board is full. */
  lemma NoEmptyCellIff(g: seq<seq<int>>, empty: seq<Cell>)
    requires IsGrid(g)
    requires forall cell :: cell in empty <==> IsEmptyCell(g, cell)
    ensures empty == [] <==> !HasEmptyCell(g)
  {
    if HasEmptyCell(g) {
      var r, c :| 0 <= r < Size && 0 <= c < Size && g[r][c] == 0;
      assert Cell(r, c) in empty;
    }
    if empty != [] {
      assert IsEmptyCell(g, empty[0]);
    }
  }

  /** The list of empty cells is empty exactly when the board is full. */
  lemma EmptyCellsEmptyIff(g: seq<seq<int>>)
    requires IsGrid(g)
    ensures EmptyCells(g) == [] <==> !HasEmptyCell(g)
  {
    EmptyCellsMembers(g);
    NoEmptyCellIff(g, EmptyCells(g));
  }

  /** A spawn writes a 2 or a 4 into a cell that was empty and leaves every
      other cell as it was; on a full board it changes nothing. */
  lemma SpawnFillsOneEmptyCell(g: seq<seq<int>>, s: Spawn)
    requires IsGrid(g)
    ensures !HasEmptyCell(g) ==> Spawned(g, s) == g
    ensures HasEmptyCell(g) ==>
      var cell := ChosenCell(g, s);
      var h := Spawned(g, s);
      g[cell.row][cell.col] == 0 && h[cell.row][cell.col] in {2, 4} &&
      forall r, c :: 0 <= r < Size && 0 <= c < Size && (r != cell.row || c != cell.col) ==>
        h[r][c] == g[r][c]
  {
  }

  /** Every empty cell, and either value, can be what the random choices pick. */
  lemma AnyEmptyCellCanBeChosen(g: seq<seq<int>>, cell: Cell, four: bool)
    requires IsGrid(g) && IsEmptyCell(g, cell)
    ensures HasEmptyCell(g)
    ensures exists pick: nat :: ChosenCell(g, Spawn(pick, four)) == cell
  {
    var empty := EmptyCells(g);
    assert cell in empty by {
      EmptyCellsMembers(g);
    }
    var i :| 0 <= i < |empty| && empty[i] == cell;
    assert g[cell.row][cell.col] == 0;
    assert ChosenCell(g, Spawn(i, four)) == cell;
  }

  /** A spawn adds exactly one tile, of value 2 or 4, when the board has an
      empty cell, and nothing when it is full. */
  lemma SpawnAddsOneTile(g: seq<seq<int>>, s: Spawn)
    requires IsGrid(g)
    ensures Occupied(Spawned(g, s)) == Occupied(g) + (if HasEmptyCell(g) then 1 else 0)
    ensures Total(Spawned(g, s)) == Total(g) + (if HasEmptyCell(g) then s.Value() else 0)
  {
    if HasEmptyCell(g) {
      var cell := ChosenCell(g, s);
      NonZeroCountUpdate(g[cell.row], cell.col, s.Value());
      SumUpdate(g[cell.row], cell.col, s.Value());
      RowUpdate(g, cell.row, g[cell.row][cell.col := s.Value()]);
    }
  }

  /** A spawn keeps every cell empty or a tile. */
  lemma SpawnKeepsWellFormed(g: seq<seq<int>>, s: Spawn)
    requires WellFormed(g)
    ensures WellFormed(Spawned(g, s))
  {
    if HasEmptyCell(g) {
      var cell := ChosenCell(g, s);
      assert IsTile(s.Value()) by {
        assert IsPowerOfTwo(2);
        assert IsPowerOfTwo(4);
      }
      TileWriteKeepsWellFormed(g, cell, s.Value());
    }
  }

  /** Writing a tile into one cell keeps every cell empty or a tile. */
  lemma TileWriteKeepsWellFormed(g: seq<seq<int>>, cell: Cell, v: int)
    requires WellFormed(g) && IsTile(v)
    requires 0 <= cell.row < Size && 0 <= cell.col < Size
    ensures WellFormed(g[cell.row := g[cell.row][cell.col := v]])
  {
    var h := g[cell.row := g[cell.row][cell.col := v]];
    forall r, c | 0 <= r < Size && 0 <= c < Size
      ensures IsTile(h[r][c])
    {
      if r != cell.row || c != cell.col {
        assert h[r][c] == g[r][c];
      }
    }
  }

  /** The board has an empty cell exactly when it holds fewer than sixteen
      tiles, so `add_random_tile` changes the board exactly when it is not
      full. */
  lemma HasEmptyCellIff(g: seq<seq<int>>)
    requires IsGrid(g)
    ensures HasEmptyCell(g) <==> Occupied(g) < Size * Size
  {
    forall r | 0 <= r < Size
      ensures NonZeroCount(g[r]) == Occupancy(g[r][0]) + Occupancy(g[r][1]) + Occupancy(g[r][2]) + Occupancy(g[r][3])
    {
      RowOfFour(g[r]);
    }
    if HasEmptyCell(g) {
      var r, c :| 0 <= r < Size && 0 <= c < Size && g[r][c] == 0;
      assert NonZeroCount(g[r]) < Size;
    }
  }

  /** The game starts (`__init__`, `init_board`) from an empty board and adds
      two tiles: whatever the choices, it then holds exactly two tiles, each a
      2 or a 4, with a total of 4 to 8. */
  lemma StartingBoard(first: Spawn, second: Spawn)
    ensures var h := Spawned(Spawned(EmptyGrid(), first), second);
      WellFormed(h) && Occupied(h) == 2 && 4 <= Total(h) <= 8
  {
    var g := EmptyGrid();
    EmptyGridFacts();
    HasEmptyCellIff(g);
    SpawnAddsOneTile(g, first);
    SpawnKeepsWellFormed(g, first);
    var g1 := Spawned(g, first);
    HasEmptyCellIff(g1);
    SpawnAddsOneTile(g1, second);
    SpawnKeepsWellFormed(g1, second);
  }
}
