/** The state of the game's `Board` widget without the widget: the 4×4 board
    and the score, and the operations that change them. */
module GameBoard {
  import opened RowMerge
  import opened GridMoves
  import opened TileSpawn

  /** A whole move, slide then spawn: the board's total grows by exactly the
      new tile's value when the slid board still has an empty cell (and not at
      all when it is full), the number of tiles grows by at most one, and the
      points added to the score are never negative. */
  lemma MovesAccounting(g: seq<seq<int>>, s: Spawn)
    requires WellFormed(g)
    ensures var m := SlideLeft(g);
      Total(Spawned(m.grid, s)) == Total(g) + (if HasEmptyCell(m.grid) then s.Value() else 0) &&
      Occupied(Spawned(m.grid, s)) <= Occupied(g) + 1 && m.gain >= 0
    ensures var m := SlideRight(g);
      Total(Spawned(m.grid, s)) == Total(g) + (if HasEmptyCell(m.grid) then s.Value() else 0) &&
      Occupied(Spawned(m.grid, s)) <= Occupied(g) + 1 && m.gain >= 0
    ensures var m := SlideUp(g);
      Total(Spawned(m.grid, s)) == Total(g) + (if HasEmptyCell(m.grid) then s.Value() else 0) &&
      Occupied(Spawned(m.grid, s)) <= Occupied(g) + 1 && m.gain >= 0
    ensures var m := SlideDown(g);
      Total(Spawned(m.grid, s)) == Total(g) + (if HasEmptyCell(m.grid) then s.Value() else 0) &&
      Occupied(Spawned(m.grid, s)) <= Occupied(g) + 1 && m.gain >= 0
  {
    SlidesKeepWellFormed(g);
    SlidesConserveTotal(g);
    SlidesNeverAddTiles(g);
    SpawnAddsOneTile(SlideLeft(g).grid, s);
    SpawnAddsOneTile(SlideRight(g).grid, s);
    SpawnAddsOneTile(SlideUp(g).grid, s);
    SpawnAddsOneTile(SlideDown(g).grid, s);
  }

  /** Every move adds a tile even when nothing slid or merged: on a board whose
      rows are all settled and which has an empty cell, a left move scores
      nothing, leaves the tiles where they were, and still adds one tile. */
  lemma MoveSpawnsWhenNothingMoves(g: seq<seq<int>>, s: Spawn)
    requires IsGrid(g) && HasEmptyCell(g)
    requires forall r :: 0 <= r < Size ==> Settled(g[r])
    ensures SlideLeft(g) == Slide(g, 0)
    ensures Spawned(SlideLeft(g).grid, s) != g
    ensures Occupied(Spawned(SlideLeft(g).grid, s)) == Occupied(g) + 1
  {
    SlideLeftUnchangedIff(g);
    SpawnAddsOneTile(g, s);
  }

  /** The end-to-end left move on two lone tiles in different rows: each slides
      to the left edge of its own row and nothing merges. */
  lemma SlideLeftExample()
    ensures SlideLeft([[2, 0, 0, 0], [0, 0, 0, 0], [0, 0, 0, 0], [0, 0, 0, 2]])
         == Slide([[2, 0, 0, 0], [0, 0, 0, 0], [0, 0, 0, 0], [2, 0, 0, 0]], 0)
  {
    var g: seq<seq<int>> := [[2, 0, 0, 0], [0, 0, 0, 0], [0, 0, 0, 0], [0, 0, 0, 2]];
    assert MergeOf(g[0]) == MergeResult([2, 0, 0, 0], 0);
    assert MergeOf(g[1]) == MergeResult([0, 0, 0, 0], 0);
    assert MergeOf(g[3]) == MergeResult([2, 0, 0, 0], 0);
    assert MergedRows(g) == [[2, 0, 0, 0], [0, 0, 0, 0], [0, 0, 0, 0], [2, 0, 0, 0]];
    assert g[..3][..2] == g[..2] && g[..2][..1] == g[..1] && |g[..1][..0]| == 0;
    assert RowsGain(g[..1]) == 0;
    assert RowsGain(g[..2]) == 0;
    assert MergeOf(g[2]).scoreAdd == 0;
    assert RowsGain(g[..3]) == 0;
  }

  class Board {
    /** `self.board`: four rows of four cells, 0 for an empty cell. */
    var board: array<seq<int>>
    /** `self.score`. */
    var score: int

    ghost predicate Valid()
      reads this, board
    {
      board.Length == Size && WellFormed(board[..]) && score >= 0
    }

    /** `__init__`: an empty board and a score of 0. */
    constructor ()
      ensures Valid() && fresh(board)
      ensures board[..] == EmptyGrid() && score == 0
    {
      board := new seq<int>[Size](_ => Zeros(Size));
      score := 0;
      new;
      assert board[..] == EmptyGrid();
      EmptyGridFacts();
    }

    /** `init_board`: two random tiles on the board. */
    method InitBoard(first: Spawn, second: Spawn)
      requires Valid()
      modifies board
      ensures Valid()
      ensures board[..] == Spawned(Spawned(old(board[..]), first), second)
    {
      AddRandomTile(first);
      AddRandomTile(second);
    }

    /** `add_random_tile`: the chosen empty cell gets a 2 or a 4; a full board
        is left as it is. */
    method AddRandomTile(choice: Spawn)
      requires Valid()
      modifies board
      ensures Valid()
      ensures board[..] == Spawned(old(board[..]), choice)
    {
      ghost var g := board[..];
      SpawnKeepsWellFormed(g, choice);
      EmptyCellsEmptyIff(g);
      var emptyCells := EmptyCells(board[..]);
      if emptyCells != [] {
        var cell := emptyCells[Wrap(choice.pick, |emptyCells|)];
        assert cell == ChosenCell(g, choice);
        board[cell.row] := board[cell.row][cell.col := choice.Value()];
        assert board[..] == g[cell.row := g[cell.row][cell.col := choice.Value()]];
      }
    }

    /** `self.board = list(map(list, zip(*self.board)))`: a new board holding
        the transposed rows. */
    method Transpose()
      requires board.Length == Size && IsGrid(board[..])
      modifies this
      ensures board.Length == Size && fresh(board)
      ensures board[..] == Transposed(old(board[..]))
      ensures score == old(score)
    {
      var t := Transposed(board[..]);
      board := new seq<int>[Size](r requires 0 <= r < Size => t[r]);
      assert board[..] == t;
    }

    /** One pass of the loop of `move_left` and `move_up`: row `r` replaced
        by its merge, its points added to the score. */
    method MergeRowAt(r: int)
      requires board.Length == Size && 0 <= r < Size
      modifies this, board
      ensures board == old(board)
      ensures board[..] == old(board[..])[r := MergeOf(old(board[r])).row]
      ensures score == old(score) + MergeOf(old(board[r])).scoreAdd
    {
      var merged, added := Merge(board[r]);
      board[r] := merged;
      score := score + added;
    }

    /** One pass of the loop of `move_right` and `move_down`: row `r`
        reversed, merged and reversed back, its points added to the score. */
    method MergeRowReversedAt(r: int)
      requires board.Length == Size && 0 <= r < Size
      modifies this, board
      ensures board == old(board)
      ensures board[..] == old(board[..])[r := Reversed(MergeOf(Reversed(old(board[r]))).row)]
      ensures score == old(score) + MergeOf(Reversed(old(board[r]))).scoreAdd
    {
      var reversedRow := Reversed(board[r]);
      var merged, added := Merge(reversedRow);
      board[r] := Reversed(merged);
      score := score + added;
    }

    /** The `for r in range(4)` loop of `move_left` and `move_up`: every row
        replaced by its merge, every row's points added to the score. */
    method MergeEachRow()
      requires board.Length == Size
      modifies this, board
      ensures board == old(board)
      ensures board[..] == SlideLeft(old(board[..])).grid
      ensures score == old(score) + SlideLeft(old(board[..])).gain
    {
      ghost var g := board[..];
      for r := 0 to Size
        invariant board == old(board)
        invariant forall i :: 0 <= i < r ==> board[i] == MergeOf(g[i]).row
        invariant forall i :: r <= i < Size ==> board[i] == g[i]
        invariant score == old(score) + RowsGain(g[..r])
      {
        MergeRowAt(r);
        RowsGainPrefix(g, r);
      }
      assert g[..Size] == g;
      assert board[..] == MergedRows(g);
    }

    /** The `for r in range(4)` loop of `move_right` and `move_down`: every
        row reversed, merged and reversed back, its points added to the score. */
    method MergeEachRowReversed()
      requires board.Length == Size
      modifies this, board
      ensures board == old(board)
      ensures board[..] == SlideRight(old(board[..])).grid
      ensures score == old(score) + SlideRight(old(board[..])).gain
    {
      ghost var g := board[..];
      ghost var m := Mirrored(g);
      for r := 0 to Size
        invariant board == old(board)
        invariant forall i :: 0 <= i < r ==> board[i] == Reversed(MergeOf(Reversed(g[i])).row)
        invariant forall i :: r <= i < Size ==> board[i] == g[i]
        invariant score == old(score) + RowsGain(m[..r])
      {
        MergeRowReversedAt(r);
        SlideRightRow(g, r);
        RowsGainPrefix(m, r);
      }
      assert m[..Size] == m;
      forall i | 0 <= i < Size
        ensures board[i] == SlideRight(g).grid[i]
      {
        SlideRightRow(g, i);
      }
    }

    /** `move_left`. */
    method MoveLeft(choice: Spawn)
      requires Valid()
      modifies this, board
      ensures Valid()
      ensures board[..] == Spawned(SlideLeft(old(board[..])).grid, choice)
      ensures score == old(score) + SlideLeft(old(board[..])).gain
      ensures score >= old(score)
    {
      ghost var g := board[..];
      MergeEachRow();
      SlideLeftKeepsWellFormed(g);
      AddRandomTile(choice);
    }

    /** `move_right`. */
    method MoveRight(choice: Spawn)
      requires Valid()
      modifies this, board
      ensures Valid()
      ensures board[..] == Spawned(SlideRight(old(board[..])).grid, choice)
      ensures score == old(score) + SlideRight(old(board[..])).gain
      ensures score >= old(score)
    {
      ghost var g := board[..];
      MergeEachRowReversed();
      SlideRightKeepsWellFormed(g);
      AddRandomTile(choice);
    }

    /** `move_up`. */
    method MoveUp(choice: Spawn)
      requires Valid()
      modifies this, board
      ensures Valid()
      ensures board[..] == Spawned(SlideUp(old(board[..])).grid, choice)
      ensures score == old(score) + SlideUp(old(board[..])).gain
      ensures score >= old(score)
    {
      ghost var g := board[..];
      Transpose();
      MergeEachRow();
      Transpose();
      SlideUpKeepsWellFormed(g);
      AddRandomTile(choice);
    }

    /** `move_down`. */
    method MoveDown(choice: Spawn)
      requires Valid()
      modifies this, board
      ensures Valid()
      ensures board[..] == Spawned(SlideDown(old(board[..])).grid, choice)
      ensures score == old(score) + SlideDown(old(board[..])).gain
      ensures score >= old(score)
    {
      ghost var g := board[..];
      Transpose();
      MergeEachRowReversed();
      Transpose();
      SlideDownKeepsWellFormed(g);
      AddRandomTile(choice);
    }
  }
}
