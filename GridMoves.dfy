/** The four moves as transformations of the 4×4 grid: what `move_left`,
    `move_right`, `move_up` and `move_down` do to `self.board` and to the score
    before the new tile is added. */
module GridMoves {
  import opened RowMerge

  /** Four rows of four cells, as `self.board` always is. */
  predicate IsGrid(g: seq<seq<int>>)
  {
    |g| == Size && forall r :: 0 <= r < Size ==> |g[r]| == Size
  }

  /** A grid the game can reach: every cell is empty or holds a tile. */
  predicate WellFormed(g: seq<seq<int>>)
  {
    IsGrid(g) && forall r, c :: 0 <= r < Size && 0 <= c < Size ==> IsTile(g[r][c])
  }

  /** `[[0] * 4 for _ in range(4)]`. */
  function EmptyGrid(): (e: seq<seq<int>>)
    ensures IsGrid(e)
    ensures forall r, c :: 0 <= r < Size && 0 <= c < Size ==> e[r][c] == 0
  {
    seq(Size, _ => Zeros(Size))
  }

  /** `list(reversed(s))`. */
  function Reversed(s: seq<int>): (r: seq<int>)
    ensures |r| == |s|
  {
    seq(|s|, i requires 0 <= i < |s| => s[|s| - 1 - i])
  }

  /** `list(map(list, zip(*g)))`: row `r` of the result is column `r` of `g`. */
  function Transposed(g: seq<seq<int>>): (t: seq<seq<int>>)
    requires IsGrid(g)
    ensures IsGrid(t)
  {
    seq(Size, r requires 0 <= r < Size => seq(Size, c requires 0 <= c < Size => g[c][r]))
  }

  /** Column `c` of the grid, top to bottom. */
  function Column(g: seq<seq<int>>, c: int): (col: seq<int>)
    requires IsGrid(g) && 0 <= c < Size
  {
    seq(Size, r requires 0 <= r < Size => g[r][c])
  }

  /** Every row reversed. */
  function Mirrored(g: seq<seq<int>>): (h: seq<seq<int>>)
    ensures |h| == |g|
  {
    seq(|g|, r requires 0 <= r < |g| => Reversed(g[r]))
  }

  /** Sum of the cells of a grid. */
  function Total(g: seq<seq<int>>): int
    requires IsGrid(g)
  {
    Sum(g[0]) + Sum(g[1]) + Sum(g[2]) + Sum(g[3])
  }

  /** Number of tiles on a grid. */
  function Occupied(g: seq<seq<int>>): int
    requires IsGrid(g)
  {
    NonZeroCount(g[0]) + NonZeroCount(g[1]) + NonZeroCount(g[2]) + NonZeroCount(g[3])
  }

  /** A grid after a move, and the points the move adds to the score. */
  datatype Slide = Slide(grid: seq<seq<int>>, gain: int)

  /** Every row replaced by its left-merge. */
  function MergedRows(g: seq<seq<int>>): (h: seq<seq<int>>)
    ensures |h| == |g|
    ensures IsGrid(g) ==> IsGrid(h)
  {
    seq(|g|, r requires 0 <= r < |g| => MergeOf(g[r]).row)
  }

  /** The points of left-merging every row, accumulated top to bottom; never
      negative for rows of non-negative cells. */
  function RowsGain(g: seq<seq<int>>): (gain: int)
    ensures (forall r, c :: 0 <= r < |g| && 0 <= c < |g[r]| ==> g[r][c] >= 0) ==> gain >= 0
  {
    if g == [] then 0
    else
      var last := g[|g| - 1];
      var total := RowsGain(g[..|g| - 1]) + MergeOf(last).scoreAdd;
      if forall c :: 0 <= c < |last| ==> last[c] >= 0 then MergeScore(last); total else total
  }

  /** `move_left` before the new tile: merge every row. */
  function SlideLeft(g: seq<seq<int>>): (s: Slide)
    ensures IsGrid(g) ==> IsGrid(s.grid)
  {
    Slide(MergedRows(g), RowsGain(g))
  }

  /** `move_right` before the new tile: reverse each row, merge it, reverse it back. */
  function SlideRight(g: seq<seq<int>>): (s: Slide)
    ensures IsGrid(g) ==> IsGrid(s.grid)
  {
    var m := Mirrored(g);
    Slide(Mirrored(MergedRows(m)), RowsGain(m))
  }

  /** `move_up` before the new tile: transpose, merge every row, transpose back. */
  function SlideUp(g: seq<seq<int>>): (s: Slide)
    requires IsGrid(g)
    ensures IsGrid(s.grid)
  {
    var s := SlideLeft(Transposed(g));
    Slide(Transposed(s.grid), s.gain)
  }

  /** `move_down` before the new tile: transpose, merge every reversed row and
      reverse it back, transpose back. */
  function SlideDown(g: seq<seq<int>>): (s: Slide)
    requires IsGrid(g)
    ensures IsGrid(s.grid)
  {
    var s := SlideRight(Transposed(g));
    Slide(Transposed(s.grid), s.gain)
  }

  // ---------------------------------------------------------------------------
  // Helpers on rows and grids

  /** Sum and tile count of a four-cell row, cell by cell. */
  lemma RowOfFour(s: seq<int>)
    requires |s| == Size
    ensures Sum(s) == s[0] + s[1] + s[2] + s[3]
    ensures NonZeroCount(s) == Occupancy(s[0]) + Occupancy(s[1]) + Occupancy(s[2]) + Occupancy(s[3])
  {
    var s1 := s[1..];
    var s2 := s1[1..];
    var s3 := s2[1..];
    assert s3[1..] == [];
    assert Sum(s3) == s[3] && Sum(s2) == s[2] + Sum(s3) && Sum(s1) == s[1] + Sum(s2);
    assert NonZeroCount(s3) == Occupancy(s[3]);
    assert NonZeroCount(s2) == Occupancy(s[2]) + NonZeroCount(s3);
    assert NonZeroCount(s1) == Occupancy(s[1]) + NonZeroCount(s2);
  }

  /** Reversing a row keeps its total and its number of tiles. */
  lemma ReversedRow(s: seq<int>)
    requires |s| == Size
    ensures Sum(Reversed(s)) == Sum(s)
    ensures NonZeroCount(Reversed(s)) == NonZeroCount(s)
  {
    RowOfFour(s);
    RowOfFour(Reversed(s));
  }

  /** Reversing a row twice gives the row back. */
  lemma ReversedTwice(s: seq<int>)
    ensures Reversed(Reversed(s)) == s
  {
    var rr := Reversed(Reversed(s));
    forall i | 0 <= i < |s| ensures rr[i] == s[i] {
    }
  }

  /** Transposing keeps the grid's total and its number of tiles. */
  lemma TransposedTotals(g: seq<seq<int>>)
    requires IsGrid(g)
    ensures Total(Transposed(g)) == Total(g)
    ensures Occupied(Transposed(g)) == Occupied(g)
  {
    var t := Transposed(g);
    forall r | 0 <= r < Size
      ensures Sum(g[r]) == g[r][0] + g[r][1] + g[r][2] + g[r][3]
      ensures Sum(t[r]) == g[0][r] + g[1][r] + g[2][r] + g[3][r]
      ensures NonZeroCount(g[r]) == Occupancy(g[r][0]) + Occupancy(g[r][1]) + Occupancy(g[r][2]) + Occupancy(g[r][3])
      ensures NonZeroCount(t[r]) == Occupancy(g[0][r]) + Occupancy(g[1][r]) + Occupancy(g[2][r]) + Occupancy(g[3][r])
    {
      RowOfFour(g[r]);
      RowOfFour(t[r]);
    }
  }

  /** Replacing row `r` leaves the other rows as they were. */
  lemma RowUpdateRows(g: seq<seq<int>>, r: int, row: seq<int>)
    requires IsGrid(g) && 0 <= r < Size && |row| == Size
    ensures IsGrid(g[r := row])
    ensures forall i :: 0 <= i < Size && i != r ==> g[r := row][i] == g[i]
  {
  }

  /** Replacing one row changes the total and the tile count by that row's
      differences only. */
  lemma RowUpdate(g: seq<seq<int>>, r: int, row: seq<int>)
    requires IsGrid(g) && 0 <= r < Size && |row| == Size
    ensures IsGrid(g[r := row])
    ensures Total(g[r := row]) == Total(g) - Sum(g[r]) + Sum(row)
    ensures Occupied(g[r := row]) == Occupied(g) - NonZeroCount(g[r]) + NonZeroCount(row)
  {
    var h := g[r := row];
    RowUpdateRows(g, r, row);
    var a0, a1, a2, a3 := Sum(g[0]), Sum(g[1]), Sum(g[2]), Sum(g[3]);
    var n0, n1, n2, n3 := NonZeroCount(g[0]), NonZeroCount(g[1]), NonZeroCount(g[2]), NonZeroCount(g[3]);
    if r == 0 {
      assert Total(h) == Sum(row) + a1 + a2 + a3 && Occupied(h) == NonZeroCount(row) + n1 + n2 + n3;
    } else if r == 1 {
      assert Total(h) == a0 + Sum(row) + a2 + a3 && Occupied(h) == n0 + NonZeroCount(row) + n2 + n3;
    } else if r == 2 {
      assert Total(h) == a0 + a1 + Sum(row) + a3 && Occupied(h) == n0 + n1 + NonZeroCount(row) + n3;
    } else {
      assert Total(h) == a0 + a1 + a2 + Sum(row) && Occupied(h) == n0 + n1 + n2 + NonZeroCount(row);
    }
  }

  /** The starting board holds no tile and no value. */
  lemma EmptyGridFacts()
    ensures WellFormed(EmptyGrid())
    ensures Occupied(EmptyGrid()) == 0 && Total(EmptyGrid()) == 0
  {
    ZerosFacts(Size);
  }

  /** Transposing twice gives the grid back. */
  lemma TransposedTwice(g: seq<seq<int>>)
    requires IsGrid(g)
    ensures Transposed(Transposed(g)) == g
  {
    var tt := Transposed(Transposed(g));
    forall r | 0 <= r < Size ensures tt[r] == g[r] {
    }
  }

  /** Row `c` of the transposed grid is column `c`. */
  lemma TransposedRowIsColumn(g: seq<seq<int>>, c: int)
    requires IsGrid(g) && 0 <= c < Size
    ensures Transposed(g)[c] == Column(g, c)
  {
  }

  /** Left-merging every row keeps the total and never adds tiles. */
  lemma MergedRowsTotals(g: seq<seq<int>>)
    requires IsGrid(g)
    ensures Total(MergedRows(g)) == Total(g)
    ensures Occupied(MergedRows(g)) <= Occupied(g)
  {
    forall r | 0 <= r < Size
      ensures Sum(MergedRows(g)[r]) == Sum(g[r])
      ensures NonZeroCount(MergedRows(g)[r]) <= NonZeroCount(g[r])
    {
      MergeConservesSum(g[r]);
      MergeTileCount(g[r]);
    }
  }

  /** Reversing every row keeps the total and the number of tiles. */
  lemma MirroredTotals(g: seq<seq<int>>)
    requires IsGrid(g)
    ensures IsGrid(Mirrored(g))
    ensures Total(Mirrored(g)) == Total(g)
    ensures Occupied(Mirrored(g)) == Occupied(g)
  {
    forall r | 0 <= r < Size
      ensures Sum(Mirrored(g)[r]) == Sum(g[r])
      ensures NonZeroCount(Mirrored(g)[r]) == NonZeroCount(g[r])
    {
      ReversedRow(g[r]);
    }
  }

  /** Left-merging rows of tiles leaves rows of tiles. */
  lemma MergedRowsKeepTiles(g: seq<seq<int>>)
    requires WellFormed(g)
    ensures WellFormed(MergedRows(g)) && WellFormed(Mirrored(g)) && WellFormed(Transposed(g))
  {
    forall r | 0 <= r < Size
      ensures forall c :: 0 <= c < Size ==> IsTile(MergedRows(g)[r][c])
    {
      MergeKeepsTiles(g[r]);
    }
  }

  // ---------------------------------------------------------------------------
  // Properties of the four moves

  /** A left move keeps the grid well formed and scores a non-negative
      number of points. */
  lemma SlideLeftKeepsWellFormed(g: seq<seq<int>>)
    requires WellFormed(g)
    ensures WellFormed(SlideLeft(g).grid) && SlideLeft(g).gain >= 0
  {
    MergedRowsKeepTiles(g);
  }

  /** A right move keeps the grid well formed and scores a non-negative
      number of points. */
  lemma SlideRightKeepsWellFormed(g: seq<seq<int>>)
    requires WellFormed(g)
    ensures WellFormed(SlideRight(g).grid) && SlideRight(g).gain >= 0
  {
    MergedRowsKeepTiles(g);
    MergedRowsKeepTiles(Mirrored(g));
    MergedRowsKeepTiles(MergedRows(Mirrored(g)));
  }

  /** An up move keeps the grid well formed and scores a non-negative
      number of points. */
  lemma SlideUpKeepsWellFormed(g: seq<seq<int>>)
    requires WellFormed(g)
    ensures WellFormed(SlideUp(g).grid) && SlideUp(g).gain >= 0
  {
    var t := Transposed(g);
    MergedRowsKeepTiles(g);
    SlideLeftKeepsWellFormed(t);
    MergedRowsKeepTiles(SlideLeft(t).grid);
  }

  /** A down move keeps the grid well formed and scores a non-negative
      number of points. */
  lemma SlideDownKeepsWellFormed(g: seq<seq<int>>)
    requires WellFormed(g)
    ensures WellFormed(SlideDown(g).grid) && SlideDown(g).gain >= 0
  {
    var t := Transposed(g);
    MergedRowsKeepTiles(g);
    SlideRightKeepsWellFormed(t);
    MergedRowsKeepTiles(SlideRight(t).grid);
  }

  /** Every move keeps the grid well formed and adds a non-negative number of
      points, so the score never decreases. */
  lemma SlidesKeepWellFormed(g: seq<seq<int>>)
    requires WellFormed(g)
    ensures WellFormed(SlideLeft(g).grid) && SlideLeft(g).gain >= 0
    ensures WellFormed(SlideRight(g).grid) && SlideRight(g).gain >= 0
    ensures WellFormed(SlideUp(g).grid) && SlideUp(g).gain >= 0
    ensures WellFormed(SlideDown(g).grid) && SlideDown(g).gain >= 0
  {
    SlideLeftKeepsWellFormed(g);
    SlideRightKeepsWellFormed(g);
    SlideUpKeepsWellFormed(g);
    SlideDownKeepsWellFormed(g);
  }

  /** No move creates or destroys value: the grid's total is conserved. */
  lemma SlidesConserveTotal(g: seq<seq<int>>)
    requires IsGrid(g)
    ensures Total(SlideLeft(g).grid) == Total(g)
    ensures Total(SlideRight(g).grid) == Total(g)
    ensures Total(SlideUp(g).grid) == Total(g)
    ensures Total(SlideDown(g).grid) == Total(g)
  {
    var t := Transposed(g);
    MergedRowsTotals(g);
    MirroredTotals(g);
    MergedRowsTotals(Mirrored(g));
    MirroredTotals(MergedRows(Mirrored(g)));
    TransposedTotals(g);
    MergedRowsTotals(t);
    TransposedTotals(MergedRows(t));
    MirroredTotals(t);
    MergedRowsTotals(Mirrored(t));
    MirroredTotals(MergedRows(Mirrored(t)));
    TransposedTotals(Mirrored(MergedRows(Mirrored(t))));
  }

  /** No move adds a tile: merges only ever remove them. */
  lemma SlidesNeverAddTiles(g: seq<seq<int>>)
    requires IsGrid(g)
    ensures Occupied(SlideLeft(g).grid) <= Occupied(g)
    ensures Occupied(SlideRight(g).grid) <= Occupied(g)
    ensures Occupied(SlideUp(g).grid) <= Occupied(g)
    ensures Occupied(SlideDown(g).grid) <= Occupied(g)
  {
    var t := Transposed(g);
    MergedRowsTotals(g);
    MirroredTotals(g);
    MergedRowsTotals(Mirrored(g));
    MirroredTotals(MergedRows(Mirrored(g)));
    TransposedTotals(g);
    MergedRowsTotals(t);
    TransposedTotals(MergedRows(t));
    MirroredTotals(t);
    MergedRowsTotals(Mirrored(t));
    MirroredTotals(MergedRows(Mirrored(t)));
    TransposedTotals(Mirrored(MergedRows(Mirrored(t))));
  }

  /** Moving up merges every column towards the top. */
  lemma SlideUpMergesColumns(g: seq<seq<int>>, c: int)
    requires IsGrid(g) && 0 <= c < Size
    ensures Column(SlideUp(g).grid, c) == MergeOf(Column(g, c)).row
  {
    var t := Transposed(g);
    TransposedRowIsColumn(g, c);
    TransposedRowIsColumn(MergedRows(t), c);
    TransposedTwice(MergedRows(t));
    assert Column(SlideUp(g).grid, c) == Transposed(SlideUp(g).grid)[c];
  }

  /** Moving down merges every column towards the bottom: the column is read
      bottom to top, merged, and written back. */
  lemma SlideDownMergesColumns(g: seq<seq<int>>, c: int)
    requires IsGrid(g) && 0 <= c < Size
    ensures Column(SlideDown(g).grid, c) == Reversed(MergeOf(Reversed(Column(g, c))).row)
  {
    var t := Transposed(g);
    var h := Mirrored(MergedRows(Mirrored(t)));
    TransposedRowIsColumn(g, c);
    TransposedTwice(h);
    assert Column(SlideDown(g).grid, c) == Transposed(SlideDown(g).grid)[c];
  }

  /** Row `r` after a right move is row `r` reversed, merged and reversed
      back; it scores the points of merging the reversed row. */
  lemma SlideRightRow(g: seq<seq<int>>, r: int)
    requires 0 <= r < |g|
    ensures Mirrored(g)[r] == Reversed(g[r])
    ensures SlideRight(g).grid[r] == Reversed(MergeOf(Reversed(g[r])).row)
  {
  }

  /** After a left move every row's tiles are packed to the left. */
  lemma SlideLeftPacksRows(g: seq<seq<int>>, r: int)
    requires IsGrid(g) && 0 <= r < Size
    ensures ZerosTrailing(SlideLeft(g).grid[r])
  {
    MergePacksLeft(g[r]);
  }

  /** After a right move every row's tiles are packed to the right: read
      right to left, the zeros come last. */
  lemma SlideRightPacksRows(g: seq<seq<int>>, r: int)
    requires IsGrid(g) && 0 <= r < Size
    ensures ZerosTrailing(Reversed(SlideRight(g).grid[r]))
  {
    var m := MergeOf(Reversed(g[r])).row;
    MergePacksLeft(Reversed(g[r]));
    assert SlideRight(g).grid[r] == Reversed(m);
    ReversedTwice(m);
  }

  /** After an up move every column's tiles are packed to the top. */
  lemma SlideUpPacksColumns(g: seq<seq<int>>, c: int)
    requires IsGrid(g) && 0 <= c < Size
    ensures ZerosTrailing(Column(SlideUp(g).grid, c))
  {
    SlideUpMergesColumns(g, c);
    MergePacksLeft(Column(g, c));
  }

  /** After a down move every column's tiles are packed to the bottom. */
  lemma SlideDownPacksColumns(g: seq<seq<int>>, c: int)
    requires IsGrid(g) && 0 <= c < Size
    ensures ZerosTrailing(Reversed(Column(SlideDown(g).grid, c)))
  {
    var d := MergeOf(Reversed(Column(g, c))).row;
    SlideDownMergesColumns(g, c);
    MergePacksLeft(Reversed(Column(g, c)));
    ReversedTwice(d);
  }

  /** Adding one more row to the rows merged so far adds that row's points. */
  lemma RowsGainPrefix(g: seq<seq<int>>, r: nat)
    requires r < |g|
    ensures RowsGain(g[..r + 1]) == RowsGain(g[..r]) + MergeOf(g[r]).scoreAdd
  {
    assert g[..r + 1][..r] == g[..r];
  }

  lemma {:induction false} RowsGainOfSettled(g: seq<seq<int>>)
    requires forall r :: 0 <= r < |g| ==> MergeOf(g[r]).scoreAdd == 0
    ensures RowsGain(g) == 0
  {
    if g != [] {
      RowsGainOfSettled(g[..|g| - 1]);
    }
  }

  /** A left move leaves the grid as it is exactly when every row is settled,
      and then it scores nothing. */
  lemma SlideLeftUnchangedIff(g: seq<seq<int>>)
    requires IsGrid(g)
    ensures SlideLeft(g).grid == g <==> forall r :: 0 <= r < Size ==> Settled(g[r])
    ensures (forall r :: 0 <= r < Size ==> Settled(g[r])) ==> SlideLeft(g).gain == 0
  {
    if forall r :: 0 <= r < Size ==> Settled(g[r]) {
      forall r | 0 <= r < Size ensures MergeOf(g[r]) == MergeResult(g[r], 0) {
        MergeUnchangedIff(g[r]);
      }
      RowsGainOfSettled(g);
      assert MergedRows(g) == g;
    }
    if SlideLeft(g).grid == g {
      forall r | 0 <= r < Size ensures Settled(g[r]) {
        assert MergeOf(g[r]).row == g[r];
        MergeUnchangedIff(g[r]);
      }
    }
  }
}
