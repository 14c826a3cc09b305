/** The canonical left-merge of one row of the board (`Board.merge`). */
module RowMerge {

  /** Width and height of the board. */
  const Size := 4

  /** What merging one row produces: the new row and the points it scores. */
  datatype MergeResult = MergeResult(row: seq<int>, scoreAdd: int)

  function Sum(s: seq<int>): int
  {
    if s == [] then 0 else s[0] + Sum(s[1..])
  }

  /** 1 for an occupied cell, 0 for an empty one. */
  function Occupancy(v: int): nat
  {
    if v != 0 then 1 else 0
  }

  /** Number of occupied (non-zero) cells. */
  function NonZeroCount(s: seq<int>): (n: nat)
    ensures n <= |s|
  {
    if s == [] then 0 else Occupancy(s[0]) + NonZeroCount(s[1..])
  }

  function Zeros(n: nat): (z: seq<int>)
    ensures |z| == n && forall i :: 0 <= i < n ==> z[i] == 0
  {
    seq(n, _ => 0)
  }

  /** A power of two (1, 2, 4, ...). */
  predicate IsPowerOfTwo(v: int)
    decreases v
  {
    v == 1 || (v >= 2 && v % 2 == 0 && IsPowerOfTwo(v / 2))
  }

  /** A value a cell can hold: empty (0) or a tile 2, 4, 8, ... */
  predicate IsTile(v: int)
  {
    v == 0 || (v >= 2 && IsPowerOfTwo(v))
  }

  /** Every occupied cell comes before every empty one. */
  predicate ZerosTrailing(s: seq<int>)
  {
    forall i, j :: 0 <= i < j < |s| && s[i] == 0 ==> s[j] == 0
  }

  /** Some two neighbouring entries are equal. */
  predicate HasEqualNeighbours(s: seq<int>)
  {
    exists i :: 0 <= i && i + 1 < |s| && s[i] == s[i + 1]
  }

  /** A row a left-merge cannot change: its tiles are packed to the left and
      no two neighbouring tiles are equal. */
  predicate Settled(row: seq<int>)
  {
    ZerosTrailing(row) &&
    forall i :: 0 <= i && i + 1 < |row| && row[i] != 0 ==> row[i] != row[i + 1]
  }

  /** The row without its empty cells, in their original order. */
  function Compact(row: seq<int>): (dense: seq<int>)
    ensures |dense| == NonZeroCount(row)
    ensures forall i :: 0 <= i < |dense| ==> dense[i] != 0
    ensures forall x :: x in dense ==> x in row
  {
    if row == [] then []
    else if row[0] == 0 then
      assert row == [row[0]] + row[1..];
      Compact(row[1..])
    else
      assert row == [row[0]] + row[1..];
      [row[0]] + Compact(row[1..])
  }

  /** One left-to-right pass over a row without empty cells: a tile equal to
      its right neighbour absorbs it and becomes one tile of twice the value,
      scoring that value; the absorbed tile is skipped, so a tile produced in
      this pass never merges again. */
  function Combine(dense: seq<int>): (m: MergeResult)
    ensures |m.row| <= |dense| <= 2 * |m.row|
    decreases |dense|
  {
    if |dense| >= 2 && dense[0] == dense[1] then
      var rest := Combine(dense[2..]);
      MergeResult([2 * dense[0]] + rest.row, 2 * dense[0] + rest.scoreAdd)
    else if dense == [] then
      MergeResult([], 0)
    else
      var rest := Combine(dense[1..]);
      MergeResult([dense[0]] + rest.row, rest.scoreAdd)
  }

  /** The number of merges a pass over a row without empty cells performs:
      a pair of equal neighbours counts once and both its tiles are consumed. */
  function MergeCount(dense: seq<int>): nat
    decreases |dense|
  {
    if |dense| >= 2 && dense[0] == dense[1] then 1 + MergeCount(dense[2..])
    else if dense == [] then 0
    else MergeCount(dense[1..])
  }

  /** `[0] * (4 - len(s))` appended: short rows are filled up with empty cells;
      a longer row is left as it is, as the repetition count is then negative. */
  function Padded(s: seq<int>): (p: seq<int>)
    ensures |s| <= Size ==> |p| == Size
    ensures |s| >= Size ==> p == s
  {
    s + Zeros(if |s| < Size then Size - |s| else 0)
  }

  /** The specification of `Board.merge`: compact, combine, pad. */
  function MergeOf(row: seq<int>): (m: MergeResult)
    ensures |row| <= Size ==> |m.row| == Size
  {
    var c := Combine(Compact(row));
    MergeResult(Padded(c.row), c.scoreAdd)
  }

  /** One step of `Combine` at position `i` of a row. */
  lemma CombineAt(dense: seq<int>, i: nat)
    requires i < |dense|
    ensures var d := dense[i..];
      if i + 1 < |dense| && dense[i] == dense[i + 1] then
        Combine(d) == MergeResult([2 * dense[i]] + Combine(dense[i + 2..]).row,
                                  2 * dense[i] + Combine(dense[i + 2..]).scoreAdd)
      else
        Combine(d) == MergeResult([dense[i]] + Combine(dense[i + 1..]).row,
                                  Combine(dense[i + 1..]).scoreAdd)
  {
    assert dense[i..][1..] == dense[i + 1..];
    if i + 1 < |dense| {
      assert dense[i..][2..] == dense[i + 2..];
    }
  }

  /** The tiles and points of a pass so far, followed by the rest of the pass. */
  function Prepend(done: seq<int>, points: int, rest: MergeResult): MergeResult
  {
    MergeResult(done + rest.row, points + rest.scoreAdd)
  }

  lemma PrependOne(done: seq<int>, points: int, tile: int, gained: int, rest: MergeResult)
    ensures Prepend(done, points, MergeResult([tile] + rest.row, gained + rest.scoreAdd))
         == Prepend(done + [tile], points + gained, rest)
  {
    assert done + ([tile] + rest.row) == done + [tile] + rest.row;
  }

  /** One iteration of the scan in `Board.merge` at position `i`: the pass so
      far (`done`, `points`) followed by the rest of the pass from `i` is the
      pass so far extended by this iteration's tile, followed by the rest of
      the pass after the tiles this iteration consumes. */
  lemma MergeStep(dense: seq<int>, i: nat, done: seq<int>, points: int)
    requires i < |dense|
    ensures i + 1 < |dense| && dense[i] == dense[i + 1] ==>
      Prepend(done, points, Combine(dense[i..]))
        == Prepend(done + [2 * dense[i]], points + 2 * dense[i], Combine(dense[i + 2..]))
    ensures !(i + 1 < |dense| && dense[i] == dense[i + 1]) ==>
      Prepend(done, points, Combine(dense[i..]))
        == Prepend(done + [dense[i]], points, Combine(dense[i + 1..]))
  {
    CombineAt(dense, i);
    if i + 1 < |dense| && dense[i] == dense[i + 1] {
      PrependOne(done, points, 2 * dense[i], 2 * dense[i], Combine(dense[i + 2..]));
    } else {
      PrependOne(done, points, dense[i], 0, Combine(dense[i + 1..]));
    }
  }

  /** `Board.merge`: drop the zeros, scan once with a `skip` flag, pad to four. */
  method Merge(row: seq<int>) returns (mergedRow: seq<int>, scoreAdd: int)
    ensures MergeResult(mergedRow, scoreAdd) == MergeOf(row)
  {
    var newRow := Compact(row);
    mergedRow := [];
    var skip := false;
    scoreAdd := 0;
    assert newRow[0..] == newRow;
    for i := 0 to |newRow|
      invariant skip ==> 0 < i < |newRow|
      invariant Combine(newRow) == Prepend(mergedRow, scoreAdd, Combine(newRow[if skip then i + 1 else i..]))
    {
      if skip {
        skip := false;
        continue;
      }
      MergeStep(newRow, i, mergedRow, scoreAdd);
      if i < |newRow| - 1 && newRow[i] == newRow[i + 1] {
        var mergedValue := newRow[i] * 2;
        mergedRow := mergedRow + [mergedValue];
        scoreAdd := scoreAdd + mergedValue;
        skip := true;
      } else {
        mergedRow := mergedRow + [newRow[i]];
      }
    }
    assert newRow[|newRow|..] == [];
    assert Prepend(mergedRow, scoreAdd, MergeResult([], 0)) == MergeResult(mergedRow, scoreAdd);
    mergedRow := mergedRow + Zeros(if |mergedRow| < Size then Size - |mergedRow| else 0);
  }

  // ---------------------------------------------------------------------------
  // Facts about sums and counts of rows

  lemma {:induction false} SumAppend(a: seq<int>, b: seq<int>)
    ensures Sum(a + b) == Sum(a) + Sum(b)
  {
    if a == [] {
      assert a + b == b;
    } else {
      assert (a + b)[1..] == a[1..] + b;
      SumAppend(a[1..], b);
    }
  }

  lemma {:induction false} NonZeroCountAppend(a: seq<int>, b: seq<int>)
    ensures NonZeroCount(a + b) == NonZeroCount(a) + NonZeroCount(b)
  {
    if a == [] {
      assert a + b == b;
    } else {
      assert (a + b)[1..] == a[1..] + b;
      NonZeroCountAppend(a[1..], b);
    }
  }

  /** Writing one cell changes the count by that cell's occupancy only. */
  lemma {:induction false} NonZeroCountUpdate(s: seq<int>, i: int, v: int)
    requires 0 <= i < |s|
    ensures NonZeroCount(s[i := v]) == NonZeroCount(s) - Occupancy(s[i]) + Occupancy(v)
  {
    if i > 0 {
      assert s[i := v][1..] == s[1..][i - 1 := v];
      NonZeroCountUpdate(s[1..], i - 1, v);
    } else {
      assert s[i := v][1..] == s[1..];
    }
  }

  /** Writing one cell changes the sum by the difference of the values only. */
  lemma {:induction false} SumUpdate(s: seq<int>, i: int, v: int)
    requires 0 <= i < |s|
    ensures Sum(s[i := v]) == Sum(s) - s[i] + v
  {
    if i > 0 {
      assert s[i := v][1..] == s[1..][i - 1 := v];
      SumUpdate(s[1..], i - 1, v);
    } else {
      assert s[i := v][1..] == s[1..];
    }
  }

  lemma {:induction false} ZerosFacts(n: nat)
    ensures Sum(Zeros(n)) == 0 && NonZeroCount(Zeros(n)) == 0 && Compact(Zeros(n)) == []
  {
    if n > 0 {
      assert Zeros(n)[1..] == Zeros(n - 1);
      ZerosFacts(n - 1);
    }
  }

  /** Dropping the empty cells does not change the row's total. */
  lemma {:induction false} CompactSum(row: seq<int>)
    ensures Sum(Compact(row)) == Sum(row)
  {
    if row != [] {
      CompactSum(row[1..]);
    }
  }

  /** A row without empty cells is its own compaction. */
  lemma {:induction false} CompactOfDense(dense: seq<int>)
    requires forall i :: 0 <= i < |dense| ==> dense[i] != 0
    ensures Compact(dense) == dense
  {
    if dense != [] {
      CompactOfDense(dense[1..]);
    }
  }

  lemma {:induction false} CompactAppend(a: seq<int>, b: seq<int>)
    ensures Compact(a + b) == Compact(a) + Compact(b)
  {
    if a == [] {
      assert a + b == b;
    } else {
      assert (a + b)[1..] == a[1..] + b;
      CompactAppend(a[1..], b);
    }
  }

  /** A row with its tiles packed to the left is its compaction followed by
      empty cells. */
  lemma {:induction false} PackedRow(row: seq<int>)
    requires ZerosTrailing(row)
    ensures row == Compact(row) + Zeros(|row| - NonZeroCount(row))
  {
    if row == [] {
    } else if row[0] == 0 {
      assert forall j :: 0 <= j < |row| ==> row[j] == 0;
      assert row == Zeros(|row|);
      ZerosFacts(|row|);
    } else {
      PackedRow(row[1..]);
    }
  }

  // ---------------------------------------------------------------------------
  // Facts about one pass over a dense row

  /** Merging conserves the total value of the tiles. */
  lemma {:induction false} CombineConservesSum(dense: seq<int>)
    ensures Sum(Combine(dense).row) == Sum(dense)
  {
    if |dense| >= 2 && dense[0] == dense[1] {
      CombineConservesSum(dense[2..]);
      assert dense[1..][1..] == dense[2..];
    } else if dense != [] {
      CombineConservesSum(dense[1..]);
    }
  }

  /** Tiles stay tiles: a merge of two equal powers of two is a power of two,
      and a pass over a row without empty cells leaves none. */
  lemma {:induction false} CombineKeepsTiles(dense: seq<int>)
    requires forall i :: 0 <= i < |dense| ==> dense[i] != 0 && IsTile(dense[i])
    ensures forall i :: 0 <= i < |Combine(dense).row| ==>
      Combine(dense).row[i] != 0 && IsTile(Combine(dense).row[i])
  {
    if |dense| >= 2 && dense[0] == dense[1] {
      CombineKeepsTiles(dense[2..]);
      assert IsPowerOfTwo(2 * dense[0]);
    } else if dense != [] {
      CombineKeepsTiles(dense[1..]);
    }
  }

  /** The points of a pass over positive tiles: never negative, never more than
      the row's total (each tile takes part in at most one merge), and zero
      exactly when no merge happened. */
  lemma {:induction false} CombineScore(dense: seq<int>)
    requires forall i :: 0 <= i < |dense| ==> dense[i] > 0
    ensures 0 <= Combine(dense).scoreAdd <= Sum(dense)
    ensures Combine(dense).scoreAdd == 0 <==> |Combine(dense).row| == |dense|
  {
    if |dense| >= 2 && dense[0] == dense[1] {
      CombineScore(dense[2..]);
      assert dense[1..][1..] == dense[2..];
    } else if dense != [] {
      CombineScore(dense[1..]);
    }
  }

  /** Every merge turns two tiles into one. */
  lemma {:induction false} CombineMergeCount(dense: seq<int>)
    ensures |Combine(dense).row| == |dense| - MergeCount(dense)
  {
    if |dense| >= 2 && dense[0] == dense[1] {
      CombineMergeCount(dense[2..]);
    } else if dense != [] {
      CombineMergeCount(dense[1..]);
    }
  }

  /** A pass merges something exactly when two neighbours are equal; when none
      are, it returns the row unchanged and scores nothing. */
  lemma {:induction false} CombineChangesIff(dense: seq<int>)
    ensures |Combine(dense).row| < |dense| <==> HasEqualNeighbours(dense)
    ensures !HasEqualNeighbours(dense) ==> Combine(dense) == MergeResult(dense, 0)
  {
    if |dense| >= 2 && dense[0] == dense[1] {
      assert HasEqualNeighbours(dense) by { assert dense[0] == dense[0 + 1]; }
    } else if dense != [] {
      var tail := dense[1..];
      CombineChangesIff(tail);
      if HasEqualNeighbours(tail) {
        var i :| 0 <= i && i + 1 < |tail| && tail[i] == tail[i + 1];
        assert dense[i + 1] == dense[(i + 1) + 1];
      }
      if HasEqualNeighbours(dense) {
        var i :| 0 <= i && i + 1 < |dense| && dense[i] == dense[i + 1];
        assert i > 0;
        assert tail[i - 1] == tail[(i - 1) + 1];
      }
    }
  }

  // ---------------------------------------------------------------------------
  // Properties of `Board.merge`

  /** The merged row holds exactly the same total value as the input row. */
  lemma MergeConservesSum(row: seq<int>)
    ensures Sum(MergeOf(row).row) == Sum(row)
  {
    var c := Combine(Compact(row));
    CompactSum(row);
    CombineConservesSum(Compact(row));
    SumAppend(c.row, Zeros(if |c.row| < Size then Size - |c.row| else 0));
    ZerosFacts(if |c.row| < Size then Size - |c.row| else 0);
  }

  /** The merged row is packed to the left: its tiles, in order, are the result
      of the pass over the input's tiles, and only empty cells follow them. */
  lemma MergePacksLeft(row: seq<int>)
    ensures ZerosTrailing(MergeOf(row).row)
    ensures Compact(MergeOf(row).row) == Combine(Compact(row)).row
    ensures NonZeroCount(MergeOf(row).row) == |Combine(Compact(row)).row|
  {
    var c := Combine(Compact(row));
    var n := if |c.row| < Size then Size - |c.row| else 0;
    CombineKeepsNonZero(Compact(row));
    CompactAppend(c.row, Zeros(n));
    CompactOfDense(c.row);
    ZerosFacts(n);
    NonZeroCountAppend(c.row, Zeros(n));
    var r := MergeOf(row).row;
    forall i, j | 0 <= i < j < |r| && r[i] == 0 ensures r[j] == 0 {
      assert i >= |c.row|;
    }
  }

  lemma {:induction false} CombineKeepsNonZero(dense: seq<int>)
    requires forall i :: 0 <= i < |dense| ==> dense[i] != 0
    ensures forall i :: 0 <= i < |Combine(dense).row| ==> Combine(dense).row[i] != 0
  {
    if |dense| >= 2 && dense[0] == dense[1] {
      CombineKeepsNonZero(dense[2..]);
    } else if dense != [] {
      CombineKeepsNonZero(dense[1..]);
    }
  }

  /** Each merge removes exactly one tile: the merged row has the input's
      tiles less the number of merges, so never more tiles than the input, at
      least half as many, and fewer exactly when two of the input's tiles were
      neighbours of equal value once the gaps are closed. */
  lemma MergeTileCount(row: seq<int>)
    ensures NonZeroCount(MergeOf(row).row) == NonZeroCount(row) - MergeCount(Compact(row))
    ensures NonZeroCount(MergeOf(row).row) <= NonZeroCount(row) <= 2 * NonZeroCount(MergeOf(row).row)
    ensures NonZeroCount(MergeOf(row).row) < NonZeroCount(row) <==> HasEqualNeighbours(Compact(row))
  {
    MergePacksLeft(row);
    CombineMergeCount(Compact(row));
    CombineChangesIff(Compact(row));
  }

  /** Points scored by a merge of non-negative cells: never negative, at most
      the row's total (no tile is counted in two merges), and zero exactly when
      the number of tiles did not change. */
  lemma MergeScore(row: seq<int>)
    requires forall i :: 0 <= i < |row| ==> row[i] >= 0
    ensures 0 <= MergeOf(row).scoreAdd <= Sum(row)
    ensures MergeOf(row).scoreAdd == 0 <==> NonZeroCount(MergeOf(row).row) == NonZeroCount(row)
  {
    var dense := Compact(row);
    assert forall i :: 0 <= i < |dense| ==> dense[i] > 0 by {
      forall i | 0 <= i < |dense| ensures dense[i] > 0 {
        assert dense[i] in dense;
      }
    }
    CombineScore(dense);
    CompactSum(row);
    MergePacksLeft(row);
  }

  /** Merging keeps every cell a valid tile value. */
  lemma MergeKeepsTiles(row: seq<int>)
    requires forall i :: 0 <= i < |row| ==> IsTile(row[i])
    ensures forall i :: 0 <= i < |MergeOf(row).row| ==> IsTile(MergeOf(row).row[i])
  {
    var dense := Compact(row);
    assert forall i :: 0 <= i < |dense| ==> IsTile(dense[i]) by {
      forall i | 0 <= i < |dense| ensures IsTile(dense[i]) {
        assert dense[i] in dense;
      }
    }
    CombineKeepsTiles(dense);
  }

  /** A settled row is left as it is and scores nothing. */
  lemma SettledRowUnchanged(row: seq<int>)
    requires |row| == Size && Settled(row)
    ensures MergeOf(row) == MergeResult(row, 0)
  {
    var dense := Compact(row);
    var k := NonZeroCount(row);
    PackedRow(row);
    assert row[..k] == dense;
    forall i | 0 <= i && i + 1 < |dense| ensures dense[i] != dense[i + 1] {
      assert row[i] == dense[i] && row[i + 1] == dense[i + 1];
    }
    CombineChangesIff(dense);
  }

  /** A four-cell row a merge leaves as it is is settled. */
  lemma UnchangedRowSettled(row: seq<int>)
    requires |row| == Size && MergeOf(row).row == row
    ensures Settled(row)
  {
    var dense := Compact(row);
    var k := NonZeroCount(row);
    MergePacksLeft(row);
    MergeTileCount(row);
    PackedRow(row);
    assert row[..k] == dense;
    assert !HasEqualNeighbours(dense);
    forall i | 0 <= i && i + 1 < |row| && row[i] != 0 ensures row[i] != row[i + 1] {
      if i + 1 < k {
        assert dense[i] == row[i] && dense[i + 1] == row[i + 1];
      } else {
        assert i < k;
        assert row[i + 1] == 0;
      }
    }
  }

  /** A four-cell row is left as it is exactly when it is settled: packed to
      the left with no two equal neighbouring tiles; it then scores nothing. */
  lemma MergeUnchangedIff(row: seq<int>)
    requires |row| == Size
    ensures MergeOf(row).row == row <==> Settled(row)
    ensures Settled(row) ==> MergeOf(row).scoreAdd == 0
  {
    if Settled(row) {
      SettledRowUnchanged(row);
    }
    if MergeOf(row).row == row {
      UnchangedRowSettled(row);
    }
  }

  /** The precedence rule on the standard rows: a tile made in this pass does
      not merge again, and merging goes from the left. */
  lemma MergeExamples()
    ensures MergeOf([2, 2, 2, 0]) == MergeResult([4, 2, 0, 0], 4)
    ensures MergeOf([2, 2, 2, 2]) == MergeResult([4, 4, 0, 0], 8)
  {
  }

  /** Gaps close before tiles meet, and two pairs in a row both merge. */
  lemma MergeGapExamples()
    ensures MergeOf([0, 2, 0, 2]) == MergeResult([4, 0, 0, 0], 4)
    ensures MergeOf([4, 4, 8, 8]) == MergeResult([8, 16, 0, 0], 24)
  {
  }

  /** Merging is not idempotent: a row produced by a merge can merge again. */
  lemma MergeNotIdempotent()
    ensures MergeOf([2, 2, 4, 0]).row == [4, 4, 0, 0]
    ensures MergeOf([4, 4, 0, 0]).row == [8, 0, 0, 0]
  {
  }
}
