/** The wide score matrix read from the input file: rows are omic2 features, columns
    omic1 features. The probability floor, the pruning of empty rows and columns and
    the unstacking to long form (xmmvec.py:243-251). */
module ScoreMatrix {
  import opened Wrappers
  import opened Seqs
  import opened LongForm

  datatype Matrix = Matrix(rowIds: seq<string>, colIds: seq<string>, cells: seq<seq<Option<int>>>)

  predicate Rectangular(m: Matrix)
  {
    |m.cells| == |m.rowIds| && forall i :: 0 <= i < |m.cells| ==> |m.cells[i]| == |m.colIds|
  }

  /** One cell after `ranks_pd[ranks_pd < floor] = nan`: a score below the floor becomes
      missing; a missing cell (NaN < floor is false) stays missing. */
  function Masked(c: Option<int>, floor: int): (r: Option<int>)
    ensures r.Some? ==> r == c && r.value >= floor
    ensures c.Some? && c.value >= floor ==> r == c
  {
    if c.Some? && c.value < floor then None else c
  }

  /** The masking step in place, cell by cell, as the boolean-mask assignment does. */
  method MaskBelowFloor(a: array2<Option<int>>, floor: int)
    modifies a
    ensures forall i, j :: 0 <= i < a.Length0 && 0 <= j < a.Length1 ==> a[i, j] == Masked(old(a[i, j]), floor)
  {
    var i := 0;
    while i < a.Length0
      invariant 0 <= i <= a.Length0
      invariant forall p, q :: 0 <= p < i && 0 <= q < a.Length1 ==> a[p, q] == Masked(old(a[p, q]), floor)
      invariant forall p, q :: i <= p < a.Length0 && 0 <= q < a.Length1 ==> a[p, q] == old(a[p, q])
    {
      var j := 0;
      while j < a.Length1
        invariant 0 <= j <= a.Length1
        invariant forall p, q :: 0 <= p < i && 0 <= q < a.Length1 ==> a[p, q] == Masked(old(a[p, q]), floor)
        invariant forall q :: 0 <= q < j ==> a[i, q] == Masked(old(a[i, q]), floor)
        invariant forall p, q :: i <= p < a.Length0 && 0 <= q < a.Length1 && (p > i || q >= j) ==> a[p, q] == old(a[p, q])
      {
        if a[i, j].Some? && a[i, j].value < floor {
          a[i, j] := None;
        }
        j := j + 1;
      }
      i := i + 1;
    }
  }

  /** The cells of a frame held in an array, row by row. */
  function Grid(a: array2<Option<int>>): (g: seq<seq<Option<int>>>)
    reads a
    ensures |g| == a.Length0
    ensures forall i :: 0 <= i < a.Length0 ==> |g[i]| == a.Length1
    ensures forall i, j :: 0 <= i < a.Length0 && 0 <= j < a.Length1 ==> g[i][j] == a[i, j]
  {
    seq(a.Length0, i requires 0 <= i < a.Length0 reads a =>
      seq(a.Length1, j requires 0 <= j < a.Length1 reads a => a[i, j]))
  }

  /** The value the masked matrix has: the same labels, every cell masked. */
  function FloorMatrix(m: Matrix, floor: int): (r: Matrix)
    requires Rectangular(m)
    ensures Rectangular(r) && r.rowIds == m.rowIds && r.colIds == m.colIds
    ensures forall i, j :: 0 <= i < |m.rowIds| && 0 <= j < |m.colIds| ==> r.cells[i][j] == Masked(m.cells[i][j], floor)
  {
    Matrix(m.rowIds, m.colIds,
      seq(|m.cells|, i requires 0 <= i < |m.cells| =>
        seq(|m.colIds|, j requires 0 <= j < |m.colIds| => Masked(m.cells[i][j], floor))))
  }

  /** After the floor no present cell is below it, and cells at or above it are kept. */
  lemma FloorKeepsOnlyScoresAtOrAbove(m: Matrix, floor: int, i: nat, j: nat)
    requires Rectangular(m) && i < |m.rowIds| && j < |m.colIds|
    ensures FloorMatrix(m, floor).cells[i][j].Some? <==> m.cells[i][j].Some? && m.cells[i][j].value >= floor
    ensures FloorMatrix(m, floor).cells[i][j].Some? ==> FloorMatrix(m, floor).cells[i][j] == m.cells[i][j]
  {
  }

  /** `~ranks_pd.isna().all(1)`: the row has a value. */
  predicate RowHasValue(m: Matrix, i: nat)
    requires Rectangular(m) && i < |m.rowIds|
  {
    exists j | 0 <= j < |m.colIds| :: m.cells[i][j].Some?
  }

  /** `~ranks_pd.isna().all()`: the column has a value. */
  predicate ColumnHasValue(m: Matrix, j: nat)
    requires Rectangular(m) && j < |m.colIds|
  {
    exists i | 0 <= i < |m.rowIds| :: m.cells[i][j].Some?
  }

  /** The positions of a boolean mask that hold true, ascending. */
  function Positions(flags: seq<bool>): (ks: seq<nat>)
    ensures forall k: nat :: k in ks <==> k < |flags| && flags[k]
    ensures forall a :: 0 <= a < |ks| ==> ks[a] < |flags|
    ensures forall a, b :: 0 <= a < b < |ks| ==> ks[a] < ks[b]
  {
    if flags == [] then []
    else
      var n := |flags| - 1;
      var p := Positions(flags[..n]);
      assert forall a :: 0 <= a < |p| ==> p[a] < n;
      p + (if flags[n] then [n] else [])
  }

  function KeptRows(m: Matrix): (ks: seq<nat>)
    requires Rectangular(m)
    ensures forall a :: 0 <= a < |ks| ==> ks[a] < |m.rowIds|
  {
    Positions(seq(|m.rowIds|, i requires 0 <= i < |m.rowIds| => RowHasValue(m, i)))
  }

  function KeptColumns(m: Matrix): (ks: seq<nat>)
    requires Rectangular(m)
    ensures forall a :: 0 <= a < |ks| ==> ks[a] < |m.colIds|
  {
    Positions(seq(|m.colIds|, j requires 0 <= j < |m.colIds| => ColumnHasValue(m, j)))
  }

  /** `ranks_pd.loc[rows, cols]`: the sub-matrix at the given row and column positions. */
  function Select(m: Matrix, ri: seq<nat>, ci: seq<nat>): (r: Matrix)
    requires Rectangular(m)
    requires forall a :: 0 <= a < |ri| ==> ri[a] < |m.rowIds|
    requires forall b :: 0 <= b < |ci| ==> ci[b] < |m.colIds|
    ensures Rectangular(r) && |r.rowIds| == |ri| && |r.colIds| == |ci|
  {
    Matrix(
      seq(|ri|, a requires 0 <= a < |ri| => m.rowIds[ri[a]]),
      seq(|ci|, b requires 0 <= b < |ci| => m.colIds[ci[b]]),
      seq(|ri|, a requires 0 <= a < |ri| =>
        seq(|ci|, b requires 0 <= b < |ci| => m.cells[ri[a]][ci[b]])))
  }

  /** Drops every row and every column that is entirely missing (both masks are taken
      on the same matrix, xmmvec.py:244-245). */
  function Prune(m: Matrix): (r: Matrix)
    requires Rectangular(m)
    ensures Rectangular(r)
  {
    Select(m, KeptRows(m), KeptColumns(m))
  }

  /** Pruning keeps a row (column) iff it has a value; the kept ones stay in order with
      their labels and cells, and each of them still has a value afterwards. */
  lemma PruneKeepsExactlyTheNonEmpty(m: Matrix)
    requires Rectangular(m)
    ensures forall i :: 0 <= i < |m.rowIds| ==> (i in KeptRows(m) <==> RowHasValue(m, i))
    ensures forall j :: 0 <= j < |m.colIds| ==> (j in KeptColumns(m) <==> ColumnHasValue(m, j))
    ensures forall a, b :: 0 <= a < b < |KeptRows(m)| ==> KeptRows(m)[a] < KeptRows(m)[b]
    ensures forall a, b :: 0 <= a < b < |KeptColumns(m)| ==> KeptColumns(m)[a] < KeptColumns(m)[b]
    ensures forall a :: 0 <= a < |KeptRows(m)| ==> Prune(m).rowIds[a] == m.rowIds[KeptRows(m)[a]]
    ensures forall b :: 0 <= b < |KeptColumns(m)| ==> Prune(m).colIds[b] == m.colIds[KeptColumns(m)[b]]
    ensures forall a, b :: 0 <= a < |KeptRows(m)| && 0 <= b < |KeptColumns(m)| ==>
      Prune(m).cells[a][b] == m.cells[KeptRows(m)[a]][KeptColumns(m)[b]]
    ensures forall a :: 0 <= a < |Prune(m).rowIds| ==> RowHasValue(Prune(m), a)
    ensures forall b :: 0 <= b < |Prune(m).colIds| ==> ColumnHasValue(Prune(m), b)
  {
    KeptPositions(m);
    PrunedCells(m);
    PrunedRowsHaveValues(m);
    PrunedColumnsHaveValues(m);
  }

  lemma KeptPositions(m: Matrix)
    requires Rectangular(m)
    ensures forall i :: 0 <= i < |m.rowIds| ==> (i in KeptRows(m) <==> RowHasValue(m, i))
    ensures forall j :: 0 <= j < |m.colIds| ==> (j in KeptColumns(m) <==> ColumnHasValue(m, j))
    ensures forall a, b :: 0 <= a < b < |KeptRows(m)| ==> KeptRows(m)[a] < KeptRows(m)[b]
    ensures forall a, b :: 0 <= a < b < |KeptColumns(m)| ==> KeptColumns(m)[a] < KeptColumns(m)[b]
  {
  }

  lemma PrunedCells(m: Matrix)
    requires Rectangular(m)
    ensures forall a :: 0 <= a < |KeptRows(m)| ==> Prune(m).rowIds[a] == m.rowIds[KeptRows(m)[a]]
    ensures forall b :: 0 <= b < |KeptColumns(m)| ==> Prune(m).colIds[b] == m.colIds[KeptColumns(m)[b]]
    ensures forall a, b :: 0 <= a < |KeptRows(m)| && 0 <= b < |KeptColumns(m)| ==>
      Prune(m).cells[a][b] == m.cells[KeptRows(m)[a]][KeptColumns(m)[b]]
  {
  }

  lemma PrunedRowsHaveValues(m: Matrix)
    requires Rectangular(m)
    ensures forall a :: 0 <= a < |Prune(m).rowIds| ==> RowHasValue(Prune(m), a)
  {
    var ri, ci, p := KeptRows(m), KeptColumns(m), Prune(m);
    KeptPositions(m);
    PrunedCells(m);
    forall a | 0 <= a < |p.rowIds| ensures RowHasValue(p, a) {
      var i := ri[a];
      assert i in ri;
      var j :| 0 <= j < |m.colIds| && m.cells[i][j].Some?;
      assert ColumnHasValue(m, j);
      var b :| 0 <= b < |ci| && ci[b] == j;
      assert p.cells[a][b] == m.cells[i][j];
    }
  }

  lemma PrunedColumnsHaveValues(m: Matrix)
    requires Rectangular(m)
    ensures forall b :: 0 <= b < |Prune(m).colIds| ==> ColumnHasValue(Prune(m), b)
  {
    var ri, ci, p := KeptRows(m), KeptColumns(m), Prune(m);
    KeptPositions(m);
    PrunedCells(m);
    forall b | 0 <= b < |p.colIds| ensures ColumnHasValue(p, b) {
      var j := ci[b];
      assert j in ci;
      var i :| 0 <= i < |m.rowIds| && m.cells[i][j].Some?;
      assert RowHasValue(m, i);
      var a :| 0 <= a < |ri| && ri[a] == i;
      assert p.cells[a][b] == m.cells[i][j];
    }
  }

  /** The records of one matrix column, down its rows. */
  function ColumnRecords(m: Matrix, j: nat): (rs: seq<Row>)
    requires Rectangular(m) && j < |m.colIds|
    ensures |rs| == |m.rowIds|
    ensures forall i :: 0 <= i < |m.rowIds| ==> rs[i] == Row(m.colIds[j], m.rowIds[i], m.cells[i][j], [], [])
  {
    seq(|m.rowIds|, i requires 0 <= i < |m.rowIds| => Row(m.colIds[j], m.rowIds[i], m.cells[i][j], [], []))
  }

  function ColumnBlocks(m: Matrix): (bs: seq<seq<Row>>)
    requires Rectangular(m)
    ensures |bs| == |m.colIds| && forall j :: 0 <= j < |m.colIds| ==> bs[j] == ColumnRecords(m, j)
  {
    seq(|m.colIds|, j requires 0 <= j < |m.colIds| => ColumnRecords(m, j))
  }

  /** `ranks_pd.unstack().reset_index()`: column by column, one record per cell with the
      column label as omic1, the row label as omic2 and the cell (missing or not) as
      `conditionals`. */
  function Unstack(m: Matrix, omic1: string, omic2: string): (t: LongTable)
    requires Rectangular(m)
    ensures Shaped(t) && t.omic1Name == omic1 && t.omic2Name == omic2
    ensures t.groupNames == [] && t.rankNames == []
  {
    var t := LongTable(omic1, omic2, [], [], Flatten(ColumnBlocks(m)));
    assert Shaped(t) by {
      forall r | r in t.rows ensures r.groups == [] && r.ranks == [] {
        FlattenMember(ColumnBlocks(m), r);
      }
    }
    t
  }

  /** The record of cell (i, j) sits at position j * rows + i. */
  ghost predicate CellRecordAt(m: Matrix, t: LongTable, j: nat, i: nat)
    requires Rectangular(m) && j < |m.colIds| && i < |m.rowIds|
  {
    j * |m.rowIds| + i < |t.rows| && t.rows[j * |m.rowIds| + i] == Row(m.colIds[j], m.rowIds[i], m.cells[i][j], [], [])
  }

  /** Unstacking yields exactly one record per cell: rows x columns records, the record of
      every cell at its place, and no record that is not a cell's. */
  lemma UnstackOneRecordPerCell(m: Matrix, omic1: string, omic2: string)
    requires Rectangular(m)
    ensures |Unstack(m, omic1, omic2).rows| == |m.rowIds| * |m.colIds|
    ensures forall j, i :: 0 <= j < |m.colIds| && 0 <= i < |m.rowIds| ==> CellRecordAt(m, Unstack(m, omic1, omic2), j, i)
    ensures forall r :: r in Unstack(m, omic1, omic2).rows ==>
      exists i, j :: 0 <= i < |m.rowIds| && 0 <= j < |m.colIds| && r == Row(m.colIds[j], m.rowIds[i], m.cells[i][j], [], [])
  {
    var bs := ColumnBlocks(m);
    var t := Unstack(m, omic1, omic2);
    FlattenUniform(bs, |m.rowIds|);
    assert |m.colIds| * |m.rowIds| == |m.rowIds| * |m.colIds|;
    forall j, i | 0 <= j < |m.colIds| && 0 <= i < |m.rowIds| ensures CellRecordAt(m, t, j, i) {
      assert PlacedAt(bs, |m.rowIds|, j, i);
    }
    forall r | r in t.rows
      ensures exists i, j :: 0 <= i < |m.rowIds| && 0 <= j < |m.colIds| && r == Row(m.colIds[j], m.rowIds[i], m.cells[i][j], [], [])
    {
      FlattenMember(bs, r);
      var j :| 0 <= j < |bs| && r in bs[j];
      var i :| 0 <= i < |bs[j]| && bs[j][i] == r;
      assert r == Row(m.colIds[j], m.rowIds[i], m.cells[i][j], [], []);
    }
  }

  // ----- the scores each step keeps -----

  /** The matrix holds score `x` in column `o1`, row `o2`. */
  ghost predicate CellScore(m: Matrix, o1: string, o2: string, x: int)
    requires Rectangular(m)
  {
    exists i, j :: 0 <= i < |m.rowIds| && 0 <= j < |m.colIds| &&
      m.rowIds[i] == o2 && m.colIds[j] == o1 && m.cells[i][j] == Some(x)
  }

  /** The floor keeps exactly the scores at or above it. */
  lemma FloorScores(m: Matrix, floor: int, o1: string, o2: string, x: int)
    requires Rectangular(m)
    ensures CellScore(FloorMatrix(m, floor), o1, o2, x) <==> CellScore(m, o1, o2, x) && floor <= x
  {
    var f := FloorMatrix(m, floor);
    if CellScore(m, o1, o2, x) && floor <= x {
      var i, j :| 0 <= i < |m.rowIds| && 0 <= j < |m.colIds| &&
        m.rowIds[i] == o2 && m.colIds[j] == o1 && m.cells[i][j] == Some(x);
      assert f.cells[i][j] == Some(x);
    }
  }

  /** Pruning drops only rows and columns without scores, so it keeps every score. */
  lemma PruneScores(m: Matrix, o1: string, o2: string, x: int)
    requires Rectangular(m)
    ensures CellScore(Prune(m), o1, o2, x) <==> CellScore(m, o1, o2, x)
  {
    if CellScore(Prune(m), o1, o2, x) {
      PrunedScoreIsCell(m, o1, o2, x);
    }
    if CellScore(m, o1, o2, x) {
      CellScoreIsPruned(m, o1, o2, x);
    }
  }

  lemma PrunedScoreIsCell(m: Matrix, o1: string, o2: string, x: int)
    requires Rectangular(m) && CellScore(Prune(m), o1, o2, x)
    ensures CellScore(m, o1, o2, x)
  {
    var p, ri, ci := Prune(m), KeptRows(m), KeptColumns(m);
    PruneKeepsExactlyTheNonEmpty(m);
    var a, b :| 0 <= a < |p.rowIds| && 0 <= b < |p.colIds| &&
      p.rowIds[a] == o2 && p.colIds[b] == o1 && p.cells[a][b] == Some(x);
    assert m.cells[ri[a]][ci[b]] == Some(x);
  }

  lemma CellScoreIsPruned(m: Matrix, o1: string, o2: string, x: int)
    requires Rectangular(m) && CellScore(m, o1, o2, x)
    ensures CellScore(Prune(m), o1, o2, x)
  {
    var p, ri, ci := Prune(m), KeptRows(m), KeptColumns(m);
    PruneKeepsExactlyTheNonEmpty(m);
    var i, j :| 0 <= i < |m.rowIds| && 0 <= j < |m.colIds| &&
      m.rowIds[i] == o2 && m.colIds[j] == o1 && m.cells[i][j] == Some(x);
    assert RowHasValue(m, i) && ColumnHasValue(m, j);
    var a :| 0 <= a < |ri| && ri[a] == i;
    var b :| 0 <= b < |ci| && ci[b] == j;
    assert p.cells[a][b] == Some(x);
  }

  /** The long form holds exactly the scores of the matrix. */
  lemma UnstackScores(m: Matrix, omic1: string, omic2: string, o1: string, o2: string, x: int)
    requires Rectangular(m)
    ensures HasScore(Unstack(m, omic1, omic2).rows, o1, o2, x) <==> CellScore(m, o1, o2, x)
  {
    if HasScore(Unstack(m, omic1, omic2).rows, o1, o2, x) {
      UnstackedScoreIsCell(m, omic1, omic2, o1, o2, x);
    }
    if CellScore(m, o1, o2, x) {
      CellScoreIsUnstacked(m, omic1, omic2, o1, o2, x);
    }
  }

  lemma UnstackedScoreIsCell(m: Matrix, omic1: string, omic2: string, o1: string, o2: string, x: int)
    requires Rectangular(m) && HasScore(Unstack(m, omic1, omic2).rows, o1, o2, x)
    ensures CellScore(m, o1, o2, x)
  {
    var t := Unstack(m, omic1, omic2);
    var r :| r in t.rows && r.omic1 == o1 && r.omic2 == o2 && r.conditionals == Some(x);
    FlattenMember(ColumnBlocks(m), r);
    var j :| 0 <= j < |m.colIds| && r in ColumnBlocks(m)[j];
    var i :| 0 <= i < |m.rowIds| && ColumnRecords(m, j)[i] == r;
  }

  lemma CellScoreIsUnstacked(m: Matrix, omic1: string, omic2: string, o1: string, o2: string, x: int)
    requires Rectangular(m) && CellScore(m, o1, o2, x)
    ensures HasScore(Unstack(m, omic1, omic2).rows, o1, o2, x)
  {
    var i, j :| 0 <= i < |m.rowIds| && 0 <= j < |m.colIds| &&
      m.rowIds[i] == o2 && m.colIds[j] == o1 && m.cells[i][j] == Some(x);
    var r := ColumnRecords(m, j)[i];
    assert r in ColumnBlocks(m)[j];
    FlattenMember(ColumnBlocks(m), r);
  }
}
