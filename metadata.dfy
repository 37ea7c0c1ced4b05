/** The per-axis metadata: the axis name, the resolution of the stratification column
    and the left join of that column onto the long-form table (xmmvec.py:23-56). */
module Metadata {
  import opened Wrappers
  import opened Seqs
  import opened LongForm

  /** `get_name`: the user's axis name, or the default when none was given. */
  function GetName(given: string, omic: string): (name: string)
    ensures name == given || name == omic
    ensures name == given <==> given != "" || omic == ""
  {
    if given != "" then given else omic
  }

  /** A metadata table as `read_csv` returns it: named columns and rows of text cells,
      `None` for an empty cell. */
  datatype MetadataTable = MetadataTable(columns: seq<string>, rows: seq<seq<Option<string>>>)

  predicate WellFormedMetadata(md: MetadataTable)
  {
    forall row | row in md.rows :: |row| == |md.columns|
  }

  /** `rename(columns={first: omic})`: every column named like the first one takes the
      axis name. */
  function RenameFirst(header: seq<string>, omic: string): (cols: seq<string>)
    requires |header| > 0
    ensures |cols| == |header| && cols[0] == omic
    ensures forall k :: 0 <= k < |header| && header[k] != header[0] ==> cols[k] == header[k]
  {
    seq(|header|, k requires 0 <= k < |header| => if header[k] == header[0] then omic else header[k])
  }

  /** `get_metadata` on an already read file (`header`, `rows`): no path gives the empty
      table and ''; a file without a header line fails; otherwise the first column is
      renamed to the axis name and `column` is kept only if it is one of the columns
      after the first. */
  function GetMetadata(path: string, header: seq<string>, rows: seq<seq<Option<string>>>,
                       column: string, omic: string): (r: Result<(MetadataTable, string)>)
    ensures path == "" ==> r == Ok((MetadataTable([], []), ""))
    ensures path != "" && header == [] ==> r == Fail(EmptyMetadataFile)
    ensures r.Ok? && path != "" ==>
      var (md, resolved) := r.value;
      md.rows == rows && |md.columns| == |header| && md.columns[0] == omic &&
      (resolved == column || resolved == "") &&
      (resolved != "" <==> column != "" && column in md.columns[1..])
  {
    if path == "" then Ok((MetadataTable([], []), ""))
    else if header == [] then Fail(EmptyMetadataFile)
    else
      var cols := RenameFirst(header, omic);
      Ok((MetadataTable(cols, rows), if column != "" && column in cols[1..] then column else ""))
  }

  /** With distinct header names the columns after the first keep their names, so the
      stratify column is resolved exactly when it names one of them. */
  lemma ResolvedColumnIsAnotherColumn(path: string, header: seq<string>, rows: seq<seq<Option<string>>>,
                                      column: string, omic: string)
    requires path != "" && header != [] && NoDuplicates(header)
    ensures GetMetadata(path, header, rows, column, omic).Ok?
    ensures GetMetadata(path, header, rows, column, omic).value.0.columns == [omic] + header[1..]
    ensures GetMetadata(path, header, rows, column, omic).value.1 ==
      (if column != "" && column in header[1..] then column else "")
  {
    var cols := RenameFirst(header, omic);
    forall k | 1 <= k < |header| ensures cols[k] == header[k] {
      assert header[k] != header[0];
    }
    assert cols == [omic] + header[1..];
  }

  /** `omic_metadata[[omic, omic_column]]`, row by row: (id, group value). */
  function IdAndColumn(md: MetadataTable, omic: string, column: string): (pairs: seq<(Option<string>, Option<string>)>)
    requires WellFormedMetadata(md) && omic in md.columns && column in md.columns
    ensures |pairs| == |md.rows|
  {
    var ki, vi := FirstIndex(md.columns, omic), FirstIndex(md.columns, column);
    seq(|md.rows|, i requires 0 <= i < |md.rows| =>
      assert md.rows[i] in md.rows; (md.rows[i][ki], md.rows[i][vi]))
  }

  /** The group value a join result carries: the matched row's value, or missing. */
  function GroupValue(m: Option<(Option<string>, Option<string>)>): Option<string>
  {
    if m.Some? then m.value.1 else None
  }

  /** A row with one more group column. */
  function WithGroup(r: Row, v: Option<string>): Row
  {
    r.(groups := r.groups + [v])
  }

  function MergedRows(rows: seq<Row>, pairs: seq<(Option<string>, Option<string>)>, axis: Axis): (rs: seq<Row>)
  {
    var joined := LeftJoin(rows, pairs, (r: Row) => Some(Id(r, axis)), (p: (Option<string>, Option<string>)) => p.0);
    seq(|joined|, i requires 0 <= i < |joined| => WithGroup(joined[i].0, GroupValue(joined[i].1)))
  }

  /** `merge_metadata`: with no resolved column the table comes back unchanged with '';
      otherwise the column is left-joined on the axis id and renamed '<column>_<omic>'. */
  function MergeMetadata(t: LongTable, md: MetadataTable, column: string, axis: Axis): (res: (LongTable, string))
    requires Shaped(t) && WellFormedMetadata(md)
    requires column != "" ==> AxisName(t, axis) in md.columns && column in md.columns
    ensures column == "" ==> res == (t, "")
    ensures column != "" ==> res.1 == column + "_" + AxisName(t, axis) && res.0.groupNames == t.groupNames + [res.1]
    ensures Shaped(res.0)
    ensures res.0.omic1Name == t.omic1Name && res.0.omic2Name == t.omic2Name && res.0.rankNames == t.rankNames
  {
    if column == "" then (t, "")
    else
      var pairs := IdAndColumn(md, AxisName(t, axis), column);
      var rows := MergedRows(t.rows, pairs, axis);
      var name := column + "_" + AxisName(t, axis);
      MergedRowsShape(t, pairs, axis);
      (t.(groupNames := t.groupNames + [name], rows := rows), name)
  }

  lemma MergedRowsShape(t: LongTable, pairs: seq<(Option<string>, Option<string>)>, axis: Axis)
    requires Shaped(t)
    ensures forall o | o in MergedRows(t.rows, pairs, axis) :: |o.groups| == |t.groupNames| + 1 && |o.ranks| == |t.rankNames|
  {
    var lk := (r: Row) => Some(Id(r, axis));
    var rk := (p: (Option<string>, Option<string>)) => p.0;
    var joined := LeftJoin(t.rows, pairs, lk, rk);
    forall o | o in MergedRows(t.rows, pairs, axis) ensures |o.groups| == |t.groupNames| + 1 && |o.ranks| == |t.rankNames| {
      var i :| 0 <= i < |joined| && o == WithGroup(joined[i].0, GroupValue(joined[i].1));
      assert joined[i] in joined;
      LeftJoinMembers(t.rows, pairs, lk, rk, joined[i]);
    }
  }

  /** No id appears in two rows of the metadata (rows with an empty id match nothing and
      may repeat). */
  predicate UniqueIds(md: MetadataTable, omic: string, column: string)
    requires WellFormedMetadata(md) && omic in md.columns && column in md.columns
  {
    var pairs := IdAndColumn(md, omic, column);
    forall i, j :: 0 <= i < |pairs| && 0 <= j < |pairs| && pairs[i].0.Some? && pairs[i].0 == pairs[j].0 ==> i == j
  }

  /** The group value the metadata gives an id: that of its row, or missing when no row
      has the id. */
  function GroupOf(md: MetadataTable, omic: string, column: string, id: string): Option<string>
    requires WellFormedMetadata(md) && omic in md.columns && column in md.columns
  {
    GroupValue(Lookup(IdAndColumn(md, omic, column), (p: (Option<string>, Option<string>)) => p.0, Some(id)))
  }

  /** With unique metadata ids the merge keeps every row, in order, and adds the group
      value of its id (missing when the id has no metadata row). */
  lemma MergeKeepsRowsWhenIdsUnique(t: LongTable, md: MetadataTable, column: string, axis: Axis)
    requires Shaped(t) && WellFormedMetadata(md)
    requires column != "" && AxisName(t, axis) in md.columns && column in md.columns
    requires UniqueIds(md, AxisName(t, axis), column)
    ensures |MergeMetadata(t, md, column, axis).0.rows| == |t.rows|
    ensures forall i :: 0 <= i < |t.rows| ==>
      MergeMetadata(t, md, column, axis).0.rows[i] ==
        WithGroup(t.rows[i], GroupOf(md, AxisName(t, axis), column, Id(t.rows[i], axis)))
  {
    var pairs := IdAndColumn(md, AxisName(t, axis), column);
    var lk := (r: Row) => Some(Id(r, axis));
    var rk := (p: (Option<string>, Option<string>)) => p.0;
    forall i | 0 <= i < |t.rows| ensures KeyAtMostOnce(pairs, rk, lk(t.rows[i])) {
      assert lk(t.rows[i]).Some?;
    }
    LeftJoinOfKeysFoundOnce(t.rows, pairs, lk, rk);
  }

  /** Every merged row is a row of the table with one group value added, and the value is
      that of a metadata row with the same id, or missing. */
  lemma MergedRowsComeFromTable(t: LongTable, md: MetadataTable, column: string, axis: Axis, o: Row)
    requires Shaped(t) && WellFormedMetadata(md)
    requires column != "" && AxisName(t, axis) in md.columns && column in md.columns
    requires o in MergeMetadata(t, md, column, axis).0.rows
    ensures exists r, v :: (r in t.rows && o == WithGroup(r, v) &&
                            (v.Some? ==> (Some(Id(r, axis)), v) in IdAndColumn(md, AxisName(t, axis), column)) &&
                            (v.None? ==> (Some(Id(r, axis)), None) in IdAndColumn(md, AxisName(t, axis), column) ||
                                         forall p :: p in IdAndColumn(md, AxisName(t, axis), column) ==> p.0 != Some(Id(r, axis))))
  {
    var pairs := IdAndColumn(md, AxisName(t, axis), column);
    var lk := (r: Row) => Some(Id(r, axis));
    var rk := (p: (Option<string>, Option<string>)) => p.0;
    var joined := LeftJoin(t.rows, pairs, lk, rk);
    var i :| 0 <= i < |joined| && o == WithGroup(joined[i].0, GroupValue(joined[i].1));
    assert joined[i] in joined;
    LeftJoinMembers(t.rows, pairs, lk, rk, joined[i]);
    var r, v := joined[i].0, GroupValue(joined[i].1);
    if joined[i].1.Some? {
      assert joined[i].1.value == (Some(Id(r, axis)), v);
    }
  }

  /** No row is lost: every row of the table comes out with some group value. */
  lemma MergeKeepsEveryRow(t: LongTable, md: MetadataTable, column: string, axis: Axis, r: Row)
    requires Shaped(t) && WellFormedMetadata(md)
    requires column != "" && AxisName(t, axis) in md.columns && column in md.columns
    requires r in t.rows
    ensures exists v :: WithGroup(r, v) in MergeMetadata(t, md, column, axis).0.rows
  {
    var pairs := IdAndColumn(md, AxisName(t, axis), column);
    var lk := (r: Row) => Some(Id(r, axis));
    var rk := (p: (Option<string>, Option<string>)) => p.0;
    var joined := LeftJoin(t.rows, pairs, lk, rk);
    var p := (r, Lookup(pairs, rk, lk(r)));
    LeftJoinMembers(t.rows, pairs, lk, rk, p);
    var i :| 0 <= i < |joined| && joined[i] == p;
    assert MergedRows(t.rows, pairs, axis)[i] == WithGroup(r, GroupValue(p.1));
  }

  /** The merge keeps exactly the scores of the table. */
  lemma MergeScores(t: LongTable, md: MetadataTable, column: string, axis: Axis, o1: string, o2: string, x: int)
    requires Shaped(t) && WellFormedMetadata(md)
    requires column != "" ==> AxisName(t, axis) in md.columns && column in md.columns
    ensures HasScore(MergeMetadata(t, md, column, axis).0.rows, o1, o2, x) <==> HasScore(t.rows, o1, o2, x)
  {
    if column != "" {
      var rows := MergeMetadata(t, md, column, axis).0.rows;
      if HasScore(rows, o1, o2, x) {
        var o :| o in rows && o.omic1 == o1 && o.omic2 == o2 && o.conditionals == Some(x);
        MergedRowsComeFromTable(t, md, column, axis, o);
      }
      if HasScore(t.rows, o1, o2, x) {
        var r :| r in t.rows && r.omic1 == o1 && r.omic2 == o2 && r.conditionals == Some(x);
        MergeKeepsEveryRow(t, md, column, axis, r);
        var v :| WithGroup(r, v) in rows;
      }
    }
  }
}
