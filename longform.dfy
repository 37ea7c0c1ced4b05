/** The long-form table the pipeline builds (`ranks_pd` after `unstack`): one row per
    (omic1, omic2) cell, the metadata group columns merged so far and the rank
    columns added so far, in column order. */
module LongForm {
  import opened Wrappers

  /** The two feature axes: omic1 labels the matrix columns, omic2 its rows. */
  datatype Axis = Omic1 | Omic2

  datatype Row = Row(
    omic1: string,
    omic2: string,
    conditionals: Option<int>,
    groups: seq<Option<string>>,
    ranks: seq<Option<real>>)

  /** The id a row carries on one axis (`ranks_pd[omic]`). */
  function Id(r: Row, axis: Axis): string
  {
    match axis
    case Omic1 => r.omic1
    case Omic2 => r.omic2
  }

  datatype LongTable = LongTable(
    omic1Name: string,
    omic2Name: string,
    groupNames: seq<string>,
    rankNames: seq<string>,
    rows: seq<Row>)

  /** The column name of an axis in the table (`omic1` / `omic2` in the source). */
  function AxisName(t: LongTable, axis: Axis): string
  {
    match axis
    case Omic1 => t.omic1Name
    case Omic2 => t.omic2Name
  }

  /** Every row has one value per group column and per rank column. */
  predicate Shaped(t: LongTable)
  {
    forall r | r in t.rows :: |r.groups| == |t.groupNames| && |r.ranks| == |t.rankNames|
  }

  /** The score column `conditionals`, row by row. */
  function Scores(rows: seq<Row>): (s: seq<Option<int>>)
    ensures |s| == |rows| && forall i :: 0 <= i < |rows| ==> s[i] == rows[i].conditionals
  {
    seq(|rows|, i requires 0 <= i < |rows| => rows[i].conditionals)
  }

  /** Some row of the table holds score `x` for the pair (`o1`, `o2`). */
  ghost predicate HasScore(rows: seq<Row>, o1: string, o2: string, x: int)
  {
    exists r :: r in rows && r.omic1 == o1 && r.omic2 == o2 && r.conditionals == Some(x)
  }
}
