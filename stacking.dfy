/** `get_stacked` and the merge in `make_figure` (xmmvec.py:68-94, 156-158): every present
    value of the table becomes one record named by its column, and each record gets back
    the two per-feature ranks of its (omic1, omic2) pair. */
module Stacking {
  import opened Wrappers
  import opened Seqs
  import opened LongForm
  import opened Ranking

  /** The index `get_stacked` sets after the two axis columns: the merged group columns
      that exist, omic1's first (the four branches of the source). */
  function StackKeys(omic1Column: string, omic2Column: string): (keys: seq<string>)
    ensures |keys| <= 2 && forall c :: c in keys <==> c != "" && (c == omic1Column || c == omic2Column)
    ensures omic1Column != "" && omic2Column != "" ==> keys == [omic1Column, omic2Column]
    ensures |keys| == (if omic1Column != "" then 1 else 0) + (if omic2Column != "" then 1 else 0)
  {
    (if omic1Column != "" then [omic1Column] else []) + (if omic2Column != "" then [omic2Column] else [])
  }

  /** One record of the stacked table: the index columns, the name of the stacked column
      (`conditional`) and its value (`rank`). */
  datatype StackedRow = StackedRow(omic1: string, omic2: string, groups: seq<Option<string>>,
                                   conditional: string, rank: real)

  const ScoreColumn: string := "conditionals"

  /** The columns `stack` turns into records: the score, then the rank columns. */
  function ValueNames(t: LongTable): (names: seq<string>)
    ensures |names| == |t.rankNames| + 1 && names[0] == ScoreColumn && names[1..] == t.rankNames
  {
    [ScoreColumn] + t.rankNames
  }

  /** A row's values in those columns; the integer score is read as a number like the rest. */
  function Values(r: Row): (vs: seq<Option<real>>)
    ensures |vs| == |r.ranks| + 1 && vs[1..] == r.ranks
    ensures vs[0].Some? <==> r.conditionals.Some?
    ensures r.conditionals.Some? ==> vs[0].value == r.conditionals.value as real
  {
    [if r.conditionals.Some? then Some(r.conditionals.value as real) else None] + r.ranks
  }

  /** The records `stack` makes of one row: one per present value, in column order. */
  function StackRow(r: Row, names: seq<string>, vals: seq<Option<real>>): seq<StackedRow>
    requires |names| == |vals|
    decreases |vals|
  {
    if vals == [] then []
    else
      (if vals[0].Some? then [StackedRow(r.omic1, r.omic2, r.groups, names[0], vals[0].value)] else [])
      + StackRow(r, names[1..], vals[1..])
  }

  function StackRows(rows: seq<Row>, names: seq<string>): seq<StackedRow>
    requires forall r | r in rows :: |Values(r)| == |names|
  {
    if rows == [] then [] else StackRow(rows[0], names, Values(rows[0])) + StackRows(rows[1..], names)
  }

  /** `get_stacked`: the axis and group columns become the index, which the source demands
      be exactly the columns that are not values. */
  function GetStacked(t: LongTable, omic1Column: string, omic2Column: string): seq<StackedRow>
    requires Shaped(t) && t.groupNames == StackKeys(omic1Column, omic2Column)
  {
    StackRows(t.rows, ValueNames(t))
  }

  /** The number of present values in a row. */
  function PresentCount(vals: seq<Option<real>>): nat
  {
    if vals == [] then 0 else (if vals[0].Some? then 1 else 0) + PresentCount(vals[1..])
  }

  function PresentCells(rows: seq<Row>): nat
  {
    if rows == [] then 0 else PresentCount(Values(rows[0])) + PresentCells(rows[1..])
  }

  /** A record stands for one present value of a row: the value's column gives its name. */
  ghost predicate RecordOfCell(r: Row, names: seq<string>, vals: seq<Option<real>>, s: StackedRow)
  {
    exists k :: 0 <= k < |vals| && k < |names| && vals[k] == Some(s.rank) &&
      s == StackedRow(r.omic1, r.omic2, r.groups, names[k], s.rank)
  }

  lemma {:induction false} StackRowMembers(r: Row, names: seq<string>, vals: seq<Option<real>>, s: StackedRow)
    requires |names| == |vals|
    ensures s in StackRow(r, names, vals) <==> RecordOfCell(r, names, vals, s)
    decreases |vals|
  {
    if vals != [] {
      StackRowMembers(r, names[1..], vals[1..], s);
      if RecordOfCell(r, names[1..], vals[1..], s) {
        var k :| 0 <= k < |vals| - 1 && k < |names| - 1 && vals[1..][k] == Some(s.rank) &&
          s == StackedRow(r.omic1, r.omic2, r.groups, names[1..][k], s.rank);
        assert vals[k + 1] == Some(s.rank) && names[k + 1] == names[1..][k];
      }
      if RecordOfCell(r, names, vals, s) {
        var k :| 0 <= k < |vals| && k < |names| && vals[k] == Some(s.rank) &&
          s == StackedRow(r.omic1, r.omic2, r.groups, names[k], s.rank);
        if k > 0 {
          assert vals[1..][k - 1] == vals[k] && names[1..][k - 1] == names[k];
        }
      }
    }
  }

  lemma {:induction false} StackRowCount(r: Row, names: seq<string>, vals: seq<Option<real>>)
    requires |names| == |vals|
    ensures |StackRow(r, names, vals)| == PresentCount(vals)
    decreases |vals|
  {
    if vals != [] {
      StackRowCount(r, names[1..], vals[1..]);
    }
  }

  /** Soundness and completeness of `stack`: a record is in the stacked table exactly when
      it stands for a present value of some row; missing values are dropped. */
  lemma {:induction false} StackRowsMembers(rows: seq<Row>, names: seq<string>, s: StackedRow)
    requires forall r | r in rows :: |Values(r)| == |names|
    ensures s in StackRows(rows, names) <==>
      exists i :: 0 <= i < |rows| && RecordOfCell(rows[i], names, Values(rows[i]), s)
  {
    if rows != [] {
      assert rows[0] in rows;
      StackRowMembers(rows[0], names, Values(rows[0]), s);
      StackRowsMembers(rows[1..], names, s);
      if exists i :: 0 <= i < |rows| - 1 && RecordOfCell(rows[1..][i], names, Values(rows[1..][i]), s) {
        var i :| 0 <= i < |rows| - 1 && RecordOfCell(rows[1..][i], names, Values(rows[1..][i]), s);
        assert rows[1..][i] == rows[i + 1];
      }
      if exists i :: 0 <= i < |rows| && RecordOfCell(rows[i], names, Values(rows[i]), s) {
        var i :| 0 <= i < |rows| && RecordOfCell(rows[i], names, Values(rows[i]), s);
        if i > 0 {
          assert rows[1..][i - 1] == rows[i];
        }
      }
    }
  }

  lemma {:induction false} StackRowsCount(rows: seq<Row>, names: seq<string>)
    requires forall r | r in rows :: |Values(r)| == |names|
    ensures |StackRows(rows, names)| == PresentCells(rows)
  {
    if rows != [] {
      assert rows[0] in rows;
      StackRowCount(rows[0], names, Values(rows[0]));
      StackRowsCount(rows[1..], names);
    }
  }

  /** The stacked table holds one record per present score or rank, and nothing else. */
  lemma GetStackedIsPresentCells(t: LongTable, omic1Column: string, omic2Column: string, s: StackedRow)
    requires Shaped(t) && t.groupNames == StackKeys(omic1Column, omic2Column)
    ensures |GetStacked(t, omic1Column, omic2Column)| == PresentCells(t.rows)
    ensures s in GetStacked(t, omic1Column, omic2Column) <==>
      exists i :: 0 <= i < |t.rows| && RecordOfCell(t.rows[i], ValueNames(t), Values(t.rows[i]), s)
  {
    StackRowsCount(t.rows, ValueNames(t));
    StackRowsMembers(t.rows, ValueNames(t), s);
  }

  /** A row of the chart's data: a stacked record with the two per-feature ranks of its
      pair (`conditionals_per_<omic1>`, `conditionals_per_<omic2>`). */
  datatype ViewRow = ViewRow(omic1: string, omic2: string, groups: seq<Option<string>>,
                             conditional: string, rank: real, per1: Option<real>, per2: Option<real>)

  type PerRanksRow = (string, string, Option<real>, Option<real>)

  /** Both per-feature rank columns exist. */
  predicate HasPerRanks(t: LongTable)
  {
    Shaped(t) && PerAxisName(t, Omic1) in t.rankNames && PerAxisName(t, Omic2) in t.rankNames
  }

  /** The value of a rank column in a row. */
  function RankIn(t: LongTable, r: Row, name: string): Option<real>
    requires name in t.rankNames && |r.ranks| == |t.rankNames|
  {
    r.ranks[FirstIndex(t.rankNames, name)]
  }

  /** `ranks_pd[[omic1, omic2, conditionals_1, conditionals_2]]`. */
  function PerRanks(t: LongTable): (p: seq<PerRanksRow>)
    requires HasPerRanks(t)
    ensures |p| == |t.rows|
    ensures forall i :: 0 <= i < |t.rows| ==>
              t.rows[i] in t.rows &&
              p[i] == (t.rows[i].omic1, t.rows[i].omic2,
                       RankIn(t, t.rows[i], PerAxisName(t, Omic1)), RankIn(t, t.rows[i], PerAxisName(t, Omic2)))
  {
    seq(|t.rows|, i requires 0 <= i < |t.rows| =>
      assert t.rows[i] in t.rows;
      (t.rows[i].omic1, t.rows[i].omic2,
       RankIn(t, t.rows[i], PerAxisName(t, Omic1)), RankIn(t, t.rows[i], PerAxisName(t, Omic2))))
  }

  function WithPerRanks(s: StackedRow, m: Option<PerRanksRow>): ViewRow
  {
    ViewRow(s.omic1, s.omic2, s.groups, s.conditional, s.rank,
            if m.Some? then m.value.2 else None, if m.Some? then m.value.3 else None)
  }

  function PairKey(s: StackedRow): (string, string) { (s.omic1, s.omic2) }
  function PerRanksKey(p: PerRanksRow): (string, string) { (p.0, p.1) }

  /** `ranks_st.merge(ranks_pd2merge, on=[omic1, omic2], how='left')`. */
  function AttachPerRanks(st: seq<StackedRow>, t: LongTable): seq<ViewRow>
    requires HasPerRanks(t)
  {
    var joined := LeftJoin(st, PerRanks(t), PairKey, PerRanksKey);
    seq(|joined|, i requires 0 <= i < |joined| => WithPerRanks(joined[i].0, joined[i].1))
  }

  /** No two rows of the table share an (omic1, omic2) pair, as after `unstack` of a
      matrix with distinct labels. */
  predicate UniquePairs(t: LongTable)
    requires HasPerRanks(t)
  {
    UniqueKeys(PerRanks(t), PerRanksKey)
  }

  /** A chart row is the record `s` of row `r`, with `r`'s two per-feature ranks. */
  ghost predicate ViewOfRow(t: LongTable, r: Row, s: StackedRow, v: ViewRow)
    requires HasPerRanks(t) && |r.ranks| == |t.rankNames|
  {
    r.omic1 == s.omic1 && r.omic2 == s.omic2 && RecordOfCell(r, ValueNames(t), Values(r), s) &&
    v == ViewRow(s.omic1, s.omic2, s.groups, s.conditional, s.rank,
                 RankIn(t, r, PerAxisName(t, Omic1)), RankIn(t, r, PerAxisName(t, Omic2)))
  }

  /** The chart row made of `s` comes from the row it was stacked from. */
  ghost predicate ViewFromTable(t: LongTable, s: StackedRow, v: ViewRow)
    requires HasPerRanks(t)
  {
    exists j :: 0 <= j < |t.rows| && t.rows[j] in t.rows && ViewOfRow(t, t.rows[j], s, v)
  }

  /** With unique pairs every record of the stacked table keeps its place and receives the
      per-feature ranks of the row it was stacked from. */
  lemma AttachPerRanksOfStacked(t: LongTable, omic1Column: string, omic2Column: string)
    requires HasPerRanks(t) && t.groupNames == StackKeys(omic1Column, omic2Column) && UniquePairs(t)
    ensures |AttachPerRanks(GetStacked(t, omic1Column, omic2Column), t)| == |GetStacked(t, omic1Column, omic2Column)|
    ensures forall i :: 0 <= i < |GetStacked(t, omic1Column, omic2Column)| ==>
      ViewFromTable(t, GetStacked(t, omic1Column, omic2Column)[i], AttachPerRanks(GetStacked(t, omic1Column, omic2Column), t)[i])
  {
    var st := GetStacked(t, omic1Column, omic2Column);
    var right := PerRanks(t);
    LeftJoinOfUniqueKeys(st, right, PairKey, PerRanksKey);
    forall i | 0 <= i < |st|
      ensures ViewFromTable(t, st[i], AttachPerRanks(st, t)[i])
    {
      assert st[i] in st;
      StackRowsMembers(t.rows, ValueNames(t), st[i]);
      var j :| 0 <= j < |t.rows| && RecordOfCell(t.rows[j], ValueNames(t), Values(t.rows[j]), st[i]);
      AttachedRowOfStacked(t, st, i, j);
    }
  }

  lemma AttachedRowOfStacked(t: LongTable, st: seq<StackedRow>, i: nat, j: nat)
    requires HasPerRanks(t) && UniquePairs(t) && i < |st| && j < |t.rows|
    requires RecordOfCell(t.rows[j], ValueNames(t), Values(t.rows[j]), st[i])
    ensures |AttachPerRanks(st, t)| == |st|
    ensures t.rows[j] in t.rows && ViewOfRow(t, t.rows[j], st[i], AttachPerRanks(st, t)[i])
  {
    var right := PerRanks(t);
    LeftJoinOfUniqueKeys(st, right, PairKey, PerRanksKey);
    assert t.rows[j] in t.rows;
    var k :| 0 <= k < |Values(t.rows[j])| && k < |ValueNames(t)| && Values(t.rows[j])[k] == Some(st[i].rank) &&
      st[i] == StackedRow(t.rows[j].omic1, t.rows[j].omic2, t.rows[j].groups, ValueNames(t)[k], st[i].rank);
    assert right[j] in right && PerRanksKey(right[j]) == PairKey(st[i]);
    var m := Lookup(right, PerRanksKey, PairKey(st[i]));
    var q :| 0 <= q < |right| && right[q] == m.value;
    assert q == j;
  }

  // ----- the scores stacking and the merge-back keep -----

  /** A score record (`conditional == 'conditionals'`) for the pair holds `x`. */
  ghost predicate HasScoreRecord(st: seq<StackedRow>, o1: string, o2: string, x: int)
  {
    exists s :: s in st && s.omic1 == o1 && s.omic2 == o2 && s.conditional == ScoreColumn && s.rank == x as real
  }

  ghost predicate HasViewScore(view: seq<ViewRow>, o1: string, o2: string, x: int)
  {
    exists v :: v in view && v.omic1 == o1 && v.omic2 == o2 && v.conditional == ScoreColumn && v.rank == x as real
  }

  /** A record holding a score column value comes from the score itself, when no rank
      column shares its name. */
  lemma StackedScoreIsCell(t: LongTable, omic1Column: string, omic2Column: string, s: StackedRow)
    requires Shaped(t) && t.groupNames == StackKeys(omic1Column, omic2Column)
    requires ScoreColumn !in t.rankNames
    requires s in GetStacked(t, omic1Column, omic2Column) && s.conditional == ScoreColumn
    ensures exists r :: (r in t.rows && r.omic1 == s.omic1 && r.omic2 == s.omic2 && r.conditionals.Some? &&
                         s.rank == r.conditionals.value as real)
  {
    var names := ValueNames(t);
    StackRowsMembers(t.rows, names, s);
    var i :| 0 <= i < |t.rows| && RecordOfCell(t.rows[i], names, Values(t.rows[i]), s);
    var r := t.rows[i];
    var k :| 0 <= k < |Values(r)| && k < |names| && Values(r)[k] == Some(s.rank) &&
      s == StackedRow(r.omic1, r.omic2, r.groups, names[k], s.rank);
    assert forall q :: 0 < q < |names| ==> names[q] == t.rankNames[q - 1] && names[q] in t.rankNames;
    assert k == 0;
    assert r in t.rows;
  }

  /** Every score of the table gives a score record. */
  lemma CellScoreIsStacked(t: LongTable, omic1Column: string, omic2Column: string, r: Row)
    requires Shaped(t) && t.groupNames == StackKeys(omic1Column, omic2Column)
    requires r in t.rows && r.conditionals.Some?
    ensures StackedRow(r.omic1, r.omic2, r.groups, ScoreColumn, r.conditionals.value as real)
      in GetStacked(t, omic1Column, omic2Column)
  {
    var names := ValueNames(t);
    var s := StackedRow(r.omic1, r.omic2, r.groups, ScoreColumn, r.conditionals.value as real);
    assert RecordOfCell(r, names, Values(r), s) by {
      assert Values(r)[0] == Some(s.rank) && names[0] == ScoreColumn;
    }
    StackRowsMembers(t.rows, names, s);
  }

  /** When no rank column is called 'conditionals', the score records of the stacked
      table are exactly the scores of the table. */
  lemma StackScores(t: LongTable, omic1Column: string, omic2Column: string, o1: string, o2: string, x: int)
    requires Shaped(t) && t.groupNames == StackKeys(omic1Column, omic2Column)
    requires ScoreColumn !in t.rankNames
    ensures HasScoreRecord(GetStacked(t, omic1Column, omic2Column), o1, o2, x) <==> HasScore(t.rows, o1, o2, x)
  {
    var st := GetStacked(t, omic1Column, omic2Column);
    if HasScoreRecord(st, o1, o2, x) {
      var s :| s in st && s.omic1 == o1 && s.omic2 == o2 && s.conditional == ScoreColumn && s.rank == x as real;
      StackedScoreIsCell(t, omic1Column, omic2Column, s);
    }
    if HasScore(t.rows, o1, o2, x) {
      var r :| r in t.rows && r.omic1 == o1 && r.omic2 == o2 && r.conditionals == Some(x);
      CellScoreIsStacked(t, omic1Column, omic2Column, r);
    }
  }

  /** `m` is what the left join pairs record `s` with: a row of the same pair, or nothing
      when no row has that pair. */
  predicate JoinedWith(t: LongTable, s: StackedRow, m: Option<PerRanksRow>)
    requires HasPerRanks(t)
  {
    if m.Some? then m.value in PerRanks(t) && PerRanksKey(m.value) == PairKey(s)
    else forall q :: q in PerRanks(t) ==> PerRanksKey(q) != PairKey(s)
  }

  /** Every chart row is a stacked record with per-feature ranks, and every stacked record
      gives at least one chart row. */
  lemma AttachedRows(st: seq<StackedRow>, t: LongTable, v: ViewRow)
    requires HasPerRanks(t)
    ensures v in AttachPerRanks(st, t) <==> exists s, m :: s in st && v == WithPerRanks(s, m) && JoinedWith(t, s, m)
  {
    var right := PerRanks(t);
    var joined := LeftJoin(st, right, PairKey, PerRanksKey);
    var view := AttachPerRanks(st, t);
    if v in view {
      var i :| 0 <= i < |joined| && view[i] == v;
      assert joined[i] in joined;
      LeftJoinMembers(st, right, PairKey, PerRanksKey, joined[i]);
    }
    if exists s, m :: s in st && v == WithPerRanks(s, m) && JoinedWith(t, s, m) {
      var s, m :| s in st && v == WithPerRanks(s, m) && JoinedWith(t, s, m);
      LeftJoinMembers(st, right, PairKey, PerRanksKey, (s, m));
      var i :| 0 <= i < |joined| && joined[i] == (s, m);
      assert view[i] == v;
    }
  }

  /** The merge-back keeps exactly the score records. */
  lemma AttachScores(st: seq<StackedRow>, t: LongTable, o1: string, o2: string, x: int)
    requires HasPerRanks(t)
    ensures HasViewScore(AttachPerRanks(st, t), o1, o2, x) <==> HasScoreRecord(st, o1, o2, x)
  {
    var view := AttachPerRanks(st, t);
    if HasViewScore(view, o1, o2, x) {
      var v :| v in view && v.omic1 == o1 && v.omic2 == o2 && v.conditional == ScoreColumn && v.rank == x as real;
      AttachedRows(st, t, v);
    }
    if HasScoreRecord(st, o1, o2, x) {
      var s :| s in st && s.omic1 == o1 && s.omic2 == o2 && s.conditional == ScoreColumn && s.rank == x as real;
      var m := Lookup(PerRanks(t), PerRanksKey, PairKey(s));
      AttachedRows(st, t, WithPerRanks(s, m));
    }
  }

  /** Chart rows carry the group columns of the stacked records. */
  lemma AttachedRowsKeepGroups(t: LongTable, omic1Column: string, omic2Column: string)
    requires HasPerRanks(t) && t.groupNames == StackKeys(omic1Column, omic2Column)
    ensures forall v | v in AttachPerRanks(GetStacked(t, omic1Column, omic2Column), t) :: |v.groups| == |t.groupNames|
  {
    var st := GetStacked(t, omic1Column, omic2Column);
    forall v | v in AttachPerRanks(st, t) ensures |v.groups| == |t.groupNames| {
      AttachedRows(st, t, v);
      var s, m :| s in st && v == WithPerRanks(s, m);
      StackRowsMembers(t.rows, ValueNames(t), s);
      var i :| 0 <= i < |t.rows| && RecordOfCell(t.rows[i], ValueNames(t), Values(t.rows[i]), s);
      assert t.rows[i] in t.rows;
    }
  }
}
