/** `get_sorted` (xmmvec.py:97-103): the order of the features along one chart axis. */
module AxisOrder {
  import opened Wrappers
  import opened Seqs
  import opened StringOrder
  import opened LongForm
  import opened Stacking

  /** The id a chart row carries on one axis. */
  function ViewId(v: ViewRow, axis: Axis): string
  {
    match axis
    case Omic1 => v.omic1
    case Omic2 => v.omic2
  }

  /** `ranks_st[omic]`. */
  function ViewIds(rows: seq<ViewRow>, axis: Axis): (ids: seq<string>)
    ensures |ids| == |rows| && forall i :: 0 <= i < |rows| ==> ids[i] == ViewId(rows[i], axis)
  {
    seq(|rows|, i requires 0 <= i < |rows| => ViewId(rows[i], axis))
  }

  /** Every chart row has the group column `g`. */
  predicate HasGroup(rows: seq<ViewRow>, g: nat)
  {
    forall v | v in rows :: g < |v.groups|
  }

  /** `ranks_st[omic_column]`. */
  function GroupCells(rows: seq<ViewRow>, g: nat): (cells: seq<Option<string>>)
    requires HasGroup(rows, g)
    ensures |cells| == |rows| && forall i :: 0 <= i < |rows| ==> rows[i] in rows && cells[i] == rows[i].groups[g]
  {
    seq(|rows|, i requires 0 <= i < |rows| => assert rows[i] in rows; rows[i].groups[g])
  }

  /** The text the query `<column> == "<group>"` compares with: a missing group is
      written 'nan'. */
  function QueryText(group: Option<string>): string
  {
    if group.Some? then group.value else "nan"
  }

  /** `ranks_st.query('<column> == "<text>"')`: the rows whose group is that text. */
  function RowsInGroup(rows: seq<ViewRow>, g: nat, text: string): (rs: seq<ViewRow>)
    requires HasGroup(rows, g)
    ensures forall v :: v in rs <==> v in rows && v.groups[g] == Some(text)
  {
    if rows == [] then []
    else
      assert rows[0] in rows;
      (if rows[0].groups[g] == Some(text) then [rows[0]] else []) + RowsInGroup(rows[1..], g, text)
  }

  /** `x` is the id of a row whose group is the text. */
  ghost predicate IdInGroup(rows: seq<ViewRow>, axis: Axis, g: nat, text: string, x: string)
    requires HasGroup(rows, g)
  {
    exists v :: v in rows && v.groups[g] == Some(text) && ViewId(v, axis) == x
  }

  /** The sorted unique ids of one group's rows. */
  function Block(rows: seq<ViewRow>, axis: Axis, g: nat, group: Option<string>): (b: seq<string>)
    requires HasGroup(rows, g)
    ensures StrictlySorted(b)
    ensures forall x :: x in b <==> IdInGroup(rows, axis, g, QueryText(group), x)
  {
    var rs := RowsInGroup(rows, g, QueryText(group));
    var b := SortedUnique(ViewIds(rs, axis));
    assert forall x :: x in ViewIds(rs, axis) <==> exists v :: v in rs && ViewId(v, axis) == x by {
      forall x | x in ViewIds(rs, axis) ensures exists v :: v in rs && ViewId(v, axis) == x {
        var i :| 0 <= i < |rs| && ViewIds(rs, axis)[i] == x;
        assert rs[i] in rs;
      }
      forall x | exists v :: v in rs && ViewId(v, axis) == x ensures x in ViewIds(rs, axis) {
        var v :| v in rs && ViewId(v, axis) == x;
        var i :| 0 <= i < |rs| && rs[i] == v;
        assert ViewIds(rs, axis)[i] == x;
      }
    }
    b
  }

  function Blocks(rows: seq<ViewRow>, axis: Axis, g: nat, groups: seq<Option<string>>): (bs: seq<seq<string>>)
    requires HasGroup(rows, g)
    ensures |bs| == |groups| && forall k :: 0 <= k < |groups| ==> bs[k] == Block(rows, axis, g, groups[k])
  {
    seq(|groups|, k requires 0 <= k < |groups| => Block(rows, axis, g, groups[k]))
  }

  /** The groups of a column in order of first appearance (`unique()`, missing included). */
  function GroupOrder(rows: seq<ViewRow>, g: nat): (groups: seq<Option<string>>)
    requires HasGroup(rows, g)
    ensures NoDuplicates(groups)
    ensures forall c :: c in groups <==> exists v :: v in rows && v.groups[g] == c
  {
    var cells := GroupCells(rows, g);
    assert forall c :: c in cells <==> exists v :: v in rows && v.groups[g] == c by {
      forall c | exists v :: v in rows && v.groups[g] == c ensures c in cells {
        var v :| v in rows && v.groups[g] == c;
        var i :| 0 <= i < |rows| && rows[i] == v;
        assert cells[i] == c;
      }
    }
    FirstSeen(cells)
  }

  /** `get_sorted`: with no group column the sorted unique ids; with group column `g` the
      groups in order of first appearance, each group's ids sorted. */
  function GetSorted(rows: seq<ViewRow>, axis: Axis, groupColumn: Option<nat>): seq<string>
    requires groupColumn.Some? ==> HasGroup(rows, groupColumn.value)
  {
    if groupColumn.None? then SortedUnique(ViewIds(rows, axis))
    else
      var g := groupColumn.value;
      Flatten(Blocks(rows, axis, g, GroupOrder(rows, g)))
  }

  /** Without groups the axis lists every id of the chart once, in ascending order. */
  lemma UngroupedOrderIsSortedIds(rows: seq<ViewRow>, axis: Axis)
    ensures StrictlySorted(GetSorted(rows, axis, None))
    ensures NoDuplicates(GetSorted(rows, axis, None))
    ensures forall x :: x in GetSorted(rows, axis, None) <==> exists i :: 0 <= i < |rows| && ViewId(rows[i], axis) == x
  {
    StrictlySortedHasNoDuplicates(GetSorted(rows, axis, None));
  }

  /** `bs` has one sorted block per group, holding exactly the ids of the rows that the
      group's query selects. */
  ghost predicate GroupBlocks(rows: seq<ViewRow>, axis: Axis, g: nat, groups: seq<Option<string>>, bs: seq<seq<string>>)
    requires HasGroup(rows, g)
  {
    |bs| == |groups| &&
    forall k :: 0 <= k < |bs| ==>
      StrictlySorted(bs[k]) && forall x :: x in bs[k] <==> IdInGroup(rows, axis, g, QueryText(groups[k]), x)
  }

  /** With groups the axis is the concatenation of one sorted block per group, the groups
      in order of first appearance. */
  lemma GroupedOrderIsBlocks(rows: seq<ViewRow>, axis: Axis, g: nat)
    requires HasGroup(rows, g)
    ensures exists bs :: GetSorted(rows, axis, Some(g)) == Flatten(bs) && GroupBlocks(rows, axis, g, GroupOrder(rows, g), bs)
    ensures forall a, b :: 0 <= a < b < |GroupOrder(rows, g)| ==>
      FirstIndex(GroupCells(rows, g), GroupOrder(rows, g)[a]) < FirstIndex(GroupCells(rows, g), GroupOrder(rows, g)[b])
  {
    var groups := GroupOrder(rows, g);
    var bs := Blocks(rows, axis, g, groups);
    assert GroupBlocks(rows, axis, g, groups, bs);
    assert GetSorted(rows, axis, Some(g)) == Flatten(bs);
    FirstSeenOrder(GroupCells(rows, g));
  }

  /** The query for a missing group matches nothing unless some group is literally 'nan',
      so the missing group's block is empty. */
  lemma MissingGroupBlockIsEmpty(rows: seq<ViewRow>, axis: Axis, g: nat)
    requires HasGroup(rows, g)
    requires forall v :: v in rows ==> v.groups[g] != Some("nan")
    ensures Block(rows, axis, g, None) == []
  {
    EmptyWithoutMembers(Block(rows, axis, g, None));
  }

  /** With groups the axis holds exactly the ids of rows that have a group, so features
      whose group is missing get no place. */
  lemma GroupedOrderMembers(rows: seq<ViewRow>, axis: Axis, g: nat)
    requires HasGroup(rows, g)
    ensures forall x :: x in GetSorted(rows, axis, Some(g)) <==>
      exists v :: v in rows && v.groups[g].Some? && ViewId(v, axis) == x
  {
    forall x ensures x in GetSorted(rows, axis, Some(g)) <==> exists v :: v in rows && v.groups[g].Some? && ViewId(v, axis) == x {
      GroupedMember(rows, axis, g, x);
    }
  }

  lemma GroupedMember(rows: seq<ViewRow>, axis: Axis, g: nat, x: string)
    requires HasGroup(rows, g)
    ensures x in GetSorted(rows, axis, Some(g)) <==> exists v :: v in rows && v.groups[g].Some? && ViewId(v, axis) == x
  {
    if x in GetSorted(rows, axis, Some(g)) {
      GroupedMemberHasGroup(rows, axis, g, x);
    }
    if exists v :: v in rows && v.groups[g].Some? && ViewId(v, axis) == x {
      var v :| v in rows && v.groups[g].Some? && ViewId(v, axis) == x;
      GroupedRowIsPlaced(rows, axis, g, v);
    }
  }

  lemma GroupedMemberHasGroup(rows: seq<ViewRow>, axis: Axis, g: nat, x: string)
    requires HasGroup(rows, g) && x in GetSorted(rows, axis, Some(g))
    ensures exists v :: v in rows && v.groups[g].Some? && ViewId(v, axis) == x
  {
    var groups := GroupOrder(rows, g);
    var bs := Blocks(rows, axis, g, groups);
    FlattenMember(bs, x);
    var k :| 0 <= k < |bs| && x in bs[k];
    assert IdInGroup(rows, axis, g, QueryText(groups[k]), x);
  }

  lemma GroupedRowIsPlaced(rows: seq<ViewRow>, axis: Axis, g: nat, v: ViewRow)
    requires HasGroup(rows, g) && v in rows && v.groups[g].Some?
    ensures ViewId(v, axis) in GetSorted(rows, axis, Some(g))
  {
    var groups := GroupOrder(rows, g);
    var bs := Blocks(rows, axis, g, groups);
    assert v.groups[g] in groups;
    var k :| 0 <= k < |groups| && groups[k] == v.groups[g];
    assert IdInGroup(rows, axis, g, QueryText(groups[k]), ViewId(v, axis));
    assert ViewId(v, axis) in bs[k];
    FlattenMember(bs, ViewId(v, axis));
  }

  /** One group per id and no group literally named 'nan': every id appears once. */
  lemma GroupedOrderHasNoDuplicates(rows: seq<ViewRow>, axis: Axis, g: nat)
    requires HasGroup(rows, g)
    requires forall v :: v in rows ==> v.groups[g] != Some("nan")
    requires forall v, w :: v in rows && w in rows && ViewId(v, axis) == ViewId(w, axis) ==> v.groups[g] == w.groups[g]
    ensures NoDuplicates(GetSorted(rows, axis, Some(g)))
  {
    var groups := GroupOrder(rows, g);
    var bs := Blocks(rows, axis, g, groups);
    forall k | 0 <= k < |bs| ensures NoDuplicates(bs[k]) {
      StrictlySortedHasNoDuplicates(bs[k]);
    }
    forall a, b, x | 0 <= a < b < |bs| && x in bs[a] ensures x !in bs[b] {
      assert IdInGroup(rows, axis, g, QueryText(groups[a]), x);
      var v :| v in rows && v.groups[g] == Some(QueryText(groups[a])) && ViewId(v, axis) == x;
      assert groups[a] != groups[b];
      assert QueryText(groups[a]) != QueryText(groups[b]) by {
        assert groups[a] in groups && groups[b] in groups;
      }
      assert forall w :: w in rows && ViewId(w, axis) == x ==> w.groups[g] != Some(QueryText(groups[b]));
      assert !IdInGroup(rows, axis, g, QueryText(groups[b]), x);
    }
    FlattenNoDuplicates(bs);
  }
}
