/** pandas `Series.rank()` with its defaults (ascending, ties get the average rank,
    missing values keep a missing rank), the global rank column and the per-feature
    rank columns of `add_ranks` (xmmvec.py:59-65, 262). */
module Ranking {
  import opened Wrappers
  import opened Seqs
  import opened StringOrder
  import opened LongForm

  function CountBelow(x: int, s: seq<int>): (n: nat)
    ensures n <= |s|
  {
    if s == [] then 0 else (if s[0] < x then 1 else 0) + CountBelow(x, s[1..])
  }

  function CountEqual(x: int, s: seq<int>): (n: nat)
    ensures n <= |s|
  {
    if s == [] then 0 else (if s[0] == x then 1 else 0) + CountEqual(x, s[1..])
  }

  /** The average of the positions (from 1) that the copies of x take in s sorted
      ascending: the values below x come first, then the CountEqual copies of x. */
  function AverageRank(x: int, s: seq<int>): real
  {
    CountBelow(x, s) as real + (CountEqual(x, s) + 1) as real / 2.0
  }

  lemma {:induction false} CountsWithinLength(x: int, s: seq<int>)
    ensures CountBelow(x, s) + CountEqual(x, s) <= |s|
    ensures x in s ==> CountEqual(x, s) >= 1
  {
    if s != [] {
      CountsWithinLength(x, s[1..]);
    }
  }

  lemma {:induction false} CountBelowGrows(x: int, y: int, s: seq<int>)
    requires x < y
    ensures CountBelow(y, s) >= CountBelow(x, s) + CountEqual(x, s)
  {
    if s != [] {
      CountBelowGrows(x, y, s[1..]);
    }
  }

  /** A rank of a present score lies in [1, n]. */
  lemma AverageRankBounds(x: int, s: seq<int>)
    requires x in s
    ensures 1.0 <= AverageRank(x, s) <= |s| as real
  {
    CountsWithinLength(x, s);
  }

  /** A strictly larger score gets a strictly larger rank. */
  lemma AverageRankStrictlyIncreasing(x: int, y: int, s: seq<int>)
    requires x in s && x < y
    ensures AverageRank(x, s) < AverageRank(y, s)
  {
    CountsWithinLength(x, s);
    CountBelowGrows(x, y, s);
  }

  /** The scores of the present cells, in order. */
  function Present(s: seq<Option<int>>): (p: seq<int>)
    ensures forall x :: x in p <==> Some(x) in s
    ensures |p| <= |s|
  {
    if s == [] then []
    else (if s[0].Some? then [s[0].value] else []) + Present(s[1..])
  }

  /** `scores.rank()`: the average rank of each present score among the present scores. */
  function RankColumn(s: seq<Option<int>>): (r: seq<Option<real>>)
    ensures |r| == |s|
    ensures forall i :: 0 <= i < |s| ==> (r[i].Some? <==> s[i].Some?)
  {
    seq(|s|, i requires 0 <= i < |s| =>
      if s[i].Some? then Some(AverageRank(s[i].value, Present(s))) else None)
  }

  /** The ranks are ascending average ranks over the n present scores: each lies in
      [1, n], equal scores get equal ranks, the order of ranks is the order of scores,
      and a lone score gets rank 1. */
  lemma RankColumnIsAscendingAverage(s: seq<Option<int>>)
    ensures forall i :: 0 <= i < |s| && s[i].Some? ==>
      1.0 <= RankColumn(s)[i].value <= |Present(s)| as real
    ensures forall i, j :: 0 <= i < |s| && 0 <= j < |s| && s[i].Some? && s[j].Some? ==>
      (s[i].value == s[j].value ==> RankColumn(s)[i] == RankColumn(s)[j]) &&
      (s[i].value < s[j].value <==> RankColumn(s)[i].value < RankColumn(s)[j].value)
    ensures |Present(s)| == 1 ==> forall i :: 0 <= i < |s| && s[i].Some? ==> RankColumn(s)[i] == Some(1.0)
  {
    var p, r := Present(s), RankColumn(s);
    forall i | 0 <= i < |s| && s[i].Some? ensures 1.0 <= r[i].value <= |p| as real {
      assert s[i] in s;
      AverageRankBounds(s[i].value, p);
    }
    forall i, j | 0 <= i < |s| && 0 <= j < |s| && s[i].Some? && s[j].Some?
      ensures s[i].value < s[j].value <==> r[i].value < r[j].value
    {
      assert s[i] in s && s[j] in s;
      if s[i].value < s[j].value {
        AverageRankStrictlyIncreasing(s[i].value, s[j].value, p);
      } else if s[j].value < s[i].value {
        AverageRankStrictlyIncreasing(s[j].value, s[i].value, p);
      }
    }
    if |p| == 1 {
      forall i | 0 <= i < |s| && s[i].Some? ensures r[i] == Some(1.0) {
        assert s[i] in s;
        assert p == [s[i].value];
      }
    }
  }

  /** Appends one rank column to the rows (`df[name] = column`). */
  function WithRank(rows: seq<Row>, col: seq<Option<real>>): (rs: seq<Row>)
    requires |col| == |rows|
    ensures |rs| == |rows|
    ensures forall i :: 0 <= i < |rows| ==> rs[i] == rows[i].(ranks := rows[i].ranks + [col[i]])
  {
    seq(|rows|, i requires 0 <= i < |rows| => rows[i].(ranks := rows[i].ranks + [col[i]]))
  }

  /** `ranks_pd['ranked_conditionals'] = ranks_pd.conditionals.rank()`. */
  function GlobalRank(t: LongTable): (r: LongTable)
    requires Shaped(t)
    ensures Shaped(r) && r.groupNames == t.groupNames && r.rankNames == t.rankNames + ["ranked_conditionals"]
    ensures r.omic1Name == t.omic1Name && r.omic2Name == t.omic2Name
  {
    t.(rankNames := t.rankNames + ["ranked_conditionals"],
       rows := WithRank(t.rows, RankColumn(Scores(t.rows))))
  }

  /** The global rank is a new last column; each row keeps everything else and gets the
      ascending average rank of its score among all present scores of the table. */
  lemma GlobalRankOverAllRows(t: LongTable)
    requires Shaped(t)
    ensures |GlobalRank(t).rows| == |t.rows|
    ensures forall i :: 0 <= i < |t.rows| ==>
      GlobalRank(t).rows[i] == t.rows[i].(ranks := t.rows[i].ranks + [GlobalRank(t).rows[i].ranks[|t.rows[i].ranks|]])
    ensures forall i :: 0 <= i < |t.rows| ==>
      var rk := GlobalRank(t).rows[i].ranks[|t.rows[i].ranks|];
      (rk.Some? <==> t.rows[i].conditionals.Some?) &&
      (rk.Some? ==> 1.0 <= rk.value <= |Present(Scores(t.rows))| as real &&
                    rk.value == AverageRank(t.rows[i].conditionals.value, Present(Scores(t.rows))))
  {
    RankColumnIsAscendingAverage(Scores(t.rows));
  }

  // ----- add_ranks -----

  /** The rows whose id on the axis is g, in table order (one `groupby` group). */
  function Group(rows: seq<Row>, axis: Axis, g: string): (gs: seq<Row>)
    ensures forall r {:trigger r in gs} :: r in gs <==> r in rows && Id(r, axis) == g
  {
    if rows == [] then []
    else (if Id(rows[0], axis) == g then [rows[0]] else []) + Group(rows[1..], axis, g)
  }

  /** The rows whose id is not g. */
  function Outside(rows: seq<Row>, axis: Axis, g: string): (os: seq<Row>)
    ensures forall r {:trigger r in os} :: r in os <==> r in rows && Id(r, axis) != g
  {
    if rows == [] then []
    else (if Id(rows[0], axis) != g then [rows[0]] else []) + Outside(rows[1..], axis, g)
  }

  /** One group with its own rank column (`feat_pd[...] = feat_pd['conditionals'].rank()`). */
  function RankedGroup(rows: seq<Row>, axis: Axis, g: string): seq<Row>
  {
    var grp := Group(rows, axis, g);
    WithRank(grp, RankColumn(Scores(grp)))
  }

  /** The groups of the given keys, one after the other. */
  function Grouped(rows: seq<Row>, axis: Axis, keys: seq<string>): seq<Row>
  {
    if keys == [] then [] else Group(rows, axis, keys[0]) + Grouped(rows, axis, keys[1..])
  }

  /** The ranked groups of the given keys, one after the other (`pd.concat(new_cols)`). */
  function RankedGroups(rows: seq<Row>, axis: Axis, keys: seq<string>): seq<Row>
  {
    if keys == [] then [] else RankedGroup(rows, axis, keys[0]) + RankedGroups(rows, axis, keys[1..])
  }

  /** The ids of the rows on the axis. */
  function Ids(rows: seq<Row>, axis: Axis): (ids: seq<string>)
    ensures |ids| == |rows| && forall i :: 0 <= i < |rows| ==> ids[i] == Id(rows[i], axis)
  {
    seq(|rows|, i requires 0 <= i < |rows| => Id(rows[i], axis))
  }

  /** `groupby(omic)` visits the distinct ids in ascending order. */
  function GroupKeys(rows: seq<Row>, axis: Axis): (keys: seq<string>)
    ensures StrictlySorted(keys)
    ensures forall g :: g in keys <==> exists r :: r in rows && Id(r, axis) == g
    ensures keys == [] <==> rows == []
  {
    IdsOfRows(rows, axis);
    var keys := SortedUnique(Ids(rows, axis));
    EmptyWithoutMembers(keys);
    keys
  }

  lemma IdsOfRows(rows: seq<Row>, axis: Axis)
    ensures forall g :: g in Ids(rows, axis) <==> exists r :: r in rows && Id(r, axis) == g
    ensures rows != [] ==> Id(rows[0], axis) in Ids(rows, axis)
  {
    forall g | g in Ids(rows, axis) ensures exists r :: r in rows && Id(r, axis) == g {
      var i :| 0 <= i < |rows| && Ids(rows, axis)[i] == g;
      assert rows[i] in rows;
    }
    forall g | (exists r :: r in rows && Id(r, axis) == g) ensures g in Ids(rows, axis) {
      var r :| r in rows && Id(r, axis) == g;
      var i :| 0 <= i < |rows| && rows[i] == r;
      assert Ids(rows, axis)[i] == g;
    }
    if rows != [] {
      assert Ids(rows, axis)[0] == Id(rows[0], axis);
    }
  }

  /** The name `add_ranks` gives its column: 'conditionals_per_<omic>'. */
  function PerAxisName(t: LongTable, axis: Axis): string
  {
    "conditionals_per_" + AxisName(t, axis)
  }

  /** What `add_ranks(ranks_pd, omic)` returns: the groups in ascending id order, each
      with its rank column appended. */
  function RankedByGroup(t: LongTable, axis: Axis): LongTable
  {
    t.(rankNames := t.rankNames + [PerAxisName(t, axis)],
       rows := RankedGroups(t.rows, axis, GroupKeys(t.rows, axis)))
  }

  /** The loop of `add_ranks`: one ranked copy per group appended to `new_cols`, then
      concatenated; `pd.concat([])` raises when the table has no rows. */
  method AddRanks(t: LongTable, axis: Axis) returns (r: Result<LongTable>)
    ensures t.rows == [] ==> r == Fail(NothingToConcatenate)
    ensures t.rows != [] ==> r == Ok(RankedByGroup(t, axis))
  {
    var keys := GroupKeys(t.rows, axis);
    var newCols: seq<seq<Row>> := [];
    var k := 0;
    while k < |keys|
      invariant 0 <= k <= |keys|
      invariant |newCols| == k
      invariant Flatten(newCols) + RankedGroups(t.rows, axis, keys[k..]) == RankedGroups(t.rows, axis, keys)
    {
      // the group's copy with its 'conditionals_per_<omic>' column
      var ranked := RankedGroup(t.rows, axis, keys[k]);
      RankedGroupsStep(t.rows, axis, keys, newCols, k);
      newCols := newCols + [ranked];
      k := k + 1;
    }
    if newCols == [] {
      return Fail(NothingToConcatenate);
    }
    RankedGroupsDone(t.rows, axis, keys, newCols);
    r := Ok(t.(rankNames := t.rankNames + [PerAxisName(t, axis)], rows := Flatten(newCols)));
  }

  /** One turn of the loop of `add_ranks` appends the next ranked group. */
  lemma RankedGroupsStep(rows: seq<Row>, axis: Axis, keys: seq<string>, newCols: seq<seq<Row>>, k: nat)
    requires k < |keys|
    requires Flatten(newCols) + RankedGroups(rows, axis, keys[k..]) == RankedGroups(rows, axis, keys)
    ensures Flatten(newCols + [RankedGroup(rows, axis, keys[k])]) + RankedGroups(rows, axis, keys[k + 1..])
      == RankedGroups(rows, axis, keys)
  {
    RankedGroupsUnfold(rows, axis, keys, k);
    FlattenStep(newCols, RankedGroup(rows, axis, keys[k]), RankedGroups(rows, axis, keys[k + 1..]),
                RankedGroups(rows, axis, keys[k..]), RankedGroups(rows, axis, keys));
  }

  lemma RankedGroupsUnfold(rows: seq<Row>, axis: Axis, keys: seq<string>, k: nat)
    requires k < |keys|
    ensures RankedGroups(rows, axis, keys[k..]) == RankedGroup(rows, axis, keys[k]) + RankedGroups(rows, axis, keys[k + 1..])
  {
    assert keys[k..][1..] == keys[k + 1..];
  }

  /** After the last turn the appended groups are all of them. */
  lemma RankedGroupsDone(rows: seq<Row>, axis: Axis, keys: seq<string>, newCols: seq<seq<Row>>)
    requires Flatten(newCols) + RankedGroups(rows, axis, keys[|keys|..]) == RankedGroups(rows, axis, keys)
    ensures Flatten(newCols) == RankedGroups(rows, axis, keys)
  {
    assert keys[|keys|..] == [];
  }

  // ----- what add_ranks promises -----

  /** The rank column `add_ranks` appended to a row. */
  function LastRank(r: Row): Option<real>
  {
    if r.ranks == [] then None else r.ranks[|r.ranks| - 1]
  }

  /** A row without its last rank column. */
  function DropLastRank(r: Row): Row
  {
    if r.ranks == [] then r else r.(ranks := r.ranks[..|r.ranks| - 1])
  }

  function Stripped(rows: seq<Row>): (rs: seq<Row>)
    ensures |rs| == |rows| && forall i :: 0 <= i < |rows| ==> rs[i] == DropLastRank(rows[i])
  {
    seq(|rows|, i requires 0 <= i < |rows| => DropLastRank(rows[i]))
  }

  lemma StrippedRankedGroups(rows: seq<Row>, axis: Axis, keys: seq<string>)
    ensures Stripped(RankedGroups(rows, axis, keys)) == Grouped(rows, axis, keys)
  {
    if keys != [] {
      var grp := Group(rows, axis, keys[0]);
      var a, b := RankedGroup(rows, axis, keys[0]), RankedGroups(rows, axis, keys[1..]);
      StrippedRankedGroups(rows, axis, keys[1..]);
      StrippedWithRank(grp, RankColumn(Scores(grp)));
      StrippedAppend(a, b);
    }
  }

  lemma StrippedWithRank(rows: seq<Row>, col: seq<Option<real>>)
    requires |col| == |rows|
    ensures Stripped(WithRank(rows, col)) == rows
  {
    var rs := WithRank(rows, col);
    forall i | 0 <= i < |rows| ensures Stripped(rs)[i] == rows[i] {
      var ranks := rows[i].ranks + [col[i]];
      assert rs[i].ranks == ranks && ranks[..|ranks| - 1] == rows[i].ranks;
    }
  }

  lemma StrippedAppend(a: seq<Row>, b: seq<Row>)
    ensures Stripped(a + b) == Stripped(a) + Stripped(b)
  {
    var s := Stripped(a + b);
    forall i | 0 <= i < |a| + |b| ensures s[i] == (Stripped(a) + Stripped(b))[i] {
      if i < |a| {
        assert (a + b)[i] == a[i];
      } else {
        assert (a + b)[i] == b[i - |a|];
      }
    }
  }

  lemma {:induction false} GroupAndOutside(rows: seq<Row>, axis: Axis, g: string)
    ensures multiset(rows) == multiset(Group(rows, axis, g)) + multiset(Outside(rows, axis, g))
  {
    if rows != [] {
      var h, tail := rows[0], rows[1..];
      GroupAndOutside(tail, axis, g);
      assert rows == [h] + tail;
      if Id(h, axis) == g {
        assert Group(rows, axis, g) == [h] + Group(tail, axis, g);
        assert Outside(rows, axis, g) == Outside(tail, axis, g);
        SplitStep(h, tail, Group(tail, axis, g), Outside(tail, axis, g));
      } else {
        assert Group(rows, axis, g) == Group(tail, axis, g);
        assert Outside(rows, axis, g) == [h] + Outside(tail, axis, g);
        SplitStep(h, tail, Outside(tail, axis, g), Group(tail, axis, g));
      }
    }
  }

  lemma {:induction false} GroupOfOutside(rows: seq<Row>, axis: Axis, g: string, h: string)
    requires h != g
    ensures Group(Outside(rows, axis, g), axis, h) == Group(rows, axis, h)
  {
    if rows != [] {
      GroupOfOutside(rows[1..], axis, g, h);
      var o := Outside(rows, axis, g);
      if Id(rows[0], axis) != g {
        assert o == [rows[0]] + Outside(rows[1..], axis, g);
        assert o[1..] == Outside(rows[1..], axis, g);
      } else {
        assert o == Outside(rows[1..], axis, g);
      }
    }
  }

  lemma {:induction false} GroupedSkipsOtherKey(rows: seq<Row>, axis: Axis, g: string, keys: seq<string>)
    requires g !in keys
    ensures Grouped(Outside(rows, axis, g), axis, keys) == Grouped(rows, axis, keys)
  {
    if keys != [] {
      GroupOfOutside(rows, axis, g, keys[0]);
      GroupedSkipsOtherKey(rows, axis, g, keys[1..]);
    }
  }

  /** Grouping by every distinct id, each once, loses and duplicates no row. */
  lemma {:induction false} GroupedIsPermutation(rows: seq<Row>, axis: Axis, keys: seq<string>)
    requires NoDuplicates(keys)
    requires forall r :: r in rows ==> Id(r, axis) in keys
    ensures multiset(Grouped(rows, axis, keys)) == multiset(rows)
    decreases |keys|
  {
    if keys == [] {
      EmptyWithoutMembers(rows);
    } else {
      var g := keys[0];
      var out := Outside(rows, axis, g);
      GroupAndOutside(rows, axis, g);
      assert g !in keys[1..] by {
        forall j | 0 <= j < |keys[1..]| ensures keys[1..][j] != g {
          assert keys[1..][j] == keys[j + 1];
        }
      }
      assert NoDuplicates(keys[1..]) by {
        forall i, j | 0 <= i < j < |keys[1..]| ensures keys[1..][i] != keys[1..][j] {
          assert keys[i + 1] != keys[j + 1];
        }
      }
      forall r | r in out ensures Id(r, axis) in keys[1..] {
        assert Id(r, axis) in keys && Id(r, axis) != keys[0];
        var j :| 0 <= j < |keys| && keys[j] == Id(r, axis);
        assert keys[1..][j - 1] == Id(r, axis);
      }
      GroupedIsPermutation(out, axis, keys[1..]);
      GroupedSkipsOtherKey(rows, axis, g, keys[1..]);
    }
  }

  /** `add_ranks` keeps the multiset of rows apart from the column it appends. */
  lemma AddRanksPermutesRows(t: LongTable, axis: Axis)
    ensures multiset(Stripped(RankedByGroup(t, axis).rows)) == multiset(t.rows)
  {
    var keys := GroupKeys(t.rows, axis);
    StrippedRankedGroups(t.rows, axis, keys);
    StrictlySortedHasNoDuplicates(keys);
    forall r | r in t.rows ensures Id(r, axis) in keys { }
    GroupedIsPermutation(t.rows, axis, keys);
  }

  /** Every row of the ranked groups is a row of its own group with the rank of its score
      among the present scores of that group alone. */
  lemma {:induction false} RankedGroupsMembers(rows: seq<Row>, axis: Axis, keys: seq<string>, o: Row)
    requires o in RankedGroups(rows, axis, keys)
    ensures Id(o, axis) in keys
    ensures DropLastRank(o) in Group(rows, axis, Id(o, axis))
    ensures LastRank(o) == (if o.conditionals.Some?
      then Some(AverageRank(o.conditionals.value, Present(Scores(Group(rows, axis, Id(o, axis))))))
      else None)
  {
    if o in RankedGroup(rows, axis, keys[0]) {
      var grp := Group(rows, axis, keys[0]);
      var i :| 0 <= i < |grp| && RankedGroup(rows, axis, keys[0])[i] == o;
      assert grp[i] in grp;
      assert DropLastRank(o) == grp[i];
      assert Scores(grp)[i] == o.conditionals;
    } else {
      RankedGroupsMembers(rows, axis, keys[1..], o);
    }
  }

  /** The per-feature rank of a row depends only on the rows sharing its id, and lies in
      [1, n] for the n present scores of that feature. */
  lemma AddRanksRanksWithinFeature(t: LongTable, axis: Axis, o: Row)
    requires o in RankedByGroup(t, axis).rows
    ensures DropLastRank(o) in t.rows
    ensures LastRank(o).Some? <==> o.conditionals.Some?
    ensures LastRank(o).Some? ==>
      var scores := Present(Scores(Group(t.rows, axis, Id(o, axis))));
      LastRank(o).value == AverageRank(o.conditionals.value, scores) &&
      1.0 <= LastRank(o).value <= |scores| as real
  {
    var keys := GroupKeys(t.rows, axis);
    RankedGroupsMembers(t.rows, axis, keys, o);
    var grp := Group(t.rows, axis, Id(o, axis));
    if o.conditionals.Some? {
      assert DropLastRank(o).conditionals == o.conditionals;
      var i :| 0 <= i < |grp| && grp[i] == DropLastRank(o);
      assert Scores(grp)[i] == o.conditionals;
      assert o.conditionals in Scores(grp);
      AverageRankBounds(o.conditionals.value, Present(Scores(grp)));
    }
  }

  /** The rows come out grouped by id, the groups in ascending id order. */
  lemma {:induction false} RankedGroupsOrderedById(rows: seq<Row>, axis: Axis, keys: seq<string>)
    requires StrictlySorted(keys)
    ensures forall p, q :: 0 <= p < q < |RankedGroups(rows, axis, keys)| ==>
      var a, b := Id(RankedGroups(rows, axis, keys)[p], axis), Id(RankedGroups(rows, axis, keys)[q], axis);
      a == b || Below(a, b)
  {
    if keys != [] {
      var out := RankedGroups(rows, axis, keys);
      var first, rest := RankedGroup(rows, axis, keys[0]), RankedGroups(rows, axis, keys[1..]);
      RankedGroupsOrderedById(rows, axis, keys[1..]);
      forall p | 0 <= p < |first| ensures Id(first[p], axis) == keys[0] {
        RankedGroupIds(rows, axis, keys[0], p);
      }
      forall q | 0 <= q < |rest| ensures Below(keys[0], Id(rest[q], axis)) {
        LaterGroupsAbove(rows, axis, keys, q);
      }
      forall p, q | 0 <= p < q < |out|
        ensures Id(out[p], axis) == Id(out[q], axis) || Below(Id(out[p], axis), Id(out[q], axis))
      {
        if p >= |first| {
          assert out[p] == rest[p - |first|] && out[q] == rest[q - |first|];
        } else if q < |first| {
          assert out[p] == first[p] && out[q] == first[q];
        } else {
          assert out[p] == first[p] && out[q] == rest[q - |first|];
        }
      }
    }
  }

  lemma RankedGroupIds(rows: seq<Row>, axis: Axis, g: string, p: nat)
    requires p < |RankedGroup(rows, axis, g)|
    ensures Id(RankedGroup(rows, axis, g)[p], axis) == g
  {
    var grp := Group(rows, axis, g);
    assert grp[p] in grp;
    assert Id(RankedGroup(rows, axis, g)[p], axis) == Id(grp[p], axis);
  }

  lemma LaterGroupsAbove(rows: seq<Row>, axis: Axis, keys: seq<string>, q: nat)
    requires StrictlySorted(keys) && keys != [] && q < |RankedGroups(rows, axis, keys[1..])|
    ensures Below(keys[0], Id(RankedGroups(rows, axis, keys[1..])[q], axis))
  {
    var o := RankedGroups(rows, axis, keys[1..])[q];
    RankedGroupsMembers(rows, axis, keys[1..], o);
    var j :| 0 <= j < |keys[1..]| && keys[1..][j] == Id(o, axis);
    assert keys[j + 1] == Id(o, axis);
  }

  // ----- the shape and the scores the two rank steps keep -----

  lemma {:induction false} RankedGroupsShape(t: LongTable, axis: Axis, keys: seq<string>)
    requires Shaped(t)
    ensures forall o | o in RankedGroups(t.rows, axis, keys) ::
      |o.groups| == |t.groupNames| && |o.ranks| == |t.rankNames| + 1
  {
    if keys != [] {
      RankedGroupsShape(t, axis, keys[1..]);
      var grp := Group(t.rows, axis, keys[0]);
      forall o | o in RankedGroup(t.rows, axis, keys[0])
        ensures |o.groups| == |t.groupNames| && |o.ranks| == |t.rankNames| + 1
      {
        var i :| 0 <= i < |grp| && RankedGroup(t.rows, axis, keys[0])[i] == o;
        assert grp[i] in grp;
      }
    }
  }

  /** `add_ranks` adds one rank column to a table whose rows all have every column. */
  lemma RankedByGroupShaped(t: LongTable, axis: Axis)
    requires Shaped(t)
    ensures Shaped(RankedByGroup(t, axis))
    ensures |RankedByGroup(t, axis).rows| == |t.rows|
  {
    RankedGroupsShape(t, axis, GroupKeys(t.rows, axis));
    AddRanksPermutesRows(t, axis);
    assert |multiset(Stripped(RankedByGroup(t, axis).rows))| == |multiset(t.rows)|;
  }

  /** The global rank keeps exactly the scores of the table. */
  lemma GlobalRankScores(t: LongTable, o1: string, o2: string, x: int)
    requires Shaped(t)
    ensures HasScore(GlobalRank(t).rows, o1, o2, x) <==> HasScore(t.rows, o1, o2, x)
  {
    var col := RankColumn(Scores(t.rows));
    var rows := WithRank(t.rows, col);
    assert GlobalRank(t).rows == rows;
    if HasScore(rows, o1, o2, x) {
      var o :| o in rows && o.omic1 == o1 && o.omic2 == o2 && o.conditionals == Some(x);
      var i :| 0 <= i < |rows| && rows[i] == o;
      assert t.rows[i] in t.rows;
    }
    if HasScore(t.rows, o1, o2, x) {
      var r :| r in t.rows && r.omic1 == o1 && r.omic2 == o2 && r.conditionals == Some(x);
      var i :| 0 <= i < |t.rows| && t.rows[i] == r;
      assert rows[i] in rows;
    }
  }

  /** Tables with the same rows, in any order, hold the same scores. */
  lemma PermutedScores(a: seq<Row>, b: seq<Row>, o1: string, o2: string, x: int)
    requires multiset(a) == multiset(b)
    ensures HasScore(a, o1, o2, x) <==> HasScore(b, o1, o2, x)
  {
    if HasScore(a, o1, o2, x) {
      var r :| r in a && r.omic1 == o1 && r.omic2 == o2 && r.conditionals == Some(x);
      assert r in multiset(b);
    }
    if HasScore(b, o1, o2, x) {
      var r :| r in b && r.omic1 == o1 && r.omic2 == o2 && r.conditionals == Some(x);
      assert r in multiset(a);
    }
  }

  /** Dropping the last rank column keeps every score. */
  lemma StrippedScores(rows: seq<Row>, o1: string, o2: string, x: int)
    ensures HasScore(Stripped(rows), o1, o2, x) <==> HasScore(rows, o1, o2, x)
  {
    var rs := Stripped(rows);
    if HasScore(rs, o1, o2, x) {
      var o :| o in rs && o.omic1 == o1 && o.omic2 == o2 && o.conditionals == Some(x);
      var i :| 0 <= i < |rs| && rs[i] == o;
      assert rows[i] in rows;
    }
    if HasScore(rows, o1, o2, x) {
      var r :| r in rows && r.omic1 == o1 && r.omic2 == o2 && r.conditionals == Some(x);
      var i :| 0 <= i < |rows| && rows[i] == r;
      assert rs[i] in rs;
    }
  }

  /** `add_ranks` keeps exactly the scores of the table. */
  lemma RankedByGroupScores(t: LongTable, axis: Axis, o1: string, o2: string, x: int)
    ensures HasScore(RankedByGroup(t, axis).rows, o1, o2, x) <==> HasScore(t.rows, o1, o2, x)
  {
    var rows := RankedByGroup(t, axis).rows;
    AddRanksPermutesRows(t, axis);
    StrippedScores(rows, o1, o2, x);
    PermutedScores(Stripped(rows), t.rows, o1, o2, x);
  }
}
