/** The chart's row filter and its rank sliders (`make_figure`, xmmvec.py:160-200). */
module View {
  import opened Wrappers
  import opened LongForm
  import opened Ranking
  import opened Stacking

  /** The state of the chart's controls: the measure of the radio buttons, the two
      click selections and the two slider positions. */
  datatype Selection = Selection(measure: string, highlight1: set<string>, highlight2: set<string>,
                                 cutoff1: int, cutoff2: int)

  /** The measures the radio buttons offer (`conditionals` in `make_figure`). */
  function RadioOptions(omic1: string, omic2: string): seq<string>
  {
    [ScoreColumn, "ranked_conditionals", "conditionals_per_" + omic1, "conditionals_per_" + omic2]
  }

  /** A `selection_multi` filter: nothing clicked lets every row through. */
  predicate Highlighted(chosen: set<string>, id: string)
  {
    chosen == {} || id in chosen
  }

  /** `datum[c] <= cutoff` as the browser evaluates it: a missing value compares as 0. */
  predicate AtMost(per: Option<real>, cutoff: int)
  {
    (if per.Some? then per.value else 0.0) <= cutoff as real
  }

  /** One `transform_filter` of the rect chart. */
  datatype Filter =
    | MeasureIs(measure: string)
    | InHighlight1(chosen: set<string>)
    | InHighlight2(chosen: set<string>)
    | Per1AtMost(cutoff: int)
    | Per2AtMost(cutoff: int)

  predicate Passes(f: Filter, v: ViewRow)
  {
    match f
    case MeasureIs(m) => v.conditional == m
    case InHighlight1(chosen) => Highlighted(chosen, v.omic1)
    case InHighlight2(chosen) => Highlighted(chosen, v.omic2)
    case Per1AtMost(c) => AtMost(v.per1, c)
    case Per2AtMost(c) => AtMost(v.per2, c)
  }

  predicate PassesAll(fs: seq<Filter>, v: ViewRow)
  {
    fs == [] || (Passes(fs[0], v) && PassesAll(fs[1..], v))
  }

  /** The filters of the rect chart in their order: measure, the two highlights, the two
      cutoffs (xmmvec.py:191-200). */
  function Filters(sel: Selection): seq<Filter>
  {
    [MeasureIs(sel.measure), InHighlight1(sel.highlight1), InHighlight2(sel.highlight2),
     Per1AtMost(sel.cutoff1), Per2AtMost(sel.cutoff2)]
  }

  /** The conjunction of the five filters. */
  predicate Shown(sel: Selection, v: ViewRow)
  {
    v.conditional == sel.measure &&
    Highlighted(sel.highlight1, v.omic1) && Highlighted(sel.highlight2, v.omic2) &&
    AtMost(v.per1, sel.cutoff1) && AtMost(v.per2, sel.cutoff2)
  }

  /** One filter step: the rows that pass, in order. */
  function Apply(rows: seq<ViewRow>, f: Filter): (rs: seq<ViewRow>)
    ensures forall v :: v in rs <==> v in rows && Passes(f, v)
  {
    if rows == [] then []
    else (if Passes(f, rows[0]) then [rows[0]] else []) + Apply(rows[1..], f)
  }

  /** The filters applied one after the other. */
  function Chain(rows: seq<ViewRow>, fs: seq<Filter>): seq<ViewRow>
    decreases |fs|
  {
    if fs == [] then rows else Chain(Apply(rows, fs[0]), fs[1..])
  }

  /** The rows that pass every filter at once, in order. */
  function KeepAll(rows: seq<ViewRow>, fs: seq<Filter>): (rs: seq<ViewRow>)
    ensures forall v :: v in rs <==> v in rows && PassesAll(fs, v)
  {
    if rows == [] then []
    else (if PassesAll(fs, rows[0]) then [rows[0]] else []) + KeepAll(rows[1..], fs)
  }

  /** The rect chart's rows: its chain of filters applied to the chart data. */
  function Visible(rows: seq<ViewRow>, sel: Selection): seq<ViewRow>
  {
    Chain(rows, Filters(sel))
  }

  lemma {:induction false} KeepAllOfApply(rows: seq<ViewRow>, f: Filter, rest: seq<Filter>)
    ensures KeepAll(Apply(rows, f), rest) == KeepAll(rows, [f] + rest)
  {
    if rows != [] {
      KeepAllOfApply(rows[1..], f, rest);
      assert ([f] + rest)[0] == f && ([f] + rest)[1..] == rest;
      var tail := Apply(rows[1..], f);
      if Passes(f, rows[0]) {
        assert Apply(rows, f) == [rows[0]] + tail;
        assert ([rows[0]] + tail)[0] == rows[0] && ([rows[0]] + tail)[1..] == tail;
      } else {
        assert Apply(rows, f) == tail;
      }
    }
  }

  /** Applying filters one after the other keeps the rows that pass them all. */
  lemma {:induction false} ChainIsKeepAll(rows: seq<ViewRow>, fs: seq<Filter>)
    ensures Chain(rows, fs) == KeepAll(rows, fs)
    decreases |fs|
  {
    if fs == [] {
      KeepAllOfNothing(rows);
    } else {
      ChainIsKeepAll(Apply(rows, fs[0]), fs[1..]);
      KeepAllOfApply(rows, fs[0], fs[1..]);
      assert [fs[0]] + fs[1..] == fs;
    }
  }

  lemma {:induction false} KeepAllOfNothing(rows: seq<ViewRow>)
    ensures KeepAll(rows, []) == rows
  {
    if rows != [] {
      KeepAllOfNothing(rows[1..]);
    }
  }

  lemma ShownIsPassesAll(sel: Selection, v: ViewRow)
    ensures Shown(sel, v) <==> PassesAll(Filters(sel), v)
  {
    var fs := Filters(sel);
    var f2, f3, f4, f5 := fs[1..], fs[2..], fs[3..], fs[4..];
    assert f2[1..] == f3 && f3[1..] == f4 && f4[1..] == f5 && f5[1..] == [];
    assert PassesAll(f5, v) == Passes(fs[4], v);
    assert PassesAll(f4, v) == (Passes(fs[3], v) && PassesAll(f5, v));
    assert PassesAll(f3, v) == (Passes(fs[2], v) && PassesAll(f4, v));
    assert PassesAll(f2, v) == (Passes(fs[1], v) && PassesAll(f3, v));
  }

  /** The chain of filters is one filter by `Shown`: the drawn rows are the chart rows that
      pass all five, in their order. */
  lemma VisibleIsShown(rows: seq<ViewRow>, sel: Selection)
    ensures Visible(rows, sel) == KeepAll(rows, Filters(sel))
    ensures forall v :: PassesAll(Filters(sel), v) <==> Shown(sel, v)
  {
    ChainIsKeepAll(rows, Filters(sel));
    forall v ensures PassesAll(Filters(sel), v) <==> Shown(sel, v) {
      ShownIsPassesAll(sel, v);
    }
  }

  /** A row is drawn iff it passes all five filters. */
  lemma VisibleMembers(rows: seq<ViewRow>, sel: Selection)
    ensures forall v :: v in Visible(rows, sel) <==> v in rows && Shown(sel, v)
  {
    VisibleIsShown(rows, sel);
  }

  /** Moving a slider up never hides a row that was drawn. */
  lemma RaisingCutoffsShowsMore(rows: seq<ViewRow>, sel: Selection, higher: Selection, v: ViewRow)
    requires higher == sel.(cutoff1 := higher.cutoff1, cutoff2 := higher.cutoff2)
    requires sel.cutoff1 <= higher.cutoff1 && sel.cutoff2 <= higher.cutoff2
    requires v in Visible(rows, sel)
    ensures v in Visible(rows, higher)
  {
    VisibleMembers(rows, sel);
    VisibleMembers(rows, higher);
  }

  /** The controls when the chart opens: the score measure, nothing clicked, both sliders
      at `p_pair_number` (taken as given, with no clamping to the slider range). */
  function InitialSelection(pairNumber: int): Selection
  {
    Selection(ScoreColumn, {}, {}, pairNumber, pairNumber)
  }

  /** The chart opens on the score records whose two per-feature ranks are both at most
      `p_pair_number`. */
  lemma InitialView(rows: seq<ViewRow>, pairNumber: int, v: ViewRow)
    ensures v in Visible(rows, InitialSelection(pairNumber)) <==>
      v in rows && v.conditional == ScoreColumn && AtMost(v.per1, pairNumber) && AtMost(v.per2, pairNumber)
  {
    VisibleMembers(rows, InitialSelection(pairNumber));
  }

  /** A slider (`binding_range`): its lowest and highest positions and where it starts. */
  datatype Slider = Slider(min: int, max: int, init: int)

  /** The present values of one per-feature rank column in the chart's rows. */
  function PerValues(rows: seq<ViewRow>, axis: Axis): (vs: seq<real>)
    ensures forall x :: x in vs <==> exists v :: v in rows && PerOf(v, axis) == Some(x)
  {
    if rows == [] then []
    else
      var rest := PerValues(rows[1..], axis);
      assert forall v :: v in rows <==> v == rows[0] || v in rows[1..];
      if PerOf(rows[0], axis).Some? then [PerOf(rows[0], axis).value] + rest else rest
  }

  function PerOf(v: ViewRow, axis: Axis): Option<real>
  {
    match axis
    case Omic1 => v.per1
    case Omic2 => v.per2
  }

  /** The largest value (pandas `max`, which skips missing values). */
  function MaxOf(s: seq<real>): (m: real)
    requires s != []
    ensures m in s && forall x :: x in s ==> x <= m
  {
    if |s| == 1 then s[0]
    else
      var m := MaxOf(s[1..]);
      assert forall x :: x in s ==> x == s[0] || x in s[1..];
      if s[0] >= m then s[0] else m
  }

  /** `n` is Python's `int(x)`: `x` rounded toward zero. */
  predicate TruncatesTo(x: real, n: int)
  {
    (0.0 <= x ==> n as real <= x < n as real + 1.0) &&
    (x < 0.0 ==> n as real - 1.0 < x <= n as real)
  }

  /** Python `int()` of a number: truncation toward zero. */
  function Truncate(x: real): (n: int)
    ensures TruncatesTo(x, n)
  {
    if x >= 0.0 then x.Floor else -((-x).Floor)
  }

  /** The smallest integer at or above `x`. */
  function Ceiling(x: real): (n: int)
    ensures x <= n as real < x + 1.0
  {
    -((-x).Floor)
  }

  /** The slider of xmmvec.py:166-172 as written: `max=int(max rank)`; with no rank at
      all `int(nan)` raises. */
  function SliderAsWritten(rows: seq<ViewRow>, axis: Axis, pairNumber: int): (r: Result<Slider>)
    ensures r.Fail? <==> PerValues(rows, axis) == []
    ensures r.Ok? ==> (r.value.min == 1 && r.value.init == pairNumber &&
                       TruncatesTo(MaxOf(PerValues(rows, axis)), r.value.max))
  {
    var vs := PerValues(rows, axis);
    if vs == [] then Fail(NoMaximumRank) else Ok(Slider(1, Truncate(MaxOf(vs)), pairNumber))
  }

  /** The slider with its top rounded up, so that its highest position reaches every rank. */
  function SliderFor(rows: seq<ViewRow>, axis: Axis, pairNumber: int): (r: Result<Slider>)
    ensures r.Fail? <==> PerValues(rows, axis) == []
    ensures r.Ok? ==> (r.value.min == 1 && r.value.init == pairNumber &&
                       MaxOf(PerValues(rows, axis)) <= r.value.max as real < MaxOf(PerValues(rows, axis)) + 1.0)
  {
    var vs := PerValues(rows, axis);
    if vs == [] then Fail(NoMaximumRank) else Ok(Slider(1, Ceiling(MaxOf(vs)), pairNumber))
  }

  /** Every rank lies below the top of the slider as written plus one: at its highest
      position that slider hides at most the ranks in (max, max + 1). */
  lemma SliderAsWrittenBelowTopPlusOne(rows: seq<ViewRow>, axis: Axis, pairNumber: int, v: ViewRow)
    requires SliderAsWritten(rows, axis, pairNumber).Ok? && v in rows && PerOf(v, axis).Some?
    ensures PerOf(v, axis).value < SliderAsWritten(rows, axis, pairNumber).value.max as real + 1.0
  {
    assert PerOf(v, axis).value in PerValues(rows, axis);
  }

  /** The corrected top is the top as written, or one more when the largest rank is not
      a whole number. */
  lemma CorrectedTopIsAtMostOneHigher(rows: seq<ViewRow>, axis: Axis, pairNumber: int)
    requires PerValues(rows, axis) != []
    ensures SliderAsWritten(rows, axis, pairNumber).Ok? && SliderFor(rows, axis, pairNumber).Ok?
    ensures var written, corrected := SliderAsWritten(rows, axis, pairNumber).value, SliderFor(rows, axis, pairNumber).value;
      corrected == written.(max := corrected.max) &&
      written.max <= corrected.max <= written.max + 1
  {
    var m := MaxOf(PerValues(rows, axis));
    var t, c := Truncate(m), Ceiling(m);
    assert t <= c by {
      assert (t as real) - 1.0 < c as real;
    }
    assert c <= t + 1 by {
      assert (c as real) < t as real + 2.0;
    }
  }

  /** At its highest position the corrected slider hides no row. */
  lemma SliderTopShowsEveryRank(rows: seq<ViewRow>, axis: Axis, pairNumber: int, v: ViewRow)
    requires SliderFor(rows, axis, pairNumber).Ok? && v in rows && PerOf(v, axis).Some?
    ensures AtMost(PerOf(v, axis), SliderFor(rows, axis, pairNumber).value.max)
  {
    assert PerOf(v, axis).value in PerValues(rows, axis);
  }

  /** One matrix column A over rows X, Y, Z with scores 5, 7, 7: as the sole member of
      its omic1 group, the column's scores get the per-omic1 ranks 1, 2.5, 2.5. */
  lemma ExampleRanks()
    ensures RankColumn([Some(5), Some(7), Some(7)]) == [Some(1.0), Some(2.5), Some(2.5)]
  {
    var s := [Some(5), Some(7), Some(7)];
    assert Present(s) == [5, 7, 7];
    assert CountBelow(5, [5, 7, 7]) == 0 && CountEqual(5, [5, 7, 7]) == 1;
    assert CountBelow(7, [5, 7, 7]) == 1 && CountEqual(7, [5, 7, 7]) == 2;
  }

  /** The score records of that example, with their per-feature ranks (each omic2 feature
      has a single cell, so its per-omic2 rank is 1). */
  const ExampleRows: seq<ViewRow> :=
    [ViewRow("A", "X", [], ScoreColumn, 5.0, Some(1.0), Some(1.0)),
     ViewRow("A", "Y", [], ScoreColumn, 7.0, Some(2.5), Some(1.0)),
     ViewRow("A", "Z", [], ScoreColumn, 7.0, Some(2.5), Some(1.0))]

  lemma ExamplePerValues()
    ensures PerValues(ExampleRows, Omic1) == [1.0, 2.5, 2.5]
    ensures MaxOf(PerValues(ExampleRows, Omic1)) == 2.5
  {
    var rows := ExampleRows;
    assert rows[1..][1..] == rows[2..] && rows[2..][1..] == [];
    assert PerValues(rows[2..], Omic1) == [2.5];
    assert PerValues(rows[1..], Omic1) == [2.5, 2.5];
    assert [1.0, 2.5, 2.5][1..] == [2.5, 2.5] && [2.5, 2.5][1..] == [2.5];
  }

  /** In that example the slider as written stops at 2, so at every position it hides the
      two records ranked 2.5; the rounded-up slider reaches 3. */
  lemma TruncatedSliderHidesTopRanks()
    ensures SliderAsWritten(ExampleRows, Omic1, 1) == Ok(Slider(1, 2, 1))
    ensures forall c: int :: c <= 2 ==> !AtMost(ExampleRows[1].per1, c) && !AtMost(ExampleRows[2].per1, c)
    ensures SliderFor(ExampleRows, Omic1, 1) == Ok(Slider(1, 3, 1))
  {
    ExamplePerValues();
    assert Truncate(2.5) == 2 && Ceiling(2.5) == 3;
  }
}
