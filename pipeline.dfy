/** The `xmmvec` command (xmmvec.py:228-265, with `make_figure`'s data steps,
    xmmvec.py:149-179): the matrix is floored, pruned and unstacked, the metadata groups
    are merged, the ranks added, and the chart data, axis orders, measures, sliders and
    initial selection derived. */
module Pipeline {
  import opened Wrappers
  import opened Seqs
  import opened StringOrder
  import opened LongForm
  import opened ScoreMatrix
  import opened Metadata
  import opened Ranking
  import opened Stacking
  import opened AxisOrder
  import opened View

  /** A metadata file as read: its path ('' for none), header, rows, and the stratify
      column asked for. */
  datatype MetadataFile = MetadataFile(path: string, header: seq<string>, rows: seq<seq<Option<string>>>, column: string)

  /** `read_csv` gives every row one cell per header column. */
  predicate WellFormedFile(f: MetadataFile)
  {
    forall row | row in f.rows :: |row| == |f.header|
  }

  /** The command's options besides the paths of the matrix and of the output. */
  datatype Options = Options(floor: int, omic1Name: string, omic2Name: string,
                             meta1: MetadataFile, meta2: MetadataFile, pairNumber: int)

  predicate ValidInputs(m: Matrix, opts: Options)
  {
    Rectangular(m) && WellFormedFile(opts.meta1) && WellFormedFile(opts.meta2)
  }

  /** What the chart is built from: its rows, the two axis orders, the measures of the
      radio buttons, the two sliders and the selection it opens with. */
  datatype Figure = Figure(rows: seq<ViewRow>, omic1Order: seq<string>, omic2Order: seq<string>,
                           measures: seq<string>, slider1: Slider, slider2: Slider, initial: Selection)

  function Resolved(f: MetadataFile, omic: string): Result<(MetadataTable, string)>
  {
    GetMetadata(f.path, f.header, f.rows, f.column, omic)
  }

  /** A resolved metadata table can be merged: it is well formed and holds the axis
      column and the resolved column. */
  lemma ResolvedIsMergeable(f: MetadataFile, omic: string)
    requires WellFormedFile(f) && Resolved(f, omic).Ok?
    ensures WellFormedMetadata(Resolved(f, omic).value.0)
    ensures Resolved(f, omic).value.1 != "" ==>
      omic in Resolved(f, omic).value.0.columns && Resolved(f, omic).value.1 in Resolved(f, omic).value.0.columns
  {
    var (md, c) := Resolved(f, omic).value;
    if f.path != "" {
      assert md.columns[0] in md.columns;
      if c != "" {
        var k :| 0 <= k < |md.columns[1..]| && md.columns[1..][k] == c;
        assert md.columns[k + 1] == c;
      }
    }
  }

  /** The per-feature rank columns of the final table. */
  function RankNames(omic1: string, omic2: string): seq<string>
  {
    ["ranked_conditionals", "conditionals_per_" + omic1, "conditionals_per_" + omic2]
  }

  /** The matrix floored, pruned and unstacked under the two axis names. */
  function LongFormOf(m: Matrix, opts: Options): (t: LongTable)
    requires Rectangular(m)
    ensures Shaped(t) && t.groupNames == [] && t.rankNames == []
    ensures t.omic1Name == GetName(opts.omic1Name, "omic1") && t.omic2Name == GetName(opts.omic2Name, "omic2")
  {
    Unstack(Prune(FloorMatrix(m, opts.floor)), GetName(opts.omic1Name, "omic1"), GetName(opts.omic2Name, "omic2"))
  }

  /** Both metadata merges followed by the global rank. */
  function MergedAndRanked(t0: LongTable, md1: (MetadataTable, string), md2: (MetadataTable, string)): (r: (LongTable, string, string))
    requires Shaped(t0) && t0.groupNames == [] && t0.rankNames == []
    requires WellFormedMetadata(md1.0) && (md1.1 != "" ==> t0.omic1Name in md1.0.columns && md1.1 in md1.0.columns)
    requires WellFormedMetadata(md2.0) && (md2.1 != "" ==> t0.omic2Name in md2.0.columns && md2.1 in md2.0.columns)
    ensures Shaped(r.0) && r.0.groupNames == StackKeys(r.1, r.2) && r.0.rankNames == ["ranked_conditionals"]
    ensures r.0.omic1Name == t0.omic1Name && r.0.omic2Name == t0.omic2Name
  {
    var merged1 := MergeMetadata(t0, md1.0, md1.1, Omic1);
    var merged2 := MergeMetadata(merged1.0, md2.0, md2.1, Omic2);
    MergedGroupNames(t0, md1, md2);
    (GlobalRank(merged2.0), merged1.1, merged2.1)
  }

  /** The two merges add one group column per axis that has one, omic1's first. */
  lemma MergedGroupNames(t0: LongTable, md1: (MetadataTable, string), md2: (MetadataTable, string))
    requires Shaped(t0) && t0.groupNames == [] && t0.rankNames == []
    requires WellFormedMetadata(md1.0) && (md1.1 != "" ==> t0.omic1Name in md1.0.columns && md1.1 in md1.0.columns)
    requires WellFormedMetadata(md2.0) && (md2.1 != "" ==> t0.omic2Name in md2.0.columns && md2.1 in md2.0.columns)
    ensures var merged1 := MergeMetadata(t0, md1.0, md1.1, Omic1);
      var merged2 := MergeMetadata(merged1.0, md2.0, md2.1, Omic2);
      merged2.0.groupNames == StackKeys(merged1.1, merged2.1)
  {
    var merged1 := MergeMetadata(t0, md1.0, md1.1, Omic1);
    var merged2 := MergeMetadata(merged1.0, md2.0, md2.1, Omic2);
    var n1 := if md1.1 == "" then [] else [merged1.1];
    var n2 := if md2.1 == "" then [] else [merged2.1];
    assert merged1.0.groupNames == n1;
    assert merged2.0.groupNames == n1 + n2;
    assert StackKeys(merged1.1, merged2.1) == n1 + n2;
  }

  /** The long-form table with its metadata groups merged and its global rank, and the
      two merged group column names ('' when the axis has none); reading a metadata file
      without a header fails. */
  function Annotated(m: Matrix, opts: Options): (r: Result<(LongTable, string, string)>)
    requires ValidInputs(m, opts)
    ensures r.Ok? ==>
      var (t, c1, c2) := r.value;
      Shaped(t) && t.groupNames == StackKeys(c1, c2) && t.rankNames == ["ranked_conditionals"] &&
      t.omic1Name == GetName(opts.omic1Name, "omic1") && t.omic2Name == GetName(opts.omic2Name, "omic2")
  {
    var t0 := LongFormOf(m, opts);
    var md1 := Resolved(opts.meta1, t0.omic1Name);
    if md1.Fail? then Fail(md1.error)
    else
      var md2 := Resolved(opts.meta2, t0.omic2Name);
      if md2.Fail? then Fail(md2.error)
      else
        ResolvedIsMergeable(opts.meta1, t0.omic1Name);
        ResolvedIsMergeable(opts.meta2, t0.omic2Name);
        Ok(MergedAndRanked(t0, md1.value, md2.value))
  }

  /** The score column keeps its own name: no rank column is called 'conditionals'. */
  lemma RankNamesAvoidScore(omic1: string, omic2: string)
    ensures ScoreColumn !in RankNames(omic1, omic2)
  {
    var names := RankNames(omic1, omic2);
    assert |names[0]| != |ScoreColumn| && |names[1]| != |ScoreColumn| && |names[2]| != |ScoreColumn|;
  }

  /** `add_ranks` on omic1, then on omic2. */
  function RankedBoth(t: LongTable): (r: LongTable)
    requires Shaped(t)
    ensures Shaped(r) && r.groupNames == t.groupNames && r.omic1Name == t.omic1Name && r.omic2Name == t.omic2Name
    ensures r.rankNames == t.rankNames + [PerAxisName(t, Omic1), PerAxisName(t, Omic2)]
    ensures |r.rows| == |t.rows|
  {
    RankedByGroupShaped(t, Omic1);
    RankedByGroupShaped(RankedByGroup(t, Omic1), Omic2);
    RankedByGroup(RankedByGroup(t, Omic1), Omic2)
  }

  /** After the global rank, the two `add_ranks` steps leave the three rank columns,
      neither of them called 'conditionals'. */
  lemma RankedBothColumns(t: LongTable)
    requires Shaped(t) && t.rankNames == ["ranked_conditionals"]
    ensures HasPerRanks(RankedBoth(t))
    ensures RankedBoth(t).rankNames == RankNames(t.omic1Name, t.omic2Name)
    ensures ScoreColumn !in RankedBoth(t).rankNames
  {
    var r := RankedBoth(t);
    assert r.rankNames == RankNames(t.omic1Name, t.omic2Name);
    assert PerAxisName(r, Omic1) == r.rankNames[1] && PerAxisName(r, Omic2) == r.rankNames[2];
    RankNamesAvoidScore(t.omic1Name, t.omic2Name);
  }

  /** The table `make_figure` receives: `add_ranks` on each axis, which fails on a table
      without rows. */
  function RankedTable(m: Matrix, opts: Options): (r: Result<(LongTable, string, string)>)
    requires ValidInputs(m, opts)
    ensures r.Ok? ==>
      var (t, c1, c2) := r.value;
      HasPerRanks(t) && t.groupNames == StackKeys(c1, c2) &&
      t.omic1Name == GetName(opts.omic1Name, "omic1") && t.omic2Name == GetName(opts.omic2Name, "omic2") &&
      t.rankNames == RankNames(t.omic1Name, t.omic2Name) && ScoreColumn !in t.rankNames
  {
    var annotated := Annotated(m, opts);
    if annotated.Fail? then Fail(annotated.error)
    else if annotated.value.0.rows == [] then Fail(NothingToConcatenate)
    else
      var t := annotated.value.0;
      RankedBothColumns(t);
      Ok((RankedBoth(t), annotated.value.1, annotated.value.2))
  }

  /** The group column index of each axis in the chart rows (the merged group columns
      come omic1's first). */
  function GroupColumn1(c1: string): Option<nat>
  {
    if c1 == "" then None else Some(0)
  }

  function GroupColumn2(c1: string, c2: string): Option<nat>
  {
    if c2 == "" then None else Some(if c1 == "" then 0 else 1)
  }

  /** The data steps of `make_figure`. */
  function FigureFor(t: LongTable, c1: string, c2: string, pairNumber: int): Result<Figure>
    requires HasPerRanks(t) && t.groupNames == StackKeys(c1, c2)
  {
    var view := AttachPerRanks(GetStacked(t, c1, c2), t);
    var s1 := SliderFor(view, Omic1, pairNumber);
    var s2 := SliderFor(view, Omic2, pairNumber);
    if s1.Fail? then Fail(s1.error)
    else if s2.Fail? then Fail(s2.error)
    else
      AttachedRowsKeepGroups(t, c1, c2);
      Ok(Figure(view, GetSorted(view, Omic1, GroupColumn1(c1)), GetSorted(view, Omic2, GroupColumn2(c1, c2)),
                RadioOptions(t.omic1Name, t.omic2Name), s1.value, s2.value, InitialSelection(pairNumber)))
  }

  /** The whole command on its inputs. */
  function Chart(m: Matrix, opts: Options): Result<Figure>
    requires ValidInputs(m, opts)
  {
    var ranked := RankedTable(m, opts);
    if ranked.Fail? then Fail(ranked.error)
    else FigureFor(ranked.value.0, ranked.value.1, ranked.value.2, opts.pairNumber)
  }

  /** The command, step by step: the matrix is copied into a frame that the floor masks in
      place, and `add_ranks` runs its loop once per axis. */
  method Xmmvec(m: Matrix, opts: Options) returns (r: Result<Figure>)
    requires ValidInputs(m, opts)
    ensures r == Chart(m, opts)
  {
    var frame := new Option<int>[|m.rowIds|, |m.colIds|]((i, j) requires 0 <= i < |m.rowIds| && 0 <= j < |m.colIds| => m.cells[i][j]);
    MaskBelowFloor(frame, opts.floor);
    var masked := Matrix(m.rowIds, m.colIds, Grid(frame));
    forall i | 0 <= i < |m.rowIds| ensures Grid(frame)[i] == FloorMatrix(m, opts.floor).cells[i] { }
    assert masked == FloorMatrix(m, opts.floor);
    var t := Unstack(Prune(masked), GetName(opts.omic1Name, "omic1"), GetName(opts.omic2Name, "omic2"));
    assert t == LongFormOf(m, opts);
    var md1 := Resolved(opts.meta1, t.omic1Name);
    if md1.Fail? {
      return Fail(md1.error);
    }
    var md2 := Resolved(opts.meta2, t.omic2Name);
    if md2.Fail? {
      return Fail(md2.error);
    }
    ResolvedIsMergeable(opts.meta1, t.omic1Name);
    ResolvedIsMergeable(opts.meta2, t.omic2Name);
    var annotated := MergedAndRanked(t, md1.value, md2.value);
    assert Annotated(m, opts) == Ok(annotated);
    var byOmic1 := AddRanks(annotated.0, Omic1);
    if byOmic1.Fail? {
      return Fail(byOmic1.error);
    }
    RankedByGroupShaped(annotated.0, Omic1);
    var byOmic2 := AddRanks(byOmic1.value, Omic2);
    assert byOmic2 == Ok(RankedBoth(annotated.0));
    r := FigureFor(byOmic2.value, annotated.1, annotated.2, opts.pairNumber);
  }

  // ----- what the command promises -----

  /** The long form holds exactly the matrix scores at or above the floor. */
  lemma LongFormScores(m: Matrix, opts: Options, o1: string, o2: string, x: int)
    requires Rectangular(m)
    ensures HasScore(LongFormOf(m, opts).rows, o1, o2, x) <==> CellScore(m, o1, o2, x) && opts.floor <= x
  {
    var f := FloorMatrix(m, opts.floor);
    UnstackScores(Prune(f), GetName(opts.omic1Name, "omic1"), GetName(opts.omic2Name, "omic2"), o1, o2, x);
    PruneScores(f, o1, o2, x);
    FloorScores(m, opts.floor, o1, o2, x);
  }

  lemma MergedAndRankedScores(t0: LongTable, md1: (MetadataTable, string), md2: (MetadataTable, string),
                              o1: string, o2: string, x: int)
    requires Shaped(t0) && t0.groupNames == [] && t0.rankNames == []
    requires WellFormedMetadata(md1.0) && (md1.1 != "" ==> t0.omic1Name in md1.0.columns && md1.1 in md1.0.columns)
    requires WellFormedMetadata(md2.0) && (md2.1 != "" ==> t0.omic2Name in md2.0.columns && md2.1 in md2.0.columns)
    ensures HasScore(MergedAndRanked(t0, md1, md2).0.rows, o1, o2, x) <==> HasScore(t0.rows, o1, o2, x)
  {
    var merged1 := MergeMetadata(t0, md1.0, md1.1, Omic1);
    MergeScores(t0, md1.0, md1.1, Omic1, o1, o2, x);
    MergeScores(merged1.0, md2.0, md2.1, Omic2, o1, o2, x);
    GlobalRankScores(MergeMetadata(merged1.0, md2.0, md2.1, Omic2).0, o1, o2, x);
  }

  lemma AnnotatedScores(m: Matrix, opts: Options, o1: string, o2: string, x: int)
    requires ValidInputs(m, opts) && Annotated(m, opts).Ok?
    ensures HasScore(Annotated(m, opts).value.0.rows, o1, o2, x) <==> CellScore(m, o1, o2, x) && opts.floor <= x
  {
    var t0 := LongFormOf(m, opts);
    var md1, md2 := Resolved(opts.meta1, t0.omic1Name), Resolved(opts.meta2, t0.omic2Name);
    ResolvedIsMergeable(opts.meta1, t0.omic1Name);
    ResolvedIsMergeable(opts.meta2, t0.omic2Name);
    MergedAndRankedScores(t0, md1.value, md2.value, o1, o2, x);
    LongFormScores(m, opts, o1, o2, x);
  }

  lemma RankedTableScores(m: Matrix, opts: Options, o1: string, o2: string, x: int)
    requires ValidInputs(m, opts) && RankedTable(m, opts).Ok?
    ensures HasScore(RankedTable(m, opts).value.0.rows, o1, o2, x) <==> CellScore(m, o1, o2, x) && opts.floor <= x
  {
    var t := Annotated(m, opts).value.0;
    AnnotatedScores(m, opts, o1, o2, x);
    RankedByGroupScores(t, Omic1, o1, o2, x);
    RankedByGroupScores(RankedByGroup(t, Omic1), Omic2, o1, o2, x);
  }

  /** The chart's score records are exactly the cells of the input matrix at or above the
      floor: the floor drops the lower ones, and pruning, unstacking, the merges, the ranks,
      stacking and the merge-back lose none and invent none. */
  lemma ChartScoresAreFlooredCells(m: Matrix, opts: Options, o1: string, o2: string, x: int)
    requires ValidInputs(m, opts) && Chart(m, opts).Ok?
    ensures HasViewScore(Chart(m, opts).value.rows, o1, o2, x) <==> CellScore(m, o1, o2, x) && opts.floor <= x
  {
    var ranked := RankedTable(m, opts);
    assert Chart(m, opts) == FigureFor(ranked.value.0, ranked.value.1, ranked.value.2, opts.pairNumber);
    RankedTableScores(m, opts, o1, o2, x);
    FigureForScores(ranked.value.0, ranked.value.1, ranked.value.2, opts.pairNumber, o1, o2, x);
  }

  /** The chart's score records are the scores of the ranked table. */
  lemma FigureForScores(t: LongTable, c1: string, c2: string, pairNumber: int, o1: string, o2: string, x: int)
    requires HasPerRanks(t) && t.groupNames == StackKeys(c1, c2) && ScoreColumn !in t.rankNames
    requires FigureFor(t, c1, c2, pairNumber).Ok?
    ensures HasViewScore(FigureFor(t, c1, c2, pairNumber).value.rows, o1, o2, x) <==> HasScore(t.rows, o1, o2, x)
  {
    var st := GetStacked(t, c1, c2);
    assert FigureFor(t, c1, c2, pairNumber).value.rows == AttachPerRanks(st, t);
    StackScores(t, c1, c2, o1, o2, x);
    AttachScores(st, t, o1, o2, x);
  }

  /** A metadata path was given whose file has no header line. */
  predicate MetadataFileEmpty(f: MetadataFile)
  {
    f.path != "" && f.header == []
  }

  /** No cell holds a score at or above the floor. */
  ghost predicate NothingAboveFloor(m: Matrix, floor: int)
    requires Rectangular(m)
  {
    forall o1, o2, x :: CellScore(m, o1, o2, x) ==> x < floor
  }

  lemma NothingAboveFloorLeavesNoRows(m: Matrix, opts: Options)
    requires Rectangular(m) && NothingAboveFloor(m, opts.floor)
    ensures LongFormOf(m, opts).rows == []
  {
    var f := FloorMatrix(m, opts.floor);
    forall i | 0 <= i < |f.rowIds| ensures !RowHasValue(f, i) {
      forall j | 0 <= j < |f.colIds| ensures f.cells[i][j].None? {
        if f.cells[i][j].Some? {
          assert CellScore(m, m.colIds[j], m.rowIds[i], f.cells[i][j].value);
        }
      }
    }
    PruneKeepsExactlyTheNonEmpty(f);
    EmptyWithoutMembers(KeptRows(f));
    var p := Prune(f);
    UnstackOneRecordPerCell(p, GetName(opts.omic1Name, "omic1"), GetName(opts.omic2Name, "omic2"));
  }

  lemma NoRowsStayNoRows(t0: LongTable, md1: (MetadataTable, string), md2: (MetadataTable, string))
    requires Shaped(t0) && t0.groupNames == [] && t0.rankNames == [] && t0.rows == []
    requires WellFormedMetadata(md1.0) && (md1.1 != "" ==> t0.omic1Name in md1.0.columns && md1.1 in md1.0.columns)
    requires WellFormedMetadata(md2.0) && (md2.1 != "" ==> t0.omic2Name in md2.0.columns && md2.1 in md2.0.columns)
    ensures MergedAndRanked(t0, md1, md2).0.rows == []
  {
    var merged1 := MergeMetadata(t0, md1.0, md1.1, Omic1);
    assert merged1.0.rows == [] by {
      if md1.1 != "" {
        var pairs := IdAndColumn(md1.0, t0.omic1Name, md1.1);
        assert JoinBlocks(t0.rows, pairs, (r: Row) => Some(Id(r, Omic1)), (p: (Option<string>, Option<string>)) => p.0) == [];
      }
    }
    var merged2 := MergeMetadata(merged1.0, md2.0, md2.1, Omic2);
    assert merged2.0.rows == [] by {
      if md2.1 != "" {
        var pairs := IdAndColumn(md2.0, t0.omic2Name, md2.1);
        assert JoinBlocks(merged1.0.rows, pairs, (r: Row) => Some(Id(r, Omic2)), (p: (Option<string>, Option<string>)) => p.0) == [];
      }
    }
  }

  lemma AnnotatedFailures(m: Matrix, opts: Options)
    requires ValidInputs(m, opts)
    ensures Annotated(m, opts).Fail? <==> MetadataFileEmpty(opts.meta1) || MetadataFileEmpty(opts.meta2)
    ensures Annotated(m, opts).Fail? ==> Annotated(m, opts).error == EmptyMetadataFile
  {
  }

  lemma AnnotatedRowsEmpty(m: Matrix, opts: Options)
    requires ValidInputs(m, opts) && Annotated(m, opts).Ok?
    ensures Annotated(m, opts).value.0.rows == [] <==> NothingAboveFloor(m, opts.floor)
  {
    var t0 := LongFormOf(m, opts);
    var md1, md2 := Resolved(opts.meta1, t0.omic1Name), Resolved(opts.meta2, t0.omic2Name);
    ResolvedIsMergeable(opts.meta1, t0.omic1Name);
    ResolvedIsMergeable(opts.meta2, t0.omic2Name);
    var t := Annotated(m, opts).value.0;
    if NothingAboveFloor(m, opts.floor) {
      NothingAboveFloorLeavesNoRows(m, opts);
      NoRowsStayNoRows(t0, md1.value, md2.value);
    } else {
      var o1, o2, x :| CellScore(m, o1, o2, x) && opts.floor <= x;
      AnnotatedScores(m, opts, o1, o2, x);
      var r :| r in t.rows && r.omic1 == o1 && r.omic2 == o2 && r.conditionals == Some(x);
    }
  }

  /** The data steps of `make_figure` fail only where a slider has no rank to reach. */
  lemma FigureForFailures(t: LongTable, c1: string, c2: string, pairNumber: int)
    requires HasPerRanks(t) && t.groupNames == StackKeys(c1, c2)
    ensures FigureFor(t, c1, c2, pairNumber).Fail? ==> FigureFor(t, c1, c2, pairNumber).error == NoMaximumRank
  {
  }

  /** The command fails as the source does: on a metadata file without a header (the
      first axis's file is read first), and, when the metadata is readable, on a matrix
      with no score at or above the floor, where `pd.concat` gets no group. */
  lemma ChartFailures(m: Matrix, opts: Options)
    requires ValidInputs(m, opts)
    ensures Chart(m, opts) == Fail(EmptyMetadataFile) <==> MetadataFileEmpty(opts.meta1) || MetadataFileEmpty(opts.meta2)
    ensures Chart(m, opts) == Fail(NothingToConcatenate) <==>
      !MetadataFileEmpty(opts.meta1) && !MetadataFileEmpty(opts.meta2) && NothingAboveFloor(m, opts.floor)
    ensures Chart(m, opts).Ok? <==>
      !MetadataFileEmpty(opts.meta1) && !MetadataFileEmpty(opts.meta2) && !NothingAboveFloor(m, opts.floor)
  {
    AnnotatedFailures(m, opts);
    if Annotated(m, opts).Ok? {
      AnnotatedRowsEmpty(m, opts);
      var ranked := RankedTable(m, opts);
      if ranked.Ok? {
        FigureForFailures(ranked.value.0, ranked.value.1, ranked.value.2, opts.pairNumber);
      }
      if !NothingAboveFloor(m, opts.floor) {
        ChartSucceeds(m, opts);
      }
    }
  }

  /** With readable metadata and a score at or above the floor the command succeeds: the
      scored row has both per-feature ranks, so neither slider lacks a maximum. */
  lemma ChartSucceeds(m: Matrix, opts: Options)
    requires ValidInputs(m, opts)
    requires !MetadataFileEmpty(opts.meta1) && !MetadataFileEmpty(opts.meta2) && !NothingAboveFloor(m, opts.floor)
    ensures Chart(m, opts).Ok?
  {
    RankedTableSucceeds(m, opts);
    var ranked := RankedTable(m, opts).value;
    var r :| r in ranked.0.rows && r.conditionals.Some?;
    RankedTableRowHasPerRanks(m, opts, r);
    FigureForSucceeds(ranked.0, ranked.1, ranked.2, opts.pairNumber, r);
    assert Chart(m, opts) == FigureFor(ranked.0, ranked.1, ranked.2, opts.pairNumber);
  }

  /** With readable metadata and a score at or above the floor the ranked table exists and
      holds a scored row. */
  lemma RankedTableSucceeds(m: Matrix, opts: Options)
    requires ValidInputs(m, opts)
    requires !MetadataFileEmpty(opts.meta1) && !MetadataFileEmpty(opts.meta2) && !NothingAboveFloor(m, opts.floor)
    ensures RankedTable(m, opts).Ok? && exists r :: r in RankedTable(m, opts).value.0.rows && r.conditionals.Some?
  {
    AnnotatedFailures(m, opts);
    AnnotatedRowsEmpty(m, opts);
    var o1, o2, x :| CellScore(m, o1, o2, x) && opts.floor <= x;
    assert RankedTable(m, opts).Ok?;
    RankedTableScores(m, opts, o1, o2, x);
  }

  /** Every scored row of the ranked table has both per-feature ranks. */
  lemma RankedTableRowHasPerRanks(m: Matrix, opts: Options, r: Row)
    requires ValidInputs(m, opts) && RankedTable(m, opts).Ok?
    requires r in RankedTable(m, opts).value.0.rows && r.conditionals.Some?
    ensures var t := RankedTable(m, opts).value.0;
      RankIn(t, r, PerAxisName(t, Omic1)).Some? && RankIn(t, r, PerAxisName(t, Omic2)).Some?
  {
    var t := RankedTable(m, opts).value.0;
    var a := Annotated(m, opts).value.0;
    assert t == RankedBoth(a);
    RankedRowHasPerRanks(a, r);
    PerRanksPresent(t, r);
  }

  /** A row whose two last rank columns are present has both per-feature ranks. */
  lemma PerRanksPresent(t: LongTable, r: Row)
    requires HasPerRanks(t) && t.rankNames == RankNames(t.omic1Name, t.omic2Name)
    requires r in t.rows && |r.ranks| == 3 && r.ranks[1].Some? && r.ranks[2].Some?
    ensures RankIn(t, r, PerAxisName(t, Omic1)).Some? && RankIn(t, r, PerAxisName(t, Omic2)).Some?
  {
    PerRankColumns(t.omic1Name, t.omic2Name);
  }

  /** After both `add_ranks` steps a row with a score has both per-feature ranks. */
  lemma RankedRowHasPerRanks(a: LongTable, o: Row)
    requires Shaped(a) && |a.rankNames| == 1
    requires o in RankedBoth(a).rows && o.conditionals.Some?
    ensures |o.ranks| == 3 && o.ranks[1].Some? && o.ranks[2].Some?
  {
    var t1 := RankedByGroup(a, Omic1);
    RankedByGroupShaped(a, Omic1);
    assert RankedBoth(a) == RankedByGroup(t1, Omic2);
    AddRanksRanksWithinFeature(t1, Omic2, o);
    var o' := DropLastRank(o);
    assert o'.conditionals == o.conditionals && o'.ranks == o.ranks[..2];
    AddRanksRanksWithinFeature(a, Omic1, o');
  }

  /** The per-feature rank columns are found at index 1 or 2, after the global rank ("r…"
      differs from "c…" at the first letter). */
  lemma PerRankColumns(omic1: string, omic2: string)
    ensures var names := RankNames(omic1, omic2);
      1 <= FirstIndex(names, names[1]) <= 2 && 1 <= FirstIndex(names, names[2]) <= 2
  {
    var names := RankNames(omic1, omic2);
    assert names[0][0] == 'r' && names[1][0] == 'c' && names[2][0] == 'c';
  }

  /** A scored row with both per-feature ranks gives each slider a rank to reach. */
  lemma FigureForSucceeds(t: LongTable, c1: string, c2: string, pairNumber: int, r: Row)
    requires HasPerRanks(t) && t.groupNames == StackKeys(c1, c2)
    requires r in t.rows && r.conditionals.Some?
    requires RankIn(t, r, PerAxisName(t, Omic1)).Some? && RankIn(t, r, PerAxisName(t, Omic2)).Some?
    ensures FigureFor(t, c1, c2, pairNumber).Ok?
  {
    var st := GetStacked(t, c1, c2);
    CellScoreIsStacked(t, c1, c2, r);
    var s := StackedRow(r.omic1, r.omic2, r.groups, ScoreColumn, r.conditionals.value as real);
    var j :| 0 <= j < |t.rows| && t.rows[j] == r;
    var q := PerRanks(t)[j];
    assert q in PerRanks(t);
    assert JoinedWith(t, s, Some(q));
    var v := WithPerRanks(s, Some(q));
    AttachedRows(st, t, v);
    var view := AttachPerRanks(st, t);
    assert PerOf(v, Omic1).Some? && PerOf(v, Omic2).Some?;
    assert PerOf(v, Omic1).value in PerValues(view, Omic1);
    assert PerOf(v, Omic2).value in PerValues(view, Omic2);
  }

  /** The figure's measures are the stacked columns, and every chart row's measure is one
      of them. */
  lemma FigureMeasures(t: LongTable, c1: string, c2: string, pairNumber: int)
    requires HasPerRanks(t) && t.groupNames == StackKeys(c1, c2) && FigureFor(t, c1, c2, pairNumber).Ok?
    ensures FigureFor(t, c1, c2, pairNumber).value.measures == RadioOptions(t.omic1Name, t.omic2Name)
    ensures forall v | v in FigureFor(t, c1, c2, pairNumber).value.rows :: v.conditional in ValueNames(t)
  {
    var st := GetStacked(t, c1, c2);
    assert FigureFor(t, c1, c2, pairNumber).value.rows == AttachPerRanks(st, t);
    forall v | v in AttachPerRanks(st, t) ensures v.conditional in ValueNames(t) {
      ChartRowMeasure(t, c1, c2, v);
    }
  }

  lemma ChartRowMeasure(t: LongTable, c1: string, c2: string, v: ViewRow)
    requires HasPerRanks(t) && t.groupNames == StackKeys(c1, c2)
    requires v in AttachPerRanks(GetStacked(t, c1, c2), t)
    ensures v.conditional in ValueNames(t)
  {
    var st := GetStacked(t, c1, c2);
    AttachedRows(st, t, v);
    var s, q :| s in st && v == WithPerRanks(s, q) && JoinedWith(t, s, q);
    StackRowsMembers(t.rows, ValueNames(t), s);
    var i :| 0 <= i < |t.rows| && RecordOfCell(t.rows[i], ValueNames(t), Values(t.rows[i]), s);
    assert t.rows[i] in t.rows;
  }

  /** The radio buttons list the score column and then the rank columns. */
  lemma RadioOptionsAreValueColumns(omic1: string, omic2: string)
    ensures RadioOptions(omic1, omic2) == [ScoreColumn] + RankNames(omic1, omic2)
  {
  }

  /** The radio buttons offer exactly the stacked measures: every chart row's measure is
      one of them. */
  lemma ChartMeasures(m: Matrix, opts: Options)
    requires ValidInputs(m, opts) && Chart(m, opts).Ok?
    ensures Chart(m, opts).value.measures == RadioOptions(GetName(opts.omic1Name, "omic1"), GetName(opts.omic2Name, "omic2"))
    ensures forall v | v in Chart(m, opts).value.rows :: v.conditional in Chart(m, opts).value.measures
  {
    var ranked := RankedTable(m, opts).value;
    var t := ranked.0;
    FigureMeasures(t, ranked.1, ranked.2, opts.pairNumber);
    RadioOptionsAreValueColumns(t.omic1Name, t.omic2Name);
  }

  /** Both sliders run from 1, start at `p_pair_number`, and at their top show every rank;
      the chart opens on the initial selection. */
  lemma ChartSliders(m: Matrix, opts: Options, v: ViewRow)
    requires ValidInputs(m, opts) && Chart(m, opts).Ok? && v in Chart(m, opts).value.rows
    ensures var fig := Chart(m, opts).value;
      fig.slider1.min == 1 && fig.slider1.init == opts.pairNumber &&
      fig.slider2.min == 1 && fig.slider2.init == opts.pairNumber &&
      (v.per1.Some? ==> AtMost(v.per1, fig.slider1.max)) &&
      (v.per2.Some? ==> AtMost(v.per2, fig.slider2.max)) &&
      fig.initial == InitialSelection(opts.pairNumber)
  {
    var ranked := RankedTable(m, opts);
    assert Chart(m, opts) == FigureFor(ranked.value.0, ranked.value.1, ranked.value.2, opts.pairNumber);
    FigureSliders(ranked.value.0, ranked.value.1, ranked.value.2, opts.pairNumber);
    var fig := Chart(m, opts).value;
    if v.per1.Some? {
      SliderTopShowsEveryRank(fig.rows, Omic1, opts.pairNumber, v);
    }
    if v.per2.Some? {
      SliderTopShowsEveryRank(fig.rows, Omic2, opts.pairNumber, v);
    }
  }

  /** The figure's sliders are the corrected sliders of its own rows, and it opens on the
      initial selection. */
  lemma FigureSliders(t: LongTable, c1: string, c2: string, pairNumber: int)
    requires HasPerRanks(t) && t.groupNames == StackKeys(c1, c2) && FigureFor(t, c1, c2, pairNumber).Ok?
    ensures var fig := FigureFor(t, c1, c2, pairNumber).value;
      SliderFor(fig.rows, Omic1, pairNumber) == Ok(fig.slider1) &&
      SliderFor(fig.rows, Omic2, pairNumber) == Ok(fig.slider2) &&
      fig.initial == InitialSelection(pairNumber)
  {
  }

  /** The sliders `make_figure` builds with `int(max)`: each has the chart's bottom and
      start, its top is the largest per-feature rank of the chart rows truncated, and the
      chart's own top is that or one more. */
  lemma ChartAsWrittenSliders(m: Matrix, opts: Options)
    requires ValidInputs(m, opts) && Chart(m, opts).Ok?
    ensures var fig := Chart(m, opts).value;
      var written1, written2 := SliderAsWritten(fig.rows, Omic1, opts.pairNumber), SliderAsWritten(fig.rows, Omic2, opts.pairNumber);
      (written1.Ok? && PerValues(fig.rows, Omic1) != [] &&
       TruncatesTo(MaxOf(PerValues(fig.rows, Omic1)), written1.value.max) &&
       written1.value == fig.slider1.(max := written1.value.max) &&
       written1.value.max <= fig.slider1.max <= written1.value.max + 1) &&
      (written2.Ok? && PerValues(fig.rows, Omic2) != [] &&
       TruncatesTo(MaxOf(PerValues(fig.rows, Omic2)), written2.value.max) &&
       written2.value == fig.slider2.(max := written2.value.max) &&
       written2.value.max <= fig.slider2.max <= written2.value.max + 1)
  {
    var ranked := RankedTable(m, opts);
    assert Chart(m, opts) == FigureFor(ranked.value.0, ranked.value.1, ranked.value.2, opts.pairNumber);
    FigureSliders(ranked.value.0, ranked.value.1, ranked.value.2, opts.pairNumber);
    var fig := Chart(m, opts).value;
    CorrectedTopIsAtMostOneHigher(fig.rows, Omic1, opts.pairNumber);
    CorrectedTopIsAtMostOneHigher(fig.rows, Omic2, opts.pairNumber);
  }

  /** Each axis's group column index names that axis's stacked key. */
  lemma GroupColumnsNameKeys(c1: string, c2: string)
    ensures c1 != "" ==> |StackKeys(c1, c2)| >= 1 && StackKeys(c1, c2)[0] == c1
    ensures c2 != "" ==> var g := if c1 == "" then 0 else 1; g < |StackKeys(c1, c2)| && StackKeys(c1, c2)[g] == c2
  {
  }

  /** The figure's rows are the attached stacked records, and its axis orders are
      `get_sorted` of them with each axis's group column. */
  lemma FigureOrders(t: LongTable, c1: string, c2: string, pairNumber: int)
    requires HasPerRanks(t) && t.groupNames == StackKeys(c1, c2) && FigureFor(t, c1, c2, pairNumber).Ok?
    ensures var view := AttachPerRanks(GetStacked(t, c1, c2), t);
      (c1 != "" ==> HasGroup(view, 0)) && (c2 != "" ==> HasGroup(view, if c1 == "" then 0 else 1))
    ensures var view := AttachPerRanks(GetStacked(t, c1, c2), t);
      var fig := FigureFor(t, c1, c2, pairNumber).value;
      fig.rows == view &&
      fig.omic1Order == GetSorted(view, Omic1, GroupColumn1(c1)) &&
      fig.omic2Order == GetSorted(view, Omic2, GroupColumn2(c1, c2))
  {
    AttachedRowsKeepGroups(t, c1, c2);
    GroupColumnsNameKeys(c1, c2);
  }

  /** The omic1 axis: with no group column, the ids of the chart rows sorted, once each;
      with one, exactly the ids of rows that have a group. */
  lemma FigureOmic1Order(t: LongTable, c1: string, c2: string, pairNumber: int)
    requires HasPerRanks(t) && t.groupNames == StackKeys(c1, c2) && FigureFor(t, c1, c2, pairNumber).Ok?
    ensures var fig := FigureFor(t, c1, c2, pairNumber).value;
      c1 == "" ==>
        StrictlySorted(fig.omic1Order) &&
        forall x :: x in fig.omic1Order <==> exists i :: 0 <= i < |fig.rows| && fig.rows[i].omic1 == x
    ensures var fig := FigureFor(t, c1, c2, pairNumber).value;
      c1 != "" ==>
        t.groupNames[0] == c1 && HasGroup(fig.rows, 0) &&
        forall x :: x in fig.omic1Order <==> exists v :: v in fig.rows && v.groups[0].Some? && v.omic1 == x
  {
    var view := AttachPerRanks(GetStacked(t, c1, c2), t);
    FigureOrders(t, c1, c2, pairNumber);
    GroupColumnsNameKeys(c1, c2);
    if c1 == "" {
      UngroupedOrderIsSortedIds(view, Omic1);
    } else {
      GroupedOrderMembers(view, Omic1, 0);
    }
  }

  /** The omic2 axis: with no group column, the ids of the chart rows sorted, once each;
      with one, exactly the ids of rows that have a group in that column, which follows
      omic1's when both axes are grouped. */
  lemma FigureOmic2Order(t: LongTable, c1: string, c2: string, pairNumber: int)
    requires HasPerRanks(t) && t.groupNames == StackKeys(c1, c2) && FigureFor(t, c1, c2, pairNumber).Ok?
    ensures var fig := FigureFor(t, c1, c2, pairNumber).value;
      c2 == "" ==>
        StrictlySorted(fig.omic2Order) &&
        forall x :: x in fig.omic2Order <==> exists i :: 0 <= i < |fig.rows| && fig.rows[i].omic2 == x
    ensures var fig := FigureFor(t, c1, c2, pairNumber).value;
      var g := if c1 == "" then 0 else 1;
      c2 != "" ==>
        g < |t.groupNames| && t.groupNames[g] == c2 && HasGroup(fig.rows, g) &&
        forall x :: x in fig.omic2Order <==> exists v :: v in fig.rows && v.groups[g].Some? && v.omic2 == x
  {
    if c2 == "" {
      UngroupedOmic2Order(t, c1, c2, pairNumber);
    } else {
      GroupedOmic2Order(t, c1, c2, pairNumber);
    }
  }

  /** The ungrouped case of `FigureOmic2Order`. */
  lemma UngroupedOmic2Order(t: LongTable, c1: string, c2: string, pairNumber: int)
    requires HasPerRanks(t) && t.groupNames == StackKeys(c1, c2) && FigureFor(t, c1, c2, pairNumber).Ok? && c2 == ""
    ensures var fig := FigureFor(t, c1, c2, pairNumber).value;
      StrictlySorted(fig.omic2Order) &&
      forall x :: x in fig.omic2Order <==> exists i :: 0 <= i < |fig.rows| && fig.rows[i].omic2 == x
  {
    FigureOrders(t, c1, c2, pairNumber);
    UngroupedOrderIsSortedIds(AttachPerRanks(GetStacked(t, c1, c2), t), Omic2);
  }

  /** The grouped case of `FigureOmic2Order`. */
  lemma GroupedOmic2Order(t: LongTable, c1: string, c2: string, pairNumber: int)
    requires HasPerRanks(t) && t.groupNames == StackKeys(c1, c2) && FigureFor(t, c1, c2, pairNumber).Ok? && c2 != ""
    ensures var fig := FigureFor(t, c1, c2, pairNumber).value;
      var g := if c1 == "" then 0 else 1;
      g < |t.groupNames| && t.groupNames[g] == c2 && HasGroup(fig.rows, g) &&
      forall x :: x in fig.omic2Order <==> exists v :: v in fig.rows && v.groups[g].Some? && v.omic2 == x
  {
    FigureOrders(t, c1, c2, pairNumber);
    GroupColumnsNameKeys(c1, c2);
    GroupedOrderMembers(AttachPerRanks(GetStacked(t, c1, c2), t), Omic2, if c1 == "" then 0 else 1);
  }
}
