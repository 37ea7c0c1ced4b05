# Xmmvec: a verified model of the conditionals pipeline

Xmmvec turns a matrix of mmvec conditional scores into an interactive heat map. The
matrix has one row per omic2 feature and one column per omic1 feature. The `xmmvec`
command proceeds in these steps:

1. It masks every score below a probability floor and drops the rows and columns left
   without any score.
2. It unstacks the matrix into a long-form table of (omic1, omic2, conditionals) records.
3. Optionally, it left-joins one group column per axis from a tab-separated metadata
   file.
4. It adds three ranks of the score: a global one, one within each omic1 feature and one
   within each omic2 feature.
5. It stacks the score and the three ranks into (conditional, rank) records and merges
   the two per-feature ranks back onto them.
6. It builds the chart data from that table. The chart orders each axis
   alphabetically, or by group and then alphabetically. It offers the four measures on
   radio buttons, and two sliders bound the per-feature ranks shown.

The model follows `Xmmvec/xmmvec.py` module by module:

| module | file | what it models |
|---|---|---|
| `ScoreMatrix` | `matrix.dfy` | The floor: `MaskBelowFloor` is an in-place loop over an `array2`, and `FloorMatrix` is the function that specifies it. Pruning, and the unstacking into records. |
| `Metadata` | `metadata.dfy` | `get_name`, `get_metadata` and `merge_metadata`. The merge is a left join built on the generic `Seqs.LeftJoin`. |
| `Ranking` | `ranking.dfy` | Ascending average ranks, the global rank, and `add_ranks`. `add_ranks` is a method holding the source's loop, proved against `RankedByGroup`. |
| `Stacking` | `stacking.dfy` | `get_stacked` for each of its four branches, and the merge of the per-feature ranks onto the stacked records. |
| `AxisOrder` | `axis_order.dfy` | `get_sorted`, grouped and ungrouped. |
| `View` | `view.dfy` | The measures of the radio buttons, the five filters of the matrix panel, the initial selection and the two sliders. |
| `Pipeline` | `pipeline.dfy` | The `xmmvec` command. `Xmmvec` runs it step by step and is proved equal to the function `Chart`. The end-to-end properties are lemmas about `Chart`. |

`Seqs`, `StringOrder` and `Wrappers` hold the shared pieces:
- flattening, first-seen order and the left join;
- the order Python uses when it sorts strings;
- `Option`, plus `Result` with its three error causes.

The model follows these facts of the code:

- **Rank direction.** The ranks are pandas' default `rank()`. Rank 1 goes to the
  smallest score, and tied scores share the average of their positions.
- **Unstacking.** It keeps every cell, missing or not. The missing ones disappear only
  once the values are stacked.
- **Group column name.** A merged group column is named `<column>_<omic>`.
- **Initial cutoff.** Each slider starts at the requested pair number, with no clamp to
  the largest rank.
- **Failures.** The command has two failures within the modelled inputs:
  - a metadata path whose file has no header line;
  - nothing left after the floor. `add_ranks` then concatenates zero groups, which
    `pd.concat` refuses.

## Model

| member | source | states |
|---|---|---|
| ScoreMatrix.MaskBelowFloor | Xmmvec/xmmvec.py:243 | The loop leaves every cell of the frame masked: a score below the floor becomes missing, and every other cell keeps its value. |
| ScoreMatrix.FloorKeepsOnlyScoresAtOrAbove | Xmmvec/xmmvec.py:243 | After the floor, a cell holds a score iff it held one at or above the floor, and the score it holds is the original one. |
| ScoreMatrix.FloorScores | Xmmvec/xmmvec.py:243 | The floored matrix holds score x for a pair iff the matrix did and x is at least the floor. |
| ScoreMatrix.PruneKeepsExactlyTheNonEmpty | Xmmvec/xmmvec.py:244-245 | A row (column) is kept iff it has a score. The kept ones stay in their original order, with their labels and cells, and each still has a score afterwards. |
| ScoreMatrix.PruneScores | Xmmvec/xmmvec.py:244-245 | Pruning keeps exactly the same (omic1, omic2, score) cells. |
| ScoreMatrix.UnstackOneRecordPerCell | Xmmvec/xmmvec.py:250-251 | The long form has rows × columns records, one per cell, missing cells included. Each record carries the column label as omic1, the row label as omic2 and the cell as its score. |
| ScoreMatrix.UnstackScores | Xmmvec/xmmvec.py:250-251 | The long form holds a record with score x for a pair iff the matrix cell of that pair holds x. |
| Metadata.GetName | Xmmvec/xmmvec.py:23-27 | The result is the given name when one is given, and the default axis name otherwise. |
| Metadata.GetMetadata | Xmmvec/xmmvec.py:30-44 | An empty path gives an empty table and no column. A file without a header fails. Otherwise the rows are kept, the first column is renamed to the axis name, and the stratify column is kept iff it names one of the other columns. |
| Metadata.ResolvedColumnIsAnotherColumn | Xmmvec/xmmvec.py:41-43 | With distinct header names, the columns are the axis name followed by the rest of the header. The resolved column is the requested one iff it appears after the first header column, and '' otherwise. |
| Metadata.MergeMetadata | Xmmvec/xmmvec.py:47-56 | No column leaves the table unchanged and gives ''. Otherwise one group column named `<column>_<omic>` is appended, and every row gets a value for it. |
| Metadata.MergeKeepsRowsWhenIdsUnique | Xmmvec/xmmvec.py:51 | When no identifier appears in two metadata rows (rows with an empty identifier match nothing and may repeat), the merge keeps the rows in order. Each row gets that identifier's group, or none. |
| Metadata.MergedRowsComeFromTable | Xmmvec/xmmvec.py:51 | Every merged row is a table row with one group added. A present group comes from a metadata row of that identifier. A missing group means that a metadata row of that identifier has an empty cell, or that no metadata row has the identifier. |
| Metadata.MergeKeepsEveryRow | Xmmvec/xmmvec.py:51 | Every table row survives the left join with some group value. |
| Metadata.MergeScores | Xmmvec/xmmvec.py:50-56 | The merge keeps exactly the scored (omic1, omic2) records. |
| Seqs.LeftJoinMembers | Xmmvec/xmmvec.py:51 | A pair is in the left join iff its left side is a left row and one of two holds: its right side is a right row with the same key, or it has none and no right row has that key. |
| Seqs.LeftJoinOfUniqueKeys | Xmmvec/xmmvec.py:158 | With unique keys on the right, the left join keeps the left rows in order, each paired with its one match or with none. |
| Seqs.LeftJoinOfKeysFoundOnce | Xmmvec/xmmvec.py:51 | The same holds when only the keys the left rows look up are unique on the right. |
| Ranking.RankColumnIsAscendingAverage | Xmmvec/xmmvec.py:63 | Among the present scores, each rank lies in [1, n]. Equal scores get equal ranks, and the ranks order exactly as the scores. A lone score gets rank 1. |
| Ranking.GlobalRankOverAllRows | Xmmvec/xmmvec.py:262 | 'ranked_conditionals' is a new last column. Each row keeps everything else and gets the average rank of its score among all scores of the table, or none without a score. |
| Ranking.GlobalRankScores | Xmmvec/xmmvec.py:262 | The global rank keeps exactly the scored records. |
| Ranking.GroupKeys | Xmmvec/xmmvec.py:61 | `groupby` visits each identifier present once, in ascending order, and none when the table is empty. |
| Ranking.AddRanks | Xmmvec/xmmvec.py:59-65 | The loop over the groups gives the groups in ascending identifier order, each with its own rank column. A table without rows fails with nothing to concatenate. |
| Ranking.AddRanksPermutesRows | Xmmvec/xmmvec.py:59-65 | Apart from the new column, `add_ranks` outputs a permutation of its input rows. |
| Ranking.AddRanksRanksWithinFeature | Xmmvec/xmmvec.py:61-63 | Each output row's new rank is the average rank of its score among the scores of its own feature only, and lies in [1, n] for that feature. |
| Ranking.RankedGroupsOrderedById | Xmmvec/xmmvec.py:61-65 | The output rows come grouped by identifier, with the groups in ascending order. |
| Ranking.RankedByGroupShaped | Xmmvec/xmmvec.py:59-65 | `add_ranks` adds one column to every row and keeps the number of rows. |
| Ranking.RankedByGroupScores | Xmmvec/xmmvec.py:59-65 | `add_ranks` keeps exactly the scored records. |
| StringOrder.SortedUnique | Xmmvec/xmmvec.py:98 | `sorted(unique())` is strictly ascending and holds exactly the values of its input. |
| Stacking.StackKeys | Xmmvec/xmmvec.py:70-93 | The four branches stack on the given group columns in omic1, omic2 order, and on no others: one key per non-empty column. |
| Stacking.GetStackedIsPresentCells | Xmmvec/xmmvec.py:68-94 | The stacked records are exactly one (conditional, rank) record per present value of a row. There are as many records as present values. |
| Stacking.StackScores | Xmmvec/xmmvec.py:68-94 | The 'conditionals' records of the stacked table are exactly the scores of the table. |
| Stacking.AttachPerRanksOfStacked | Xmmvec/xmmvec.py:156-158 | With one row per pair, the merge-back keeps every stacked record in order. Each record gains its pair's two per-feature ranks. |
| Stacking.AttachedRows | Xmmvec/xmmvec.py:156-158 | A chart row exists iff it is a stacked record with the per-feature ranks of a row of its pair, or with none when its pair has no row. |
| Stacking.AttachScores | Xmmvec/xmmvec.py:156-158 | The merge-back keeps exactly the score records. |
| Stacking.AttachedRowsKeepGroups | Xmmvec/xmmvec.py:157-158 | Every chart row carries one value per stacked group column. |
| AxisOrder.UngroupedOrderIsSortedIds | Xmmvec/xmmvec.py:97-98 | Without a group column, the axis order is strictly ascending, without repeats, and lists exactly the identifiers on that axis. |
| AxisOrder.GroupedOrderIsBlocks | Xmmvec/xmmvec.py:99-102 | With a group column, the order is a concatenation of one sorted block per distinct group value, the blocks in first-seen order. Each block holds exactly the identifiers of the rows its query selects. |
| AxisOrder.MissingGroupBlockIsEmpty | Xmmvec/xmmvec.py:101-102 | The query for a missing group looks for the text "nan", so its block is empty unless some group is literally "nan". |
| AxisOrder.GroupedOrderMembers | Xmmvec/xmmvec.py:99-102 | The grouped order lists exactly the identifiers that have a group, so features without a group get no place. |
| AxisOrder.GroupedOrderHasNoDuplicates | Xmmvec/xmmvec.py:99-102 | When each feature has a single group, the grouped order has no repeats. |
| View.VisibleIsShown | Xmmvec/xmmvec.py:191-200 | Chaining the five filters keeps the rows that pass all of them: the selected measure, both highlights, and both per-feature rank cutoffs. |
| View.VisibleMembers | Xmmvec/xmmvec.py:191-200 | A row is visible iff it is a chart row that passes every filter. |
| View.RaisingCutoffsShowsMore | Xmmvec/xmmvec.py:198-200 | Raising either slider hides no row. |
| View.InitialView | Xmmvec/xmmvec.py:162-172 | At first only the 'conditionals' records are shown whose two per-feature ranks are at most the requested pair number. A missing rank counts as 0. |
| View.SliderAsWritten | Xmmvec/xmmvec.py:166-172 | As written, a slider goes from 1 to the maximum per-feature rank rounded toward zero, as `int()` does, and starts at the pair number. It fails when that column has no value. |
| View.SliderAsWrittenBelowTopPlusOne | Xmmvec/xmmvec.py:166-170 | Every rank of that column lies below the top of the slider as written plus 1. |
| View.SliderFor | Xmmvec/xmmvec.py:166-172 | The corrected slider reaches at least the maximum rank, by less than 1. The rest is as written. |
| View.CorrectedTopIsAtMostOneHigher | Xmmvec/xmmvec.py:166-172 | The corrected slider differs from the one as written only in its top, which is the same or one higher. |
| View.SliderTopShowsEveryRank | Xmmvec/xmmvec.py:166-170 | At the top of the corrected slider, every ranked record passes that cutoff. |
| View.ExampleRanks | Xmmvec/xmmvec.py:63 | Scores 5, 7, 7 rank 1, 2.5, 2.5. |
| View.TruncatedSliderHidesTopRanks | Xmmvec/xmmvec.py:166 | In such a feature the slider as written stops at 2 and hides both 2.5-ranked records at every position. The corrected slider reaches 3. |
| Pipeline.Xmmvec | Xmmvec/xmmvec.py:228-267 | The command, step by step, computes the chart data `Chart` defines, with the corrected slider tops. The steps are the in-place floor, the two `add_ranks` loops and both failure exits. |
| Pipeline.ChartScoresAreFlooredCells | Xmmvec/xmmvec.py:241-267 | The chart's 'conditionals' records are exactly the matrix cells at or above the floor, each with its score. |
| Pipeline.ChartFailures | Xmmvec/xmmvec.py:256-264 | The command fails on an empty metadata file iff one is given. Otherwise it fails with nothing to concatenate iff no score reaches the floor, and it succeeds iff neither holds. |
| Pipeline.ChartSucceeds | Xmmvec/xmmvec.py:166-170 | With readable metadata and a score at or above the floor, both sliders find a maximum rank, so the command succeeds. |
| Pipeline.RankedRowHasPerRanks | Xmmvec/xmmvec.py:59-65 | After both `add_ranks` steps, every row with a score has both per-feature ranks. |
| Pipeline.ChartMeasures | Xmmvec/xmmvec.py:157-161 | The radio buttons list 'conditionals', 'ranked_conditionals' and the two per-feature columns, and every chart row's measure is one of them. |
| Pipeline.ChartSliders | Xmmvec/xmmvec.py:166-172 | Both corrected sliders start at 1 and at the pair number, and their tops admit every per-feature rank of the chart. The chart opens on 'conditionals' with both cutoffs at the pair number. |
| Pipeline.ChartAsWrittenSliders | Xmmvec/xmmvec.py:166-172 | The sliders as written, over the chart's rows, exist. Each top is the largest per-feature rank of the chart rounded toward zero, and the chart's corrected slider is the same slider with a top equal or one higher. |
| Pipeline.FigureOmic1Order | Xmmvec/xmmvec.py:176 | Without an omic1 group, the omic1 order is sorted and lists the chart's omic1 features. With a group, the first group column is omic1's, and the order lists exactly the features that have a value there. |
| Pipeline.FigureOmic2Order | Xmmvec/xmmvec.py:177 | Without an omic2 group, the omic2 order is sorted and lists the chart's omic2 features. With a group, omic2's column comes after omic1's when both exist, and the order lists exactly the features that have a value there. |

## Left out

- Scores and the probability floor are integers, not floating-point numbers. A missing
  cell is `None` rather than NaN, and ranks are exact rationals.
- File I/O is not modelled: `check_path`, `read_csv`, `open`, `os.makedirs` and
  `chart.save`. A metadata file arrives already read, as its header and rows. The
  matrix arrives as its labels and cells, with its index column assumed to be named
  'featureid'.
- pandas' type inference is not modelled. Metadata cells are strings, and identifiers
  that look numeric are not converted.
- On merges, pandas' `_x`/`_y` suffixes for clashing column names are not modelled, and
  neither are two axes that share a name.
- The quoting of a group value inside `query()` is not modelled: a value containing a
  quote is taken literally.
- Metadata.MergeMetadata: pandas renames the joined column in place; the model gives
  the renamed table as a value.
- The tree taxonomy option is only checked for existence in the source and is not
  modelled.
- `get_bar_chart` and the Altair encodings, colours, sizes and layout are not modelled;
  the model stops at the chart's data, orders, measures, filters and sliders.
- The command-line front end is not part of this model.
- Pipeline.Xmmvec / Pipeline.ChartSliders: the chart's sliders take the corrected top
  (the largest rank rounded up), not the source's `int()` of it. The sliders as written
  are stated over the same chart rows by `Pipeline.ChartAsWrittenSliders`.
- A group column whose merged name is not a Python identifier, such as `body site_omic1`,
  makes the `query()` of `get_sorted` raise in the source. The model treats every column
  name as valid.
- View.SliderTopShowsEveryRank: it covers only records that have the per-feature rank.
  A missing rank counts as 0 and passes any cutoff of at least 0.
- Stacking.StackScores: it needs that no rank column is named 'conditionals'. This
  holds for the three rank columns of the pipeline, as `Pipeline.RankNamesAvoidScore`
  proves.
- AxisOrder.GroupedOrderHasNoDuplicates: it needs each feature to have a single group
  value and no group to be the text "nan". The source promises nothing about repeats
  otherwise.

## Findings

| source | as written | input that shows it | evidently intended | confidence | as-written member | corrected member |
|---|---|---|---|---|---|---|
| Xmmvec/xmmvec.py:166-172 | The slider top is `int(max rank)`, which truncates an average rank such as 2.5 down to 2. | An omic1 feature A with scores 5, 7, 7 against X, Y, Z ranks them 1, 2.5, 2.5. The slider then stops at 2, and the two 2.5-ranked records stay hidden at every slider position. | The slider reaches the largest rank, so that its top shows every record. | not executed | View.SliderAsWritten, View.TruncatedSliderHidesTopRanks | View.SliderFor, View.SliderTopShowsEveryRank, Pipeline.ChartSliders |
