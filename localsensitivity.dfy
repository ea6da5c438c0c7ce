/** The leave-one-out local sensitivity routine that functions/utils.py embeds as R
    source, and the dataset catalogue lookup of the same file. The analyst's
    `run_analysis` is the `Analysis` parameter; reading the subset from object
    storage is done by the caller. */
module LocalSensitivity {
  import opened Wrappers
  import opened Tables

  // ---------------------------------------------------------------- R primitives

  /** R's `df[-i,]`: for `1 <= i <= nrow` every row but row `i`; an index past the
      last row removes nothing; `-0` selects no row at all. */
  function RemoveRow(rows: seq<Row>, i: nat): (r: seq<Row>)
    ensures 1 <= i <= |rows| ==> |r| == |rows| - 1
    ensures 1 <= i <= |rows| ==> forall j :: 0 <= j < i - 1 ==> r[j] == rows[j]
    ensures 1 <= i <= |rows| ==> forall j :: i - 1 <= j < |r| ==> r[j] == rows[j + 1]
    ensures 1 <= i <= |rows| ==> multiset(r) + multiset{rows[i - 1]} == multiset(rows)
    ensures i > |rows| ==> r == rows
    ensures i == 0 ==> r == []
  {
    if i == 0 then []
    else if i <= |rows| then
      assert rows == rows[..i - 1] + [rows[i - 1]] + rows[i..];
      rows[..i - 1] + rows[i..]
    else rows
  }

  /** R's `a:b` on whole numbers: counts up when `a <= b`, down otherwise, and always
      holds at least `a`. */
  function RColon(a: nat, b: nat): (r: seq<nat>)
    ensures |r| == if a <= b then b - a + 1 else a - b + 1
    ensures forall j :: 0 <= j < |r| ==> r[j] == if a <= b then a + j else a - j
    decreases if a <= b then b - a else a - b
  {
    if a == b then [a]
    else if a < b then [a] + RColon(a + 1, b)
    else [a] + RColon(a - 1, b)
  }

  /** `abs(x - y)` on possibly-missing values. */
  function AbsDiff(x: Option<real>, y: Option<real>): (r: Option<real>)
    ensures r.Some? <==> x.Some? && y.Some?
    ensures r.Some? ==> r.value >= 0.0 && (r.value == x.value - y.value || r.value == y.value - x.value)
  {
    if x.Some? && y.Some? then Some(if x.value >= y.value then x.value - y.value else y.value - x.value)
    else None
  }

  /** `pmax(x, y)` without `na.rm`: missing as soon as either argument is. */
  function PMax(x: Option<real>, y: Option<real>): (r: Option<real>)
    ensures r.Some? <==> x.Some? && y.Some?
    ensures r.Some? ==> r.value >= x.value && r.value >= y.value && (r.value == x.value || r.value == y.value)
  {
    if x.Some? && y.Some? then Some(if x.value >= y.value then x.value else y.value) else None
  }

  // ---------------------------------------------------------------- the routine

  /** The `value` a takeout run reports for `k`; the `all.x` merge gives `NA` when the
      takeout output has no row for `k`. */
  function TakeoutValue(takeout: EstimateTable, k: StatKey): Option<real> {
    if k in takeout then takeout[k].value else None
  }

  /** The `max_sensitivity` column, one entry per statistic of the full-subset run. */
  type Running = map<StatKey, Option<real>>

  function InitialRunning(full: EstimateTable): (m: Running)
    ensures m.Keys == full.Keys
  {
    map k | k in full :: Some(0.0)
  }

  /** One pass of the loop body: merge the takeout output onto the full-subset output
      and fold `|value_full - value|` into the running maximum. */
  function UpdateRunning(full: EstimateTable, running: Running, takeout: EstimateTable): (m: Running)
    requires running.Keys == full.Keys
    ensures m.Keys == full.Keys
  {
    map k | k in running :: PMax(AbsDiff(full[k].value, TakeoutValue(takeout, k)), running[k])
  }

  /** The running maximum after taking out the rows `idxs` in turn; fails with the first
      takeout run that raises. */
  function RunningMax(rows: seq<Row>, full: EstimateTable, idxs: seq<nat>, analysis: Analysis): (r: Result<Running, string>)
    ensures r.Success? ==> r.value.Keys == full.Keys
    decreases |idxs|
  {
    if |idxs| == 0 then Success(InitialRunning(full))
    else
      match RunningMax(rows, full, idxs[..|idxs| - 1], analysis)
      case Failure(e) => Failure(e)
      case Success(running) =>
        match analysis(RemoveRow(rows, idxs[|idxs| - 1]))
        case Failure(e) => Failure(e)
        case Success(takeout) => Success(UpdateRunning(full, running, takeout))
  }

  /** `compute_local_sensitivities(data, takeout_start_index, takeout_end_index)` on the
      rows of the subset. */
  function LocalSensitivities(rows: seq<Row>, takeoutStart: nat, takeoutEnd: nat, analysis: Analysis): (r: Result<LocalTable, string>)
    ensures r.Success? ==> analysis(rows).Success? && r.value.Keys == analysis(rows).value.Keys
    ensures r.Success? ==> forall k :: k in r.value ==> r.value[k].n == analysis(rows).value[k].n
  {
    match analysis(rows)
    case Failure(e) => Failure(e)
    case Success(full) =>
      match RunningMax(rows, full, RColon(takeoutStart, takeoutEnd), analysis)
      case Failure(e) => Failure(e)
      case Success(running) => Success(map k | k in full :: LocalStat(full[k].n, running[k]))
  }

  lemma {:induction false} RunningMaxFailurePersists(rows: seq<Row>, full: EstimateTable, idxs: seq<nat>, j: nat, analysis: Analysis)
    requires j <= |idxs|
    requires RunningMax(rows, full, idxs[..j], analysis).Failure?
    ensures RunningMax(rows, full, idxs, analysis) == RunningMax(rows, full, idxs[..j], analysis)
    decreases |idxs| - j
  {
    if j < |idxs| {
      assert idxs[..j + 1][..j] == idxs[..j];
      RunningMaxFailurePersists(rows, full, idxs, j + 1, analysis);
    } else {
      assert idxs[..j] == idxs;
    }
  }

  /** The R `for` loop: `output_full` and its `max_sensitivity` column are reassigned
      once per takeout row. */
  method ComputeLocalSensitivities(rows: seq<Row>, takeoutStart: nat, takeoutEnd: nat, analysis: Analysis)
    returns (output: Result<LocalTable, string>)
    ensures output == LocalSensitivities(rows, takeoutStart, takeoutEnd, analysis)
  {
    var outputFull := analysis(rows);
    if outputFull.Failure? {
      return Failure(outputFull.error);
    }
    var full := outputFull.value;
    var maxSensitivity := InitialRunning(full);
    var takeoutIndices := RColon(takeoutStart, takeoutEnd);
    for j := 0 to |takeoutIndices|
      invariant RunningMax(rows, full, takeoutIndices[..j], analysis) == Success(maxSensitivity)
    {
      assert takeoutIndices[..j + 1][..j] == takeoutIndices[..j];
      var dfTakeout := RemoveRow(rows, takeoutIndices[j]);
      var outputTakeout := analysis(dfTakeout);
      if outputTakeout.Failure? {
        RunningMaxFailurePersists(rows, full, takeoutIndices, j + 1, analysis);
        return Failure(outputTakeout.error);
      }
      maxSensitivity := UpdateRunning(full, maxSensitivity, outputTakeout.value);
    }
    assert takeoutIndices[..|takeoutIndices|] == takeoutIndices;
    output := Success(map k | k in full :: LocalStat(full[k].n, maxSensitivity[k]));
  }

  // ---------------------------------------------------------------- what it computes

  /** The difference taking out row `i` makes to statistic `k`; missing when the value
      is missing on either side, when the takeout run has no row for `k`, or when it raises. */
  function TakeoutDiff(rows: seq<Row>, full: EstimateTable, i: nat, k: StatKey, analysis: Analysis): Option<real>
    requires k in full
  {
    match analysis(RemoveRow(rows, i))
    case Failure(_) => None
    case Success(takeout) => AbsDiff(full[k].value, TakeoutValue(takeout, k))
  }

  /** The differences for statistic `k`, one per takeout row, in loop order. */
  function TakeoutDiffs(rows: seq<Row>, full: EstimateTable, idxs: seq<nat>, k: StatKey, analysis: Analysis): (ds: seq<Option<real>>)
    requires k in full
    ensures |ds| == |idxs|
    ensures forall j :: 0 <= j < |idxs| ==> ds[j] == TakeoutDiff(rows, full, idxs[j], k, analysis)
  {
    seq(|idxs|, j requires 0 <= j < |idxs| => TakeoutDiff(rows, full, idxs[j], k, analysis))
  }

  /** `pmax` folded over the differences from the initial 0. */
  function FoldMax(ds: seq<Option<real>>): Option<real>
    decreases |ds|
  {
    if |ds| == 0 then Some(0.0) else PMax(ds[|ds| - 1], FoldMax(ds[..|ds| - 1]))
  }

  /** The fold is missing exactly when some difference is; otherwise it is at least
      every difference, never negative, and either 0 or one of the differences. */
  lemma {:induction false} FoldMaxIsMaximum(ds: seq<Option<real>>)
    ensures FoldMax(ds).None? <==> exists j :: 0 <= j < |ds| && ds[j].None?
    ensures FoldMax(ds).Some? ==> FoldMax(ds).value >= 0.0
    ensures FoldMax(ds).Some? ==> forall j :: 0 <= j < |ds| ==> ds[j].value <= FoldMax(ds).value
    ensures FoldMax(ds).Some? ==> FoldMax(ds).value == 0.0 || exists j :: 0 <= j < |ds| && ds[j] == FoldMax(ds)
    decreases |ds|
  {
    if |ds| > 0 {
      var n := |ds| - 1;
      FoldMaxIsMaximum(ds[..n]);
      assert forall j :: 0 <= j < n ==> ds[..n][j] == ds[j];
    }
  }

  /** The loop's running maximum for `k` is that fold. */
  lemma {:induction false} RunningMaxIsFold(rows: seq<Row>, full: EstimateTable, idxs: seq<nat>, analysis: Analysis, k: StatKey)
    requires k in full
    requires RunningMax(rows, full, idxs, analysis).Success?
    ensures RunningMax(rows, full, idxs, analysis).value[k] == FoldMax(TakeoutDiffs(rows, full, idxs, k, analysis))
    decreases |idxs|
  {
    if |idxs| > 0 {
      var n := |idxs| - 1;
      RunningMaxIsFold(rows, full, idxs[..n], analysis, k);
      var ds := TakeoutDiffs(rows, full, idxs, k, analysis);
      assert ds[..n] == TakeoutDiffs(rows, full, idxs[..n], k, analysis);
    }
  }

  /** Every takeout run succeeds exactly when the routine does. */
  lemma {:induction false} RunningMaxSucceeds(rows: seq<Row>, full: EstimateTable, idxs: seq<nat>, analysis: Analysis)
    ensures RunningMax(rows, full, idxs, analysis).Success?
        <==> forall j :: 0 <= j < |idxs| ==> analysis(RemoveRow(rows, idxs[j])).Success?
    decreases |idxs|
  {
    if |idxs| > 0 {
      var n := |idxs| - 1;
      RunningMaxSucceeds(rows, full, idxs[..n], analysis);
      assert forall j :: 0 <= j < n ==> idxs[..n][j] == idxs[j];
    }
  }

  /** The routine fails exactly when the full-subset run or one of the takeout runs raises. */
  lemma LocalSensitivitiesSucceeds(rows: seq<Row>, takeoutStart: nat, takeoutEnd: nat, analysis: Analysis)
    ensures LocalSensitivities(rows, takeoutStart, takeoutEnd, analysis).Success?
        <==> analysis(rows).Success?
             && forall i :: i in RColon(takeoutStart, takeoutEnd) ==> analysis(RemoveRow(rows, i)).Success?
  {
    if analysis(rows).Success? {
      RunningMaxSucceeds(rows, analysis(rows).value, RColon(takeoutStart, takeoutEnd), analysis);
    }
  }

  /** Each statistic's `ls` is the maximum, over the takeout rows `start:end` (the
      differences `TakeoutDiffs` lists in loop order), of the change that taking out that
      row makes, and is one of those changes; it is never negative; and it is `NA` exactly
      when one of those changes is `NA`. */
  lemma LocalSensitivitiesUnfold(rows: seq<Row>, takeoutStart: nat, takeoutEnd: nat, analysis: Analysis, k: StatKey)
    requires LocalSensitivities(rows, takeoutStart, takeoutEnd, analysis).Success?
    requires k in LocalSensitivities(rows, takeoutStart, takeoutEnd, analysis).value
    ensures k in analysis(rows).value
    ensures RunningMax(rows, analysis(rows).value, RColon(takeoutStart, takeoutEnd), analysis).Success?
    ensures LocalSensitivities(rows, takeoutStart, takeoutEnd, analysis).value[k].ls
         == RunningMax(rows, analysis(rows).value, RColon(takeoutStart, takeoutEnd), analysis).value[k]
  {
  }

  lemma LocalSensitivityIsRangeMaximum(rows: seq<Row>, takeoutStart: nat, takeoutEnd: nat, analysis: Analysis, k: StatKey)
    requires LocalSensitivities(rows, takeoutStart, takeoutEnd, analysis).Success?
    requires k in LocalSensitivities(rows, takeoutStart, takeoutEnd, analysis).value
    ensures k in analysis(rows).value
    ensures var ds := TakeoutDiffs(rows, analysis(rows).value, RColon(takeoutStart, takeoutEnd), k, analysis);
      var ls := LocalSensitivities(rows, takeoutStart, takeoutEnd, analysis).value[k].ls;
      && (ls.None? <==> exists j :: 0 <= j < |ds| && ds[j].None?)
      && (ls.Some? ==> ls.value >= 0.0)
      && (ls.Some? ==> forall j :: 0 <= j < |ds| ==> ds[j].value <= ls.value)
      && (ls.Some? ==> exists j :: 0 <= j < |ds| && ds[j] == ls)
  {
    LocalSensitivitiesUnfold(rows, takeoutStart, takeoutEnd, analysis, k);
    var full := analysis(rows).value;
    var idxs := RColon(takeoutStart, takeoutEnd);
    var ds := TakeoutDiffs(rows, full, idxs, k, analysis);
    RunningMaxIsFold(rows, full, idxs, analysis, k);
    FoldMaxIsMaximum(ds);
    FoldMaxAttained(ds);
  }

  /** Over at least one difference, none negative, the fold, when present, is one of them. */
  lemma FoldMaxAttained(ds: seq<Option<real>>)
    requires |ds| >= 1
    requires forall j :: 0 <= j < |ds| && ds[j].Some? ==> ds[j].value >= 0.0
    ensures FoldMax(ds).Some? ==> exists j :: 0 <= j < |ds| && ds[j] == FoldMax(ds)
  {
    FoldMaxIsMaximum(ds);
    var m := FoldMax(ds);
    if m.Some? && m.value == 0.0 {
      // Every difference is present, non-negative and at most 0, so the first one is 0.
      assert ds[0].Some? && ds[0].value >= 0.0;
      assert ds[0] == m;
    }
  }

  // ---------------------------------------------------------------- dataset catalogue

  datatype DatasetMetadata = DatasetMetadata(datasetId: string, datasetUri: string)

  /** The datasets the server knows, with their object-store locations. */
  function DatasetCatalog(bucket: string): seq<DatasetMetadata> {
    [ DatasetMetadata("cps", "s3://" + bucket + "/data/cps_2022-2023.csv"),
      DatasetMetadata("puf_2012", "s3://" + bucket + "/data/puf_2012.csv"),
      DatasetMetadata("puf_2012_subset", "s3://" + bucket + "/data/puf_2012_subset.csv") ]
  }

  function MatchingEntries(entries: seq<DatasetMetadata>, datasetId: string): (r: seq<DatasetMetadata>)
    ensures forall d :: d in r <==> d in entries && d.datasetId == datasetId
    decreases |entries|
  {
    if |entries| == 0 then []
    else if entries[0].datasetId == datasetId then [entries[0]] + MatchingEntries(entries[1..], datasetId)
    else MatchingEntries(entries[1..], datasetId)
  }

  /** `get_dataset_metadata`: the first catalogue entry with that id; `None` for an
      unknown id, where `[0]` on the empty match list raises. */
  function GetDatasetMetadata(datasetId: string, bucket: string): (r: Option<DatasetMetadata>)
    ensures r.Some? <==> exists d :: d in DatasetCatalog(bucket) && d.datasetId == datasetId
    ensures r.Some? ==> r.value in DatasetCatalog(bucket) && r.value.datasetId == datasetId
  {
    var matches := MatchingEntries(DatasetCatalog(bucket), datasetId);
    if |matches| == 0 then None else assert matches[0] in matches; Some(matches[0])
  }

  /** The three known ids are found and nothing else is. */
  lemma KnownDatasets(datasetId: string, bucket: string)
    ensures GetDatasetMetadata(datasetId, bucket).Some? <==> datasetId in ["cps", "puf_2012", "puf_2012_subset"]
  {
    var c := DatasetCatalog(bucket);
    assert forall d :: d in c <==> d == c[0] || d == c[1] || d == c[2];
  }
}
