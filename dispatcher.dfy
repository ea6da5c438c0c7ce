/** The dispatcher (functions/dispatcher.py): shards the sample, cuts every shard's
    1-based row range into contiguous takeout ranges, and emits one task message per
    range. Sending a message to the queue and writing a subset to object storage are
    modelled as outputs of the dispatch method: the list of messages sent, in order,
    and the map from subset path to the rows written there. */
module Dispatcher {
  import opened Wrappers
  import opened Tables
  import opened Seqs
  import opened Text
  import Config

  /** Time budget of one worker in seconds: the 900 s function limit minus a 180 s buffer. */
  const MaxSecsPerWorker: real := 720.0
  /** Takeout rows timed by the capacity probe. */
  const TakeoutRowsToTest: nat := 20

  // ---------------------------------------------------------------- task ids

  /** `"{dataset_id}_{subset_index}_{takeout_start_index}_{takeout_end_index}"`. */
  function GenerateTaskId(datasetId: string, subsetIndex: nat, takeoutStart: nat, takeoutEnd: nat): string {
    datasetId + "_" + NatToString(subsetIndex) + "_" + NatToString(takeoutStart) + "_" + NatToString(takeoutEnd)
  }

  /** Recovers `(subset_index, start, end)` from a task id of a known dataset. */
  function ParseTaskId(datasetId: string, taskId: string): Option<(nat, nat, nat)> {
    var prefix := datasetId + "_";
    if !StartsWith(taskId, prefix) then None else ParseFields(taskId[|prefix|..])
  }

  /** Reads three underscore-separated decimal fields. */
  function ParseFields(tail: string): Option<(nat, nat, nat)> {
    var parts := Split(tail, '_');
    if |parts| == 3 && AllDigits(parts[0]) && AllDigits(parts[1]) && AllDigits(parts[2]) then
      Some((ParseNat(parts[0]), ParseNat(parts[1]), ParseNat(parts[2])))
    else
      None
  }

  lemma NoUnderscoreInDigits(s: string)
    requires AllDigits(s)
    ensures '_' !in s
  {
  }

  /** Three digit strings joined by underscores split back into the three. */
  lemma SplitThreeFields(a: string, b: string, c: string)
    requires AllDigits(a) && AllDigits(b) && AllDigits(c)
    ensures Split(a + "_" + b + "_" + c, '_') == [a, b, c]
  {
    NoUnderscoreInDigits(a);
    NoUnderscoreInDigits(b);
    NoUnderscoreInDigits(c);
    assert a + "_" + b + "_" + c == a + ['_'] + (b + ['_'] + c);
    SplitAfterField(a, '_', b + ['_'] + c);
    SplitAfterField(b, '_', c);
    SplitWithoutSeparator(c, '_');
  }

  /** For a fixed dataset, the task id determines subset index and takeout range,
      even when the dataset id itself contains underscores. */
  lemma TaskIdRoundTrip(datasetId: string, subsetIndex: nat, takeoutStart: nat, takeoutEnd: nat)
    ensures ParseTaskId(datasetId, GenerateTaskId(datasetId, subsetIndex, takeoutStart, takeoutEnd))
         == Some((subsetIndex, takeoutStart, takeoutEnd))
  {
    var a, b, c := NatToString(subsetIndex), NatToString(takeoutStart), NatToString(takeoutEnd);
    var prefix := datasetId + "_";
    var tail := a + "_" + b + "_" + c;
    var id := GenerateTaskId(datasetId, subsetIndex, takeoutStart, takeoutEnd);
    assert id == prefix + tail;
    assert id[..|prefix|] == prefix;
    assert id[|prefix|..] == tail;
    FieldsRoundTrip(subsetIndex, takeoutStart, takeoutEnd);
  }

  /** The three decimal fields of a task id read back as the numbers written. */
  lemma FieldsRoundTrip(i: nat, s: nat, e: nat)
    ensures ParseFields(NatToString(i) + "_" + NatToString(s) + "_" + NatToString(e)) == Some((i, s, e))
  {
    SplitThreeFields(NatToString(i), NatToString(s), NatToString(e));
    ParseNatToString(i);
    ParseNatToString(s);
    ParseNatToString(e);
  }

  /** Distinct `(subset_index, start, end)` triples get distinct task ids. */
  lemma TaskIdInjective(datasetId: string, i1: nat, s1: nat, e1: nat, i2: nat, s2: nat, e2: nat)
    requires GenerateTaskId(datasetId, i1, s1, e1) == GenerateTaskId(datasetId, i2, s2, e2)
    ensures i1 == i2 && s1 == s2 && e1 == e2
  {
    TaskIdRoundTrip(datasetId, i1, s1, e1);
    TaskIdRoundTrip(datasetId, i2, s2, e2);
  }

  // ---------------------------------------------------------------- probe sizing

  /** Rows one worker can process within its budget, extrapolated from the probe's time. */
  function MaxRowsPerWorker(elapsedSecs: real): (r: real)
    requires elapsedSecs > 0.0
    ensures r > 0.0
  {
    MaxSecsPerWorker * TakeoutRowsToTest as real / elapsedSecs
  }

  /** `math.ceil` over the reals: the least integer not below `x`. */
  function Ceil(x: real): (c: int)
    ensures x <= c as real < x + 1.0
  {
    -((-x).Floor)
  }

  /** `compute_workers_per_k` after the timing: the fewest workers whose budgets cover
      `rows_per_k` rows. The timing itself is an input. */
  function ComputeWorkersPerK(rowsPerK: nat, elapsedSecs: real): (w: nat)
    requires elapsedSecs > 0.0
    ensures rowsPerK as real <= w as real * MaxRowsPerWorker(elapsedSecs)
    ensures (w as real - 1.0) * MaxRowsPerWorker(elapsedSecs) < rowsPerK as real
    ensures rowsPerK >= 1 ==> w >= 1
  {
    var cap := MaxRowsPerWorker(elapsedSecs);
    var x := rowsPerK as real / cap;
    var c := Ceil(x);
    assert x >= 0.0;
    assert x * cap == rowsPerK as real;
    c
  }

  // ---------------------------------------------------------------- sharding

  /** Start offset of section `i` of `np.array_split(s, k)` for `|s| == n`: the first
      `n % k` sections hold `n / k + 1` rows, the others `n / k`. */
  function SectionStart(n: nat, k: nat, i: nat): nat
    requires k >= 1
    decreases i
  {
    if i == 0 then 0 else SectionStart(n, k, i - 1) + n / k + (if i - 1 < n % k then 1 else 0)
  }

  /** The closed form of the offset. */
  lemma {:induction false} SectionStartClosed(n: nat, k: nat, i: nat)
    requires k >= 1
    ensures SectionStart(n, k, i) == i * (n / k) + (if i < n % k then i else n % k)
    decreases i
  {
    if i > 0 {
      SectionStartClosed(n, k, i - 1);
      assert i * (n / k) == (i - 1) * (n / k) + n / k;
    }
  }

  lemma SectionBounds(n: nat, k: nat, i: nat)
    requires k >= 1 && i < k
    ensures SectionStart(n, k, i + 1) == SectionStart(n, k, i) + n / k + (if i < n % k then 1 else 0)
    ensures SectionStart(n, k, i + 1) <= n
  {
    SectionStartClosed(n, k, i + 1);
    DivMod(n, k);
    OffsetBound(i, k, n / k, n % k);
  }

  lemma MulMonotone(a: nat, b: nat, c: nat)
    requires a <= b
    ensures a * c <= b * c
  {
  }

  lemma DivMod(n: nat, k: nat)
    requires k >= 1
    ensures n == k * (n / k) + n % k && n % k < k
  {
  }

  lemma OffsetBound(i: nat, k: nat, q: nat, r: nat)
    requires i < k && r < k
    ensures (i + 1) * q + (if i + 1 < r then i + 1 else r) <= k * q + r
  {
    MulMonotone(i + 1, k, q);
  }

  /** `a * c < b * c` with `c > 0` gives `a < b`. */
  lemma MulLessCancel(a: int, b: int, c: nat)
    requires c > 0 && a * c < b * c
    ensures a < b
  {
  }

  function Section<T>(s: seq<T>, k: nat, i: nat): (part: seq<T>)
    requires k >= 1 && i < k
    ensures |part| == |s| / k + (if i < |s| % k then 1 else 0)
  {
    SectionBounds(|s|, k, i);
    s[SectionStart(|s|, k, i)..SectionStart(|s|, k, i + 1)]
  }

  /** `np.array_split(s, k)`: `k` contiguous pieces. */
  function ArraySplit<T>(s: seq<T>, k: nat): (parts: seq<seq<T>>)
    requires k >= 1
    ensures |parts| == k
    ensures forall i :: 0 <= i < k ==> |parts[i]| == |s| / k + (if i < |s| % k then 1 else 0)
  {
    seq(k, i requires 0 <= i < k => Section(s, k, i))
  }

  /** The pieces' sizes differ by at most one, and the larger ones come first. */
  lemma ArraySplitBalanced<T>(s: seq<T>, k: nat, i: nat, j: nat)
    requires k >= 1 && i < j < k
    ensures |ArraySplit(s, k)[j]| <= |ArraySplit(s, k)[i]| <= |ArraySplit(s, k)[j]| + 1
  {
  }

  /** The first `j` pieces, concatenated, are the rows before the offset of piece `j`. */
  lemma {:induction false} ArraySplitPrefix<T>(s: seq<T>, k: nat, j: nat)
    requires k >= 1 && j <= k
    ensures SectionStart(|s|, k, j) <= |s|
    ensures Flatten(ArraySplit(s, k)[..j]) == s[..SectionStart(|s|, k, j)]
    decreases j
  {
    var parts := ArraySplit(s, k);
    if j > 0 {
      ArraySplitPrefix(s, k, j - 1);
      assert parts[..j][..j - 1] == parts[..j - 1];
      SectionBounds(|s|, k, j - 1);
      PrefixThenSlice(s, SectionStart(|s|, k, j - 1), SectionStart(|s|, k, j));
    }
  }

  lemma PrefixThenSlice<T>(s: seq<T>, a: nat, b: nat)
    requires a <= b <= |s|
    ensures s[..a] + s[a..b] == s[..b]
  {
  }

  /** Concatenating the pieces in order gives back the sample. */
  lemma ArraySplitConcat<T>(s: seq<T>, k: nat)
    requires k >= 1
    ensures Flatten(ArraySplit(s, k)) == s
  {
    ArraySplitPrefix(s, k, k);
    assert ArraySplit(s, k)[..k] == ArraySplit(s, k);
    SectionStartClosed(|s|, k, k);
    DivMod(|s|, k);
  }

  // ---------------------------------------------------------------- takeout ranges

  /** The last takeout row of a worker starting at `takeoutStart`: one share of
      `max_index / workers_per_k` rows past the start, capped at `max_index`. */
  function ComputeTakeoutEndIndex(takeoutStart: nat, maxIndex: nat, workersPerK: nat): (r: nat)
    requires workersPerK >= 1
    ensures r <= maxIndex
    ensures takeoutStart <= maxIndex ==> takeoutStart <= r
    ensures r <= takeoutStart + maxIndex / workersPerK
    ensures r == maxIndex || r == takeoutStart + maxIndex / workersPerK
  {
    var takeoutRowsPerWorker := maxIndex / workersPerK;
    if takeoutStart + takeoutRowsPerWorker < maxIndex then takeoutStart + takeoutRowsPerWorker else maxIndex
  }

  /** An inclusive, 1-based range of takeout rows within one subset. */
  datatype TakeoutRange = TakeoutRange(start: nat, end: nat)

  /** The ranges the dispatch `while` loop emits from loop state `(start, end)` on. */
  function RangesFrom(takeoutStart: nat, takeoutEnd: nat, maxIndex: nat, workersPerK: nat): seq<TakeoutRange>
    requires workersPerK >= 1 || takeoutEnd >= maxIndex
    requires takeoutEnd <= takeoutStart <= takeoutEnd + 1
    decreases maxIndex + 1 - takeoutStart
  {
    if takeoutEnd < maxIndex then
      var e := ComputeTakeoutEndIndex(takeoutStart, maxIndex, workersPerK);
      [TakeoutRange(takeoutStart, e)] + RangesFrom(e + 1, e, maxIndex, workersPerK)
    else
      []
  }

  /** The ranges of one subset with `max_index` rows: the loop starts at `start = end = 1`,
      so `workers_per_k` is never divided by when the subset has at most one row. */
  function ShardRanges(maxIndex: nat, workersPerK: nat): seq<TakeoutRange>
    requires workersPerK >= 1 || maxIndex <= 1
  {
    RangesFrom(1, 1, maxIndex, workersPerK)
  }

  /** The row indices `a, a + 1, ..., b` (empty when `a > b`). */
  function Interval(a: nat, b: nat): (r: seq<nat>)
    ensures |r| == if a <= b then b - a + 1 else 0
    ensures forall i :: 0 <= i < |r| ==> r[i] == a + i
  {
    if a <= b then seq(b - a + 1, i requires 0 <= i < b - a + 1 => a + i) else []
  }

  /** The row indices the ranges cover, in order, with repetitions. */
  function Covered(ranges: seq<TakeoutRange>): seq<nat>
    decreases |ranges|
  {
    if |ranges| == 0 then [] else Interval(ranges[0].start, ranges[0].end) + Covered(ranges[1..])
  }

  /** One iteration of the loop: the first range, and the state it leaves behind. */
  lemma RangesFromStep(takeoutStart: nat, takeoutEnd: nat, maxIndex: nat, workersPerK: nat)
    requires workersPerK >= 1
    requires takeoutEnd <= takeoutStart <= takeoutEnd + 1
    requires takeoutEnd < maxIndex
    ensures var e := ComputeTakeoutEndIndex(takeoutStart, maxIndex, workersPerK);
      var r := RangesFrom(takeoutStart, takeoutEnd, maxIndex, workersPerK);
      && takeoutStart <= e <= maxIndex
      && r == [TakeoutRange(takeoutStart, e)] + RangesFrom(e + 1, e, maxIndex, workersPerK)
      && r[1..] == RangesFrom(e + 1, e, maxIndex, workersPerK)
      && (e == maxIndex || e == takeoutStart + maxIndex / workersPerK)
      && (e == maxIndex <==> RangesFrom(e + 1, e, maxIndex, workersPerK) == [])
  {
  }

  /** The shape of what the loop emits once it is entered: contiguous ranges from the
      current start up to `max_index`, each but the last holding one full share. */
  lemma {:induction false} RangesFromShape(takeoutStart: nat, takeoutEnd: nat, maxIndex: nat, workersPerK: nat)
    requires workersPerK >= 1
    requires takeoutEnd <= takeoutStart <= takeoutEnd + 1
    requires takeoutEnd < maxIndex
    ensures var r := RangesFrom(takeoutStart, takeoutEnd, maxIndex, workersPerK);
      && |r| >= 1
      && r[0].start == takeoutStart
      && r[|r| - 1].end == maxIndex
      && (forall i :: 0 <= i < |r| ==> takeoutStart <= r[i].start <= r[i].end <= maxIndex)
      && (forall i :: 0 <= i < |r| - 1 ==> r[i + 1].start == r[i].end + 1)
      && (forall i :: 0 <= i < |r| - 1 ==> r[i].end - r[i].start == maxIndex / workersPerK)
      && r[|r| - 1].end - r[|r| - 1].start <= maxIndex / workersPerK
    decreases maxIndex + 1 - takeoutStart
  {
    RangesFromStep(takeoutStart, takeoutEnd, maxIndex, workersPerK);
    var e := ComputeTakeoutEndIndex(takeoutStart, maxIndex, workersPerK);
    if e < maxIndex {
      RangesFromShape(e + 1, e, maxIndex, workersPerK);
    }
  }

  /** Ranges further along the list start strictly later. */
  lemma {:induction false} RangesFromOrdered(takeoutStart: nat, takeoutEnd: nat, maxIndex: nat, workersPerK: nat)
    requires workersPerK >= 1
    requires takeoutEnd <= takeoutStart <= takeoutEnd + 1
    requires takeoutEnd < maxIndex
    ensures var r := RangesFrom(takeoutStart, takeoutEnd, maxIndex, workersPerK);
      forall i, j :: 0 <= i < j < |r| ==> r[i].end < r[j].start
    decreases maxIndex + 1 - takeoutStart
  {
    RangesFromStep(takeoutStart, takeoutEnd, maxIndex, workersPerK);
    var e := ComputeTakeoutEndIndex(takeoutStart, maxIndex, workersPerK);
    if e < maxIndex {
      RangesFromShape(e + 1, e, maxIndex, workersPerK);
      RangesFromOrdered(e + 1, e, maxIndex, workersPerK);
    }
  }

  /** All ranges but the last hold `max_index / workers_per_k + 1` rows, so there are few of them. */
  lemma {:induction false} RangesFromCount(takeoutStart: nat, takeoutEnd: nat, maxIndex: nat, workersPerK: nat)
    requires workersPerK >= 1
    requires takeoutEnd <= takeoutStart <= takeoutEnd + 1
    requires takeoutEnd < maxIndex
    ensures var r := RangesFrom(takeoutStart, takeoutEnd, maxIndex, workersPerK);
      (|r| - 1) * (maxIndex / workersPerK + 1) < maxIndex + 1 - takeoutStart
    decreases maxIndex + 1 - takeoutStart
  {
    RangesFromStep(takeoutStart, takeoutEnd, maxIndex, workersPerK);
    var e := ComputeTakeoutEndIndex(takeoutStart, maxIndex, workersPerK);
    var q := maxIndex / workersPerK;
    var r := RangesFrom(takeoutStart, takeoutEnd, maxIndex, workersPerK);
    var rest := RangesFrom(e + 1, e, maxIndex, workersPerK);
    if e < maxIndex {
      RangesFromCount(e + 1, e, maxIndex, workersPerK);
      assert |r| - 1 == |rest|;
      assert (|rest| - 1) * (q + 1) < maxIndex - e;
      assert |rest| * (q + 1) == (|rest| - 1) * (q + 1) + (q + 1);
    }
  }

  lemma IntervalSplit(a: nat, e: nat, b: nat)
    requires a <= e + 1 && e <= b
    ensures Interval(a, e) + Interval(e + 1, b) == Interval(a, b)
  {
  }

  /** Listing the rows of the ranges in order gives every row from the start to `max_index` once. */
  lemma {:induction false} RangesFromCovered(takeoutStart: nat, takeoutEnd: nat, maxIndex: nat, workersPerK: nat)
    requires workersPerK >= 1
    requires takeoutEnd <= takeoutStart <= takeoutEnd + 1
    requires takeoutEnd < maxIndex
    ensures Covered(RangesFrom(takeoutStart, takeoutEnd, maxIndex, workersPerK)) == Interval(takeoutStart, maxIndex)
    decreases maxIndex + 1 - takeoutStart
  {
    RangesFromStep(takeoutStart, takeoutEnd, maxIndex, workersPerK);
    var e := ComputeTakeoutEndIndex(takeoutStart, maxIndex, workersPerK);
    var r := RangesFrom(takeoutStart, takeoutEnd, maxIndex, workersPerK);
    assert Covered(r) == Interval(takeoutStart, e) + Covered(r[1..]);
    if e < maxIndex {
      RangesFromCovered(e + 1, e, maxIndex, workersPerK);
    } else {
      assert Covered(r[1..]) == [];
    }
    IntervalSplit(takeoutStart, e, maxIndex);
  }

  /** For a subset with at least two rows, the ranges exactly partition `[1, max_index]`:
      the first starts at 1, each next one starts right after the previous end, the
      last ends at `max_index`, and listing their rows in order gives `1, ..., max_index`.
      All but the last hold `max_index / workers_per_k + 1` rows. */
  lemma ShardRangesPartition(maxIndex: nat, workersPerK: nat)
    requires workersPerK >= 1 && maxIndex >= 2
    ensures var r := ShardRanges(maxIndex, workersPerK);
      && |r| >= 1
      && r[0].start == 1
      && r[|r| - 1].end == maxIndex
      && (forall i :: 0 <= i < |r| - 1 ==> r[i + 1].start == r[i].end + 1)
      && (forall i :: 0 <= i < |r| ==> 1 <= r[i].start <= r[i].end <= maxIndex)
      && (forall i :: 0 <= i < |r| - 1 ==> r[i].end - r[i].start + 1 == maxIndex / workersPerK + 1)
      && Covered(r) == Interval(1, maxIndex)
  {
    assert ShardRanges(maxIndex, workersPerK) == RangesFrom(1, 1, maxIndex, workersPerK);
    RangesFromShape(1, 1, maxIndex, workersPerK);
    RangesFromCovered(1, 1, maxIndex, workersPerK);
  }

  /** A subset with at most one row gets no task: the guard `1 < max_index` fails at once. */
  lemma TinyShardHasNoTasks(maxIndex: nat, workersPerK: nat)
    requires maxIndex <= 1
    ensures ShardRanges(maxIndex, workersPerK) == []
  {
  }

  /** One subset never gets more than `workers_per_k` tasks. */
  lemma ShardTaskCountBound(maxIndex: nat, workersPerK: nat)
    requires workersPerK >= 1
    ensures |ShardRanges(maxIndex, workersPerK)| <= workersPerK
  {
    var r := ShardRanges(maxIndex, workersPerK);
    if maxIndex >= 2 {
      RangesFromCount(1, 1, maxIndex, workersPerK);
      var q := maxIndex / workersPerK;
      DivMod(maxIndex, workersPerK);
      assert maxIndex < workersPerK * (q + 1);
      MulLessCancel(|r| - 1, workersPerK, q + 1);
    }
  }

  /** When `workers_per_k` exceeds `max_index` the share is 0 rows and the first
      iteration leaves `takeout_end_index` at 1: the loop's progress measure is the
      start index, which grows every iteration, not the end index. */
  lemma FirstIterationCanKeepEnd(maxIndex: nat, workersPerK: nat)
    requires maxIndex >= 2 && workersPerK > maxIndex
    ensures ShardRanges(maxIndex, workersPerK)[0] == TakeoutRange(1, 1)
  {
  }

  // ---------------------------------------------------------------- messages

  /** The object-store path `write_subset_to_s3` writes subset `subset_index` to. */
  function SubsetPath(bucket: string, jobId: string, datasetId: string, subsetIndex: nat): string {
    "s3://" + bucket + "/subsets/" + jobId + "/" + datasetId + "_" + NatToString(subsetIndex) + ".csv"
  }

  lemma SubsetPathInjective(bucket: string, jobId: string, datasetId: string, i: nat, j: nat)
    requires SubsetPath(bucket, jobId, datasetId, i) == SubsetPath(bucket, jobId, datasetId, j)
    ensures i == j
  {
    var p := "s3://" + bucket + "/subsets/" + jobId + "/" + datasetId + "_";
    var a, b := NatToString(i), NatToString(j);
    assert SubsetPath(bucket, jobId, datasetId, i) == p + a + ".csv";
    assert SubsetPath(bucket, jobId, datasetId, j) == p + b + ".csv";
    assert |a| == |b|;
    assert a == (p + a + ".csv")[|p|..|p| + |a|];
    assert b == (p + b + ".csv")[|p|..|p| + |b|];
    NatToStringInjective(i, j);
  }

  /** The message `dispatch_task` sends for one range. */
  function DispatchMessage(jobId: string, datasetId: string, subsetIndex: nat, subsetUri: string,
                           scriptUri: string, r: TakeoutRange): TaskMessage
  {
    TaskMessage(jobId, GenerateTaskId(datasetId, subsetIndex, r.start, r.end), subsetUri, scriptUri, r.start, r.end)
  }

  function ShardMessages(jobId: string, datasetId: string, subsetIndex: nat, subsetUri: string,
                         scriptUri: string, ranges: seq<TakeoutRange>): (ms: seq<TaskMessage>)
    ensures |ms| == |ranges|
    ensures forall i :: 0 <= i < |ranges| ==>
      ms[i] == DispatchMessage(jobId, datasetId, subsetIndex, subsetUri, scriptUri, ranges[i])
    decreases |ranges|
  {
    if |ranges| == 0 then []
    else [DispatchMessage(jobId, datasetId, subsetIndex, subsetUri, scriptUri, ranges[0])]
         + ShardMessages(jobId, datasetId, subsetIndex, subsetUri, scriptUri, ranges[1..])
  }

  /** Subsets the loops can dispatch with `workers_per_k` workers: with none, no subset
      may have two rows, or the share `max_index / workers_per_k` would divide by zero. */
  predicate Dispatchable(shards: seq<seq<Row>>, workersPerK: nat) {
    workersPerK >= 1 || forall j :: 0 <= j < |shards| ==> |shards[j]| <= 1
  }

  /** Every message sent for the given subsets, subset by subset. */
  function AllTaskMessages(bucket: string, jobId: string, datasetId: string, scriptUri: string,
                           shards: seq<seq<Row>>, workersPerK: nat): seq<TaskMessage>
    requires Dispatchable(shards, workersPerK)
    decreases |shards|
  {
    if |shards| == 0 then []
    else
      var i := |shards| - 1;
      assert forall j :: 0 <= j < i ==> shards[..i][j] == shards[j];
      AllTaskMessages(bucket, jobId, datasetId, scriptUri, shards[..i], workersPerK)
      + ShardMessages(jobId, datasetId, i, SubsetPath(bucket, jobId, datasetId, i), scriptUri,
                      ShardRanges(|shards[i]|, workersPerK))
  }

  lemma ShardMessagesUnfold(jobId: string, datasetId: string, subsetIndex: nat, subsetUri: string,
                            scriptUri: string, ranges: seq<TakeoutRange>)
    requires |ranges| >= 1
    ensures ShardMessages(jobId, datasetId, subsetIndex, subsetUri, scriptUri, ranges)
         == [DispatchMessage(jobId, datasetId, subsetIndex, subsetUri, scriptUri, ranges[0])]
            + ShardMessages(jobId, datasetId, subsetIndex, subsetUri, scriptUri, ranges[1..])
  {
  }

  lemma AllTaskMessagesUnfold(bucket: string, jobId: string, datasetId: string, scriptUri: string,
                              shards: seq<seq<Row>>, i: nat, workersPerK: nat)
    requires Dispatchable(shards, workersPerK) && i < |shards|
    ensures AllTaskMessages(bucket, jobId, datasetId, scriptUri, shards[..i + 1], workersPerK)
         == AllTaskMessages(bucket, jobId, datasetId, scriptUri, shards[..i], workersPerK)
            + ShardMessages(jobId, datasetId, i, SubsetPath(bucket, jobId, datasetId, i), scriptUri,
                            ShardRanges(|shards[i]|, workersPerK))
    ensures SubsetsWritten(bucket, jobId, datasetId, shards[..i + 1])
         == SubsetsWritten(bucket, jobId, datasetId, shards[..i])[SubsetPath(bucket, jobId, datasetId, i) := shards[i]]
  {
    assert shards[..i + 1][..i] == shards[..i];
  }

  /** The subsets written to object storage, by path. */
  function SubsetsWritten(bucket: string, jobId: string, datasetId: string, shards: seq<seq<Row>>): map<string, seq<Row>>
    decreases |shards|
  {
    if |shards| == 0 then map[]
    else
      var i := |shards| - 1;
      SubsetsWritten(bucket, jobId, datasetId, shards[..i])[SubsetPath(bucket, jobId, datasetId, i) := shards[i]]
  }

  /** `dispatch_all_tasks` with the random sample and the probe's `workers_per_k` as
      inputs: returns the task count, the subsets written and the messages sent. */
  method DispatchAllTasks(bucket: string, jobId: string, datasetId: string, scriptUri: string,
                          sampled: seq<Row>, workersPerK: nat)
    returns (numTasks: nat, subsets: map<string, seq<Row>>, sent: seq<TaskMessage>)
    requires workersPerK >= 1 || |sampled| <= Config.K
    ensures Dispatchable(ArraySplit(sampled, Config.K), workersPerK)
    ensures workersPerK == 0 ==> numTasks == 0
    ensures sent == AllTaskMessages(bucket, jobId, datasetId, scriptUri, ArraySplit(sampled, Config.K), workersPerK)
    ensures subsets == SubsetsWritten(bucket, jobId, datasetId, ArraySplit(sampled, Config.K))
    ensures numTasks == |sent|
  {
    var dfSubsets := ArraySplit(sampled, Config.K);
    if workersPerK == 0 {
      ZeroWorkersDispatchNothing(bucket, jobId, datasetId, scriptUri, sampled);
    }
    numTasks, subsets, sent := 0, map[], [];
    for subsetIndex := 0 to |dfSubsets|
      invariant sent == AllTaskMessages(bucket, jobId, datasetId, scriptUri, dfSubsets[..subsetIndex], workersPerK)
      invariant subsets == SubsetsWritten(bucket, jobId, datasetId, dfSubsets[..subsetIndex])
      invariant numTasks == |sent|
    {
      var subset := dfSubsets[subsetIndex];
      var subsetPath := SubsetPath(bucket, jobId, datasetId, subsetIndex);
      subsets := subsets[subsetPath := subset];

      assert workersPerK >= 1 || |subset| <= 1;
      var shardSent, shardTasks := DispatchShard(jobId, datasetId, subsetIndex, subsetPath, scriptUri, |subset|, workersPerK);
      sent := sent + shardSent;
      numTasks := numTasks + shardTasks;
      AllTaskMessagesUnfold(bucket, jobId, datasetId, scriptUri, dfSubsets, subsetIndex, workersPerK);
    }
    assert dfSubsets[..|dfSubsets|] == dfSubsets;
  }

  /** The messages of one loop iteration: the first range's message, then those of the
      state it leaves behind. */
  lemma ShardMessagesStep(jobId: string, datasetId: string, subsetIndex: nat, subsetPath: string, scriptUri: string,
                          takeoutStart: nat, takeoutEnd: nat, maxIndex: nat, workersPerK: nat)
    requires 1 <= takeoutEnd <= takeoutStart <= takeoutEnd + 1
    requires takeoutEnd < maxIndex
    requires workersPerK >= 1 || maxIndex <= 1
    ensures workersPerK >= 1
    ensures var e := ComputeTakeoutEndIndex(takeoutStart, maxIndex, workersPerK);
      && takeoutStart <= e <= maxIndex
      && ShardMessages(jobId, datasetId, subsetIndex, subsetPath, scriptUri, RangesFrom(takeoutStart, takeoutEnd, maxIndex, workersPerK))
         == [DispatchMessage(jobId, datasetId, subsetIndex, subsetPath, scriptUri, TakeoutRange(takeoutStart, e))]
            + ShardMessages(jobId, datasetId, subsetIndex, subsetPath, scriptUri, RangesFrom(e + 1, e, maxIndex, workersPerK))
  {
    var rest := RangesFrom(takeoutStart, takeoutEnd, maxIndex, workersPerK);
    RangesFromStep(takeoutStart, takeoutEnd, maxIndex, workersPerK);
    ShardMessagesUnfold(jobId, datasetId, subsetIndex, subsetPath, scriptUri, rest);
  }

  /** The `while` loop of `dispatch_all_tasks` over one subset with `max_index` rows:
      the messages it sends and how many. */
  method DispatchShard(jobId: string, datasetId: string, subsetIndex: nat, subsetPath: string, scriptUri: string,
                       maxIndex: nat, workersPerK: nat)
    returns (sent: seq<TaskMessage>, numTasks: nat)
    requires workersPerK >= 1 || maxIndex <= 1
    ensures sent == ShardMessages(jobId, datasetId, subsetIndex, subsetPath, scriptUri, ShardRanges(maxIndex, workersPerK))
    ensures numTasks == |sent|
  {
    sent, numTasks := [], 0;
    var takeoutStart, takeoutEnd := 1, 1;
    while takeoutEnd < maxIndex
      invariant 1 <= takeoutEnd <= takeoutStart <= takeoutEnd + 1
      invariant takeoutStart <= maxIndex + 1
      invariant sent + ShardMessages(jobId, datasetId, subsetIndex, subsetPath, scriptUri,
                                     RangesFrom(takeoutStart, takeoutEnd, maxIndex, workersPerK))
             == ShardMessages(jobId, datasetId, subsetIndex, subsetPath, scriptUri, ShardRanges(maxIndex, workersPerK))
      invariant numTasks == |sent|
      decreases maxIndex + 1 - takeoutStart
    {
      ShardMessagesStep(jobId, datasetId, subsetIndex, subsetPath, scriptUri, takeoutStart, takeoutEnd, maxIndex, workersPerK);
      takeoutEnd := ComputeTakeoutEndIndex(takeoutStart, maxIndex, workersPerK);
      var range := TakeoutRange(takeoutStart, takeoutEnd);
      sent := sent + [DispatchMessage(jobId, datasetId, subsetIndex, subsetPath, scriptUri, range)];
      takeoutStart := takeoutEnd + 1;
      numTasks := numTasks + 1;
    }
  }

  /** A sample of at most `K` rows splits into subsets of at most one row, which the loops
      dispatch whatever `workers_per_k` is. */
  lemma SmallSampleIsDispatchable(sampled: seq<Row>, workersPerK: nat)
    requires |sampled| <= Config.K
    ensures Dispatchable(ArraySplit(sampled, Config.K), workersPerK)
    ensures forall j :: 0 <= j < Config.K ==> |ArraySplit(sampled, Config.K)[j]| <= 1
  {
    if |sampled| < Config.K {
      assert |sampled| / Config.K == 0;
    } else {
      assert |sampled| / Config.K == 1 && |sampled| % Config.K == 0;
    }
  }

  /** Subsets of at most one row get no task message at all. */
  lemma {:induction false} TinyShardsSendNothing(bucket: string, jobId: string, datasetId: string, scriptUri: string,
                                                shards: seq<seq<Row>>, workersPerK: nat)
    requires forall j :: 0 <= j < |shards| ==> |shards[j]| <= 1
    ensures AllTaskMessages(bucket, jobId, datasetId, scriptUri, shards, workersPerK) == []
    decreases |shards|
  {
    if |shards| > 0 {
      var i := |shards| - 1;
      assert forall j :: 0 <= j < i ==> shards[..i][j] == shards[j];
      TinyShardsSendNothing(bucket, jobId, datasetId, scriptUri, shards[..i], workersPerK);
      TinyShardHasNoTasks(|shards[i]|, workersPerK);
    }
  }

  /** When the probe yields no workers (only for a sample of at most `K` rows), the
      dispatch sends no task and never divides by `workers_per_k`. */
  lemma ZeroWorkersDispatchNothing(bucket: string, jobId: string, datasetId: string, scriptUri: string,
                                   sampled: seq<Row>)
    requires |sampled| <= Config.K
    ensures Dispatchable(ArraySplit(sampled, Config.K), 0)
    ensures AllTaskMessages(bucket, jobId, datasetId, scriptUri, ArraySplit(sampled, Config.K), 0) == []
  {
    SmallSampleIsDispatchable(sampled, 0);
    TinyShardsSendNothing(bucket, jobId, datasetId, scriptUri, ArraySplit(sampled, Config.K), 0);
  }

  /** `update_state_machine`: the event plus the monitoring parameters. The clock
      reading and the configured timeout are inputs. */
  function UpdateStateMachine(event: Payload, startTime: string, jobTimeoutSecs: int, numTasks: nat): (p: Payload)
    ensures p.Keys == event.Keys + {"start_time", "job_timeout_secs", "num_tasks_dispatched"}
    ensures p["start_time"] == JStr(startTime) && p["job_timeout_secs"] == JInt(jobTimeoutSecs)
    ensures p["num_tasks_dispatched"] == JInt(numTasks)
    ensures forall f :: f in event && f !in {"start_time", "job_timeout_secs", "num_tasks_dispatched"} ==> p[f] == event[f]
  {
    event["start_time" := JStr(startTime)]["job_timeout_secs" := JInt(jobTimeoutSecs)]["num_tasks_dispatched" := JInt(numTasks)]
  }
}
