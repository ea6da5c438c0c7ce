/** How the stages fit together: the messages the dispatcher sends name distinct tasks
    and subsets it wrote, the workers' outputs under a job's prefix are exactly the
    tasks that succeeded, and so the monitor sees the job complete exactly when every
    dispatched task has succeeded at least once, whatever the order of delivery and
    however often a message is delivered again. */
module Pipeline {
  import opened Wrappers
  import opened Tables
  import opened Seqs
  import opened Text
  import Dispatcher
  import Worker
  import Monitor

  // ---------------------------------------------------------------- dispatched messages

  /** Every message sent belongs to one subset and one of that subset's ranges. */
  lemma {:induction false} MessageOrigin(bucket: string, jobId: string, datasetId: string, scriptUri: string,
                                        shards: seq<seq<Row>>, w: nat, m: TaskMessage)
    returns (i: nat, r: Dispatcher.TakeoutRange)
    requires w >= 1
    requires m in Dispatcher.AllTaskMessages(bucket, jobId, datasetId, scriptUri, shards, w)
    ensures i < |shards| && r in Dispatcher.ShardRanges(|shards[i]|, w)
    ensures m == Dispatcher.DispatchMessage(jobId, datasetId, i, Dispatcher.SubsetPath(bucket, jobId, datasetId, i), scriptUri, r)
    decreases |shards|
  {
    var n := |shards| - 1;
    var ranges := Dispatcher.ShardRanges(|shards[n]|, w);
    var tail := Dispatcher.ShardMessages(jobId, datasetId, n, Dispatcher.SubsetPath(bucket, jobId, datasetId, n), scriptUri, ranges);
    var head := Dispatcher.AllTaskMessages(bucket, jobId, datasetId, scriptUri, shards[..n], w);
    assert Dispatcher.AllTaskMessages(bucket, jobId, datasetId, scriptUri, shards, w) == head + tail;
    if m in tail {
      var j :| 0 <= j < |tail| && tail[j] == m;
      i, r := n, ranges[j];
    } else {
      i, r := MessageOrigin(bucket, jobId, datasetId, scriptUri, shards[..n], w, m);
      assert shards[..n][i] == shards[i];
    }
  }

  lemma {:induction false} SubsetsWrittenLookup(bucket: string, jobId: string, datasetId: string, shards: seq<seq<Row>>, i: nat)
    requires i < |shards|
    ensures Dispatcher.SubsetPath(bucket, jobId, datasetId, i) in Dispatcher.SubsetsWritten(bucket, jobId, datasetId, shards)
    ensures Dispatcher.SubsetsWritten(bucket, jobId, datasetId, shards)[Dispatcher.SubsetPath(bucket, jobId, datasetId, i)] == shards[i]
    decreases |shards|
  {
    var n := |shards| - 1;
    if i < n {
      SubsetsWrittenLookup(bucket, jobId, datasetId, shards[..n], i);
      if Dispatcher.SubsetPath(bucket, jobId, datasetId, i) == Dispatcher.SubsetPath(bucket, jobId, datasetId, n) {
        Dispatcher.SubsetPathInjective(bucket, jobId, datasetId, i, n);
      }
    }
  }

  /** A worker handling a dispatched message reads the subset the dispatcher wrote for
      it, and its takeout rows are rows of that subset. */
  lemma MessageNamesItsSubset(bucket: string, jobId: string, datasetId: string, scriptUri: string,
                              shards: seq<seq<Row>>, w: nat, m: TaskMessage)
    returns (i: nat)
    requires w >= 1
    requires m in Dispatcher.AllTaskMessages(bucket, jobId, datasetId, scriptUri, shards, w)
    ensures i < |shards|
    ensures m.jobId == jobId && m.scriptUri == scriptUri
    ensures m.subsetUri in Dispatcher.SubsetsWritten(bucket, jobId, datasetId, shards)
    ensures Dispatcher.SubsetsWritten(bucket, jobId, datasetId, shards)[m.subsetUri] == shards[i]
    ensures 1 <= m.takeoutStart <= m.takeoutEnd <= |shards[i]|
  {
    var r;
    i, r := MessageOrigin(bucket, jobId, datasetId, scriptUri, shards, w, m);
    SubsetsWrittenLookup(bucket, jobId, datasetId, shards, i);
    assert |shards[i]| >= 2;
    Dispatcher.ShardRangesPartition(|shards[i]|, w);
  }

  /** No two messages of the sequence carry the same task id. */
  predicate IdsDistinct(ms: seq<TaskMessage>) {
    forall a, b :: 0 <= a < b < |ms| ==> ms[a].taskId != ms[b].taskId
  }

  /** The subset index a task id of the dataset names, if it parses. */
  function SubsetNamed(datasetId: string, m: TaskMessage): Option<nat> {
    match Dispatcher.ParseTaskId(datasetId, m.taskId)
    case Some(t) => Some(t.0)
    case None => None
  }

  lemma DispatchMessageNamesSubset(jobId: string, datasetId: string, i: nat, uri: string, scriptUri: string,
                                   r: Dispatcher.TakeoutRange)
    ensures SubsetNamed(datasetId, Dispatcher.DispatchMessage(jobId, datasetId, i, uri, scriptUri, r)) == Some(i)
  {
    Dispatcher.TaskIdRoundTrip(datasetId, i, r.start, r.end);
  }

  lemma ShardTaskIdsDistinct(jobId: string, datasetId: string, i: nat, uri: string, scriptUri: string, maxIndex: nat, w: nat)
    requires w >= 1
    ensures IdsDistinct(Dispatcher.ShardMessages(jobId, datasetId, i, uri, scriptUri, Dispatcher.ShardRanges(maxIndex, w)))
    ensures forall m :: m in Dispatcher.ShardMessages(jobId, datasetId, i, uri, scriptUri, Dispatcher.ShardRanges(maxIndex, w)) ==>
      SubsetNamed(datasetId, m) == Some(i)
  {
    var ranges := Dispatcher.ShardRanges(maxIndex, w);
    var ms := Dispatcher.ShardMessages(jobId, datasetId, i, uri, scriptUri, ranges);
    forall m | m in ms ensures SubsetNamed(datasetId, m) == Some(i) {
      var j :| 0 <= j < |ms| && ms[j] == m;
      DispatchMessageNamesSubset(jobId, datasetId, i, uri, scriptUri, ranges[j]);
    }
    if maxIndex <= 1 {
      Dispatcher.TinyShardHasNoTasks(maxIndex, w);
    } else {
      Dispatcher.ShardRangesPartition(maxIndex, w);
      Dispatcher.RangesFromOrdered(1, 1, maxIndex, w);
      assert ranges == Dispatcher.RangesFrom(1, 1, maxIndex, w);
      forall a, b | 0 <= a < b < |ms| ensures ms[a].taskId != ms[b].taskId {
        if ms[a].taskId == ms[b].taskId {
          Dispatcher.TaskIdInjective(datasetId, i, ranges[a].start, ranges[a].end, i, ranges[b].start, ranges[b].end);
        }
      }
    }
  }

  /** Two runs of distinct ids stay distinct when joined, provided the ids of the first
      name subsets below `n` and those of the second name subset `n`. */
  lemma IdsDistinctConcat(datasetId: string, head: seq<TaskMessage>, tail: seq<TaskMessage>, n: nat)
    requires IdsDistinct(head) && IdsDistinct(tail)
    requires forall m :: m in head ==> SubsetNamed(datasetId, m).Some? && SubsetNamed(datasetId, m).value < n
    requires forall m :: m in tail ==> SubsetNamed(datasetId, m) == Some(n)
    ensures IdsDistinct(head + tail)
  {
    var sent := head + tail;
    forall a, b | 0 <= a < b < |sent| ensures sent[a].taskId != sent[b].taskId {
      if b < |head| {
        assert sent[a] == head[a] && sent[b] == head[b];
      } else if a >= |head| {
        assert sent[a] == tail[a - |head|] && sent[b] == tail[b - |head|];
      } else {
        assert sent[a] == head[a] && head[a] in head;
        assert sent[b] == tail[b - |head|] && tail[b - |head|] in tail;
      }
    }
  }

  /** No two messages of a dispatch carry the same task id, and every id names one of the
      dispatched subsets. */
  lemma {:induction false} DispatchedTaskIdsDistinct(bucket: string, jobId: string, datasetId: string, scriptUri: string,
                                                    shards: seq<seq<Row>>, w: nat)
    requires w >= 1
    ensures IdsDistinct(Dispatcher.AllTaskMessages(bucket, jobId, datasetId, scriptUri, shards, w))
    ensures forall m :: m in Dispatcher.AllTaskMessages(bucket, jobId, datasetId, scriptUri, shards, w) ==>
      SubsetNamed(datasetId, m).Some? && SubsetNamed(datasetId, m).value < |shards|
    decreases |shards|
  {
    if |shards| > 0 {
      var n := |shards| - 1;
      var head := Dispatcher.AllTaskMessages(bucket, jobId, datasetId, scriptUri, shards[..n], w);
      var tail := Dispatcher.ShardMessages(jobId, datasetId, n, Dispatcher.SubsetPath(bucket, jobId, datasetId, n), scriptUri,
                                           Dispatcher.ShardRanges(|shards[n]|, w));
      assert head + tail == Dispatcher.AllTaskMessages(bucket, jobId, datasetId, scriptUri, shards, w);
      DispatchedTaskIdsDistinct(bucket, jobId, datasetId, scriptUri, shards[..n], w);
      ShardTaskIdsDistinct(jobId, datasetId, n, Dispatcher.SubsetPath(bucket, jobId, datasetId, n), scriptUri, |shards[n]|, w);
      IdsDistinctConcat(datasetId, head, tail, n);
      assert forall m :: m in head + tail <==> m in head || m in tail;
    }
  }

  // ---------------------------------------------------------------- workers against the store

  /** The event that delivers one message. */
  function Delivery(m: TaskMessage): Worker.WorkerEvent {
    Worker.WorkerEvent([Some(m)])
  }

  predicate Succeeds(m: TaskMessage, scripts: map<string, Analysis>, subsets: map<string, seq<Row>>) {
    Worker.RunTask(Delivery(m), scripts, subsets).Success?
  }

  /** The store after the workers handled the deliveries one after the other. */
  function RunAll(objects: Worker.Store, deliveries: seq<TaskMessage>, scripts: map<string, Analysis>,
                  subsets: map<string, seq<Row>>): Worker.Store
    decreases |deliveries|
  {
    if |deliveries| == 0 then objects
    else Worker.StoreAfter(RunAll(objects, deliveries[..|deliveries| - 1], scripts, subsets),
                           Delivery(deliveries[|deliveries| - 1]), scripts, subsets)
  }

  function JobKeys(store: Worker.Store, jobId: string): set<string> {
    set k | k in store && StartsWith(k, Worker.JobPrefix(jobId))
  }

  /** The output keys of the deliveries that succeed. */
  function DoneKeys(jobId: string, deliveries: seq<TaskMessage>, scripts: map<string, Analysis>,
                    subsets: map<string, seq<Row>>): set<string>
  {
    set m | m in deliveries && Succeeds(m, scripts, subsets) :: Worker.OutputKey(jobId, m.taskId)
  }

  /** The key a delivery adds under its job's prefix: its own when it succeeds, none otherwise. */
  function Added(jobId: string, m: TaskMessage, scripts: map<string, Analysis>, subsets: map<string, seq<Row>>): set<string> {
    if Succeeds(m, scripts, subsets) then {Worker.OutputKey(jobId, m.taskId)} else {}
  }

  lemma DoneKeysStep(jobId: string, deliveries: seq<TaskMessage>, scripts: map<string, Analysis>,
                     subsets: map<string, seq<Row>>)
    requires |deliveries| > 0
    ensures var n := |deliveries| - 1;
      DoneKeys(jobId, deliveries, scripts, subsets)
      == DoneKeys(jobId, deliveries[..n], scripts, subsets) + Added(jobId, deliveries[n], scripts, subsets)
  {
    var n := |deliveries| - 1;
    assert forall m :: m in deliveries <==> m in deliveries[..n] || m == deliveries[n];
  }

  lemma JobKeysStep(before: Worker.Store, m: TaskMessage, scripts: map<string, Analysis>,
                    subsets: map<string, seq<Row>>, jobId: string)
    requires m.jobId == jobId
    ensures JobKeys(Worker.StoreAfter(before, Delivery(m), scripts, subsets), jobId)
         == JobKeys(before, jobId) + Added(jobId, m, scripts, subsets)
  {
    Worker.OnlyOwnKeyChanges(before, Delivery(m), scripts, subsets);
  }

  /** Starting with nothing under the job's prefix, the objects there afterwards are
      exactly the output keys of the deliveries that succeeded. */
  lemma {:induction false} RunAllJobKeys(objects: Worker.Store, deliveries: seq<TaskMessage>, scripts: map<string, Analysis>,
                                        subsets: map<string, seq<Row>>, jobId: string)
    requires JobKeys(objects, jobId) == {}
    requires forall m :: m in deliveries ==> m.jobId == jobId
    ensures JobKeys(RunAll(objects, deliveries, scripts, subsets), jobId) == DoneKeys(jobId, deliveries, scripts, subsets)
    decreases |deliveries|
  {
    if |deliveries| > 0 {
      var n := |deliveries| - 1;
      assert deliveries[n] in deliveries;
      assert forall m :: m in deliveries[..n] ==> m in deliveries;
      RunAllJobKeys(objects, deliveries[..n], scripts, subsets, jobId);
      JobKeysStep(RunAll(objects, deliveries[..n], scripts, subsets), deliveries[n], scripts, subsets, jobId);
      DoneKeysStep(jobId, deliveries, scripts, subsets);
    } else {
      assert DoneKeys(jobId, deliveries, scripts, subsets) == {};
    }
  }

  /** The output keys of the dispatched tasks. */
  function ExpectedKeys(jobId: string, sent: seq<TaskMessage>): set<string> {
    set m | m in sent :: Worker.OutputKey(jobId, m.taskId)
  }

  function OutputKeys(jobId: string, sent: seq<TaskMessage>): (keys: seq<string>)
    ensures |keys| == |sent|
    ensures forall i :: 0 <= i < |sent| ==> keys[i] == Worker.OutputKey(jobId, sent[i].taskId)
  {
    seq(|sent|, i requires 0 <= i < |sent| => Worker.OutputKey(jobId, sent[i].taskId))
  }

  /** With distinct task ids there are as many expected keys as tasks. */
  lemma ExpectedKeyCount(jobId: string, sent: seq<TaskMessage>)
    requires IdsDistinct(sent)
    ensures |ExpectedKeys(jobId, sent)| == |sent|
  {
    var keys := OutputKeys(jobId, sent);
    forall a, b | 0 <= a < b < |keys| ensures keys[a] != keys[b] {
      if keys[a] == keys[b] { Worker.OutputKeyInjective(jobId, sent[a].taskId, sent[b].taskId); }
    }
    DistinctCardinality(keys);
    assert Elements(keys) == ExpectedKeys(jobId, sent) by {
      forall k | k in Elements(keys) ensures k in ExpectedKeys(jobId, sent) {
        var i :| 0 <= i < |keys| && keys[i] == k;
        assert sent[i] in sent;
      }
      forall k | k in ExpectedKeys(jobId, sent) ensures k in Elements(keys) {
        var m :| m in sent && k == Worker.OutputKey(jobId, m.taskId);
        var i :| 0 <= i < |sent| && sent[i] == m;
        assert keys[i] == k;
      }
    }
  }

  // ---------------------------------------------------------------- completion

  /** Once the last shard is dispatched and every message has been handled successfully
      (in any order, any number of times), a listing of the job's prefix counts exactly
      the number of tasks dispatched, and the monitor reports the job complete. */
  lemma CompletesWhenEveryTaskSucceeded(
    bucket: string, jobId: string, datasetId: string, scriptUri: string, shards: seq<seq<Row>>, w: nat,
    objects: Worker.Store, deliveries: seq<TaskMessage>, scripts: map<string, Analysis>,
    pages: seq<Monitor.Page>, elapsedSecs: real, timeoutSecs: real)
    requires w >= 1
    requires JobKeys(objects, jobId) == {}
    requires var sent := Dispatcher.AllTaskMessages(bucket, jobId, datasetId, scriptUri, shards, w);
      forall m :: m in deliveries <==> m in sent
    requires forall m :: m in deliveries ==> Succeeds(m, scripts, Dispatcher.SubsetsWritten(bucket, jobId, datasetId, shards))
    requires Monitor.IsListing(pages, RunAll(objects, deliveries, scripts, Dispatcher.SubsetsWritten(bucket, jobId, datasetId, shards)),
                               Worker.JobPrefix(jobId))
    ensures Monitor.TotalKeyCount(pages) == |Dispatcher.AllTaskMessages(bucket, jobId, datasetId, scriptUri, shards, w)|
    ensures Monitor.Decide(|Dispatcher.AllTaskMessages(bucket, jobId, datasetId, scriptUri, shards, w)| - Monitor.TotalKeyCount(pages),
                           elapsedSecs, timeoutSecs) == Monitor.Completed
  {
    var sent := Dispatcher.AllTaskMessages(bucket, jobId, datasetId, scriptUri, shards, w);
    var subsets := Dispatcher.SubsetsWritten(bucket, jobId, datasetId, shards);
    forall m | m in deliveries ensures m.jobId == jobId {
      var _ := MessageNamesItsSubset(bucket, jobId, datasetId, scriptUri, shards, w, m);
    }
    RunAllJobKeys(objects, deliveries, scripts, subsets, jobId);
    assert DoneKeys(jobId, deliveries, scripts, subsets) == ExpectedKeys(jobId, sent);
    DispatchedTaskIdsDistinct(bucket, jobId, datasetId, scriptUri, shards, w);
    ExpectedKeyCount(jobId, sent);
    Monitor.ListingCount(pages, RunAll(objects, deliveries, scripts, subsets), Worker.JobPrefix(jobId));
  }

  /** While some dispatched task has not yet succeeded, the listing counts fewer objects
      than tasks, so the monitor never reports the job complete. */
  lemma NeverCompletesEarly(
    bucket: string, jobId: string, datasetId: string, scriptUri: string, shards: seq<seq<Row>>, w: nat,
    objects: Worker.Store, deliveries: seq<TaskMessage>, scripts: map<string, Analysis>,
    pages: seq<Monitor.Page>, pending: TaskMessage, elapsedSecs: real, timeoutSecs: real)
    requires w >= 1
    requires JobKeys(objects, jobId) == {}
    requires forall m :: m in deliveries ==> m in Dispatcher.AllTaskMessages(bucket, jobId, datasetId, scriptUri, shards, w)
    requires pending in Dispatcher.AllTaskMessages(bucket, jobId, datasetId, scriptUri, shards, w)
    requires pending !in deliveries || !Succeeds(pending, scripts, Dispatcher.SubsetsWritten(bucket, jobId, datasetId, shards))
    requires Monitor.IsListing(pages, RunAll(objects, deliveries, scripts, Dispatcher.SubsetsWritten(bucket, jobId, datasetId, shards)),
                               Worker.JobPrefix(jobId))
    ensures Monitor.TotalKeyCount(pages) < |Dispatcher.AllTaskMessages(bucket, jobId, datasetId, scriptUri, shards, w)|
    ensures Monitor.Decide(|Dispatcher.AllTaskMessages(bucket, jobId, datasetId, scriptUri, shards, w)| - Monitor.TotalKeyCount(pages),
                           elapsedSecs, timeoutSecs) != Monitor.Completed
  {
    var sent := Dispatcher.AllTaskMessages(bucket, jobId, datasetId, scriptUri, shards, w);
    var subsets := Dispatcher.SubsetsWritten(bucket, jobId, datasetId, shards);
    ListingCountsDoneKeys(bucket, jobId, datasetId, scriptUri, shards, w, objects, deliveries, scripts, pages);
    DispatchedPendingIsMissing(bucket, jobId, datasetId, scriptUri, shards, w, deliveries, scripts, pending);
    assert Monitor.TotalKeyCount(pages) < |sent|;
  }

  /** While a dispatched task is pending, fewer of the job's keys are done than tasks were sent. */
  lemma DispatchedPendingIsMissing(
    bucket: string, jobId: string, datasetId: string, scriptUri: string, shards: seq<seq<Row>>, w: nat,
    deliveries: seq<TaskMessage>, scripts: map<string, Analysis>, pending: TaskMessage)
    requires w >= 1
    requires forall m :: m in deliveries ==> m in Dispatcher.AllTaskMessages(bucket, jobId, datasetId, scriptUri, shards, w)
    requires pending in Dispatcher.AllTaskMessages(bucket, jobId, datasetId, scriptUri, shards, w)
    requires pending !in deliveries || !Succeeds(pending, scripts, Dispatcher.SubsetsWritten(bucket, jobId, datasetId, shards))
    ensures |DoneKeys(jobId, deliveries, scripts, Dispatcher.SubsetsWritten(bucket, jobId, datasetId, shards))|
          < |Dispatcher.AllTaskMessages(bucket, jobId, datasetId, scriptUri, shards, w)|
  {
    var sent := Dispatcher.AllTaskMessages(bucket, jobId, datasetId, scriptUri, shards, w);
    DispatchedTaskIdsDistinct(bucket, jobId, datasetId, scriptUri, shards, w);
    PendingKeyIsMissing(jobId, sent, deliveries, scripts, Dispatcher.SubsetsWritten(bucket, jobId, datasetId, shards), pending);
  }

  /** The monitor's count of a job is the number of its deliveries' keys that succeeded. */
  lemma ListingCountsDoneKeys(
    bucket: string, jobId: string, datasetId: string, scriptUri: string, shards: seq<seq<Row>>, w: nat,
    objects: Worker.Store, deliveries: seq<TaskMessage>, scripts: map<string, Analysis>, pages: seq<Monitor.Page>)
    requires w >= 1
    requires JobKeys(objects, jobId) == {}
    requires forall m :: m in deliveries ==> m in Dispatcher.AllTaskMessages(bucket, jobId, datasetId, scriptUri, shards, w)
    requires Monitor.IsListing(pages, RunAll(objects, deliveries, scripts, Dispatcher.SubsetsWritten(bucket, jobId, datasetId, shards)),
                               Worker.JobPrefix(jobId))
    ensures Monitor.TotalKeyCount(pages) == |DoneKeys(jobId, deliveries, scripts, Dispatcher.SubsetsWritten(bucket, jobId, datasetId, shards))|
  {
    var subsets := Dispatcher.SubsetsWritten(bucket, jobId, datasetId, shards);
    forall m | m in deliveries ensures m.jobId == jobId {
      var _ := MessageNamesItsSubset(bucket, jobId, datasetId, scriptUri, shards, w, m);
    }
    RunAllJobKeys(objects, deliveries, scripts, subsets, jobId);
    Monitor.ListingCount(pages, RunAll(objects, deliveries, scripts, subsets), Worker.JobPrefix(jobId));
  }

  /** A done key belongs to a task other than the pending one. */
  lemma DoneKeyIsNotPending(jobId: string, sent: seq<TaskMessage>, deliveries: seq<TaskMessage>,
                            scripts: map<string, Analysis>, subsets: map<string, seq<Row>>, pending: TaskMessage, k: string)
    requires IdsDistinct(sent)
    requires forall m :: m in deliveries ==> m in sent
    requires pending in sent
    requires pending !in deliveries || !Succeeds(pending, scripts, subsets)
    requires k in DoneKeys(jobId, deliveries, scripts, subsets)
    ensures k in ExpectedKeys(jobId, sent) && k != Worker.OutputKey(jobId, pending.taskId)
  {
    var m :| m in deliveries && Succeeds(m, scripts, subsets) && k == Worker.OutputKey(jobId, m.taskId);
    assert m in sent;
    if k == Worker.OutputKey(jobId, pending.taskId) {
      Worker.OutputKeyInjective(jobId, m.taskId, pending.taskId);
      assert false;
    }
  }

  /** With distinct task ids, a pending task's key is missing, so fewer keys are present than tasks. */
  lemma PendingKeyIsMissing(jobId: string, sent: seq<TaskMessage>, deliveries: seq<TaskMessage>,
                            scripts: map<string, Analysis>, subsets: map<string, seq<Row>>, pending: TaskMessage)
    requires IdsDistinct(sent)
    requires forall m :: m in deliveries ==> m in sent
    requires pending in sent
    requires pending !in deliveries || !Succeeds(pending, scripts, subsets)
    ensures |DoneKeys(jobId, deliveries, scripts, subsets)| < |sent|
  {
    ExpectedKeyCount(jobId, sent);
    var done := DoneKeys(jobId, deliveries, scripts, subsets);
    var expected := ExpectedKeys(jobId, sent);
    var missing := Worker.OutputKey(jobId, pending.taskId);
    assert missing in expected;
    forall k | k in done ensures k in expected - {missing} {
      DoneKeyIsNotPending(jobId, sent, deliveries, scripts, subsets, pending, k);
    }
    SubsetCardinality(done, expected - {missing});
  }
}
