/** The monitor of functions/monitor.py: count the objects under the job's output
    prefix, subtract from the number of tasks dispatched, and decide whether the job
    is complete, still running, or has timed out. The object listing and the clock are
    parameters. */
module Monitor {
  import opened Wrappers
  import opened Tables
  import opened Seqs
  import opened Text
  import Worker

  /** One page of a `list_objects_v2` listing; its `KeyCount` is the number of keys on it. */
  datatype Page = Page(keys: seq<string>)

  /** The keys of a listing, in page order. */
  function ListedKeys(pages: seq<Page>): seq<string>
    decreases |pages|
  {
    if |pages| == 0 then [] else ListedKeys(pages[..|pages| - 1]) + pages[|pages| - 1].keys
  }

  /** The sum of the pages' `KeyCount`s is the number of keys listed. */
  function TotalKeyCount(pages: seq<Page>): (n: nat)
    ensures n == |ListedKeys(pages)|
    decreases |pages|
  {
    if |pages| == 0 then 0 else TotalKeyCount(pages[..|pages| - 1]) + |pages[|pages| - 1].keys|
  }

  /** A listing of `prefix` in `store`: every key exactly once, and only keys under the prefix. */
  predicate IsListing(pages: seq<Page>, store: Worker.Store, prefix: string) {
    && Distinct(ListedKeys(pages))
    && Elements(ListedKeys(pages)) == set k | k in store && StartsWith(k, prefix)
  }

  /** `compute_num_completed_tasks`: the loop over the pages. */
  method ComputeNumCompletedTasks(pages: seq<Page>) returns (numCompleted: nat)
    ensures numCompleted == TotalKeyCount(pages)
  {
    numCompleted := 0;
    for i := 0 to |pages|
      invariant numCompleted == TotalKeyCount(pages[..i])
    {
      assert pages[..i + 1][..i] == pages[..i];
      numCompleted := numCompleted + |pages[i].keys|;
    }
    assert pages[..|pages|] == pages;
  }

  /** However the listing is paged, the count is the number of objects under the prefix. */
  lemma ListingCount(pages: seq<Page>, store: Worker.Store, prefix: string)
    requires IsListing(pages, store, prefix)
    ensures TotalKeyCount(pages) == |set k | k in store && StartsWith(k, prefix)|
  {
    DistinctCardinality(ListedKeys(pages));
  }

  datatype Decision = Completed | StillRunning | TimedOut

  /** The two tests of `lambda_handler`, in order: a job is complete exactly when no task
      is outstanding, and otherwise times out once strictly more than the timeout has
      elapsed. */
  function Decide(numRemaining: int, elapsedSecs: real, timeoutSecs: real): (d: Decision)
    ensures d == Completed <==> numRemaining == 0
    ensures d == TimedOut <==> numRemaining != 0 && elapsedSecs > timeoutSecs
    ensures d == StillRunning <==> numRemaining != 0 && elapsedSecs <= timeoutSecs
  {
    if numRemaining == 0 then Completed
    else if elapsedSecs > timeoutSecs then TimedOut
    else StillRunning
  }

  datatype MonitorError = MissingField(name: string) | WrongType(name: string) | BadStartTime | JobTimedOut

  function GetField(event: Payload, name: string): Result<Json, MonitorError> {
    if name in event then Success(event[name]) else Failure(MissingField(name))
  }

  /** A JSON number as a real, for the comparison with the elapsed time. */
  function AsReal(j: Json): Option<real> {
    match j
    case JInt(i) => Some(i as real)
    case JReal(r) => Some(r)
    case _ => None
  }

  /** `lambda_handler`, given the listing the store returns for a prefix and the seconds
      elapsed since a given start time (`None` when the time string does not parse). The
      output is the input event with `num_tasks_remaining`, `elapsed_secs` and
      `completed` set; a timeout is raised as an error. */
  function MonitorStep(event: Payload, listing: string -> seq<Page>, elapsedSince: string -> Option<real>)
    : Result<Payload, MonitorError>
  {
    if "job_id" !in event then Failure(MissingField("job_id"))
    else if "num_tasks_dispatched" !in event then Failure(MissingField("num_tasks_dispatched"))
    else if JsonText(event["job_id"]).None? then Failure(WrongType("job_id"))
    else if !event["num_tasks_dispatched"].JInt? then Failure(WrongType("num_tasks_dispatched"))
    else
      var numRemaining := event["num_tasks_dispatched"].i - TotalKeyCount(listing(Worker.JobPrefix(JsonText(event["job_id"]).value)));
      if "start_time" !in event then Failure(MissingField("start_time"))
      else if !event["start_time"].JStr? then Failure(WrongType("start_time"))
      else if elapsedSince(event["start_time"].s).None? then Failure(BadStartTime)
      else
        var elapsedSecs := elapsedSince(event["start_time"].s).value;
        var output := event["num_tasks_remaining" := JInt(numRemaining)]["elapsed_secs" := JReal(elapsedSecs)];
        if numRemaining == 0 then Success(output["completed" := JBool(true)])
        else if "job_timeout_secs" !in event then Failure(MissingField("job_timeout_secs"))
        else if AsReal(event["job_timeout_secs"]).None? then Failure(WrongType("job_timeout_secs"))
        else if elapsedSecs > AsReal(event["job_timeout_secs"]).value then Failure(JobTimedOut)
        else Success(output["completed" := JBool(false)])
  }

  /** `lambda_handler` as the program runs it, with the paging loop. */
  method MonitorHandler(event: Payload, listing: string -> seq<Page>, elapsedSince: string -> Option<real>)
    returns (result: Result<Payload, MonitorError>)
    ensures result == MonitorStep(event, listing, elapsedSince)
  {
    if "job_id" !in event { return Failure(MissingField("job_id")); }
    if "num_tasks_dispatched" !in event { return Failure(MissingField("num_tasks_dispatched")); }
    var jobId := JsonText(event["job_id"]);
    if jobId.None? { return Failure(WrongType("job_id")); }
    if !event["num_tasks_dispatched"].JInt? { return Failure(WrongType("num_tasks_dispatched")); }
    var numCompleted := ComputeNumCompletedTasks(listing(Worker.JobPrefix(jobId.value)));
    var numRemaining := event["num_tasks_dispatched"].i - numCompleted;
    if "start_time" !in event { return Failure(MissingField("start_time")); }
    if !event["start_time"].JStr? { return Failure(WrongType("start_time")); }
    var elapsed := elapsedSince(event["start_time"].s);
    if elapsed.None? { return Failure(BadStartTime); }
    var output := event["num_tasks_remaining" := JInt(numRemaining)]["elapsed_secs" := JReal(elapsed.value)];
    if numRemaining == 0 {
      return Success(output["completed" := JBool(true)]);
    }
    if "job_timeout_secs" !in event { return Failure(MissingField("job_timeout_secs")); }
    var timeout := AsReal(event["job_timeout_secs"]);
    if timeout.None? { return Failure(WrongType("job_timeout_secs")); }
    if elapsed.value > timeout.value {
      return Failure(JobTimedOut);
    }
    result := Success(output["completed" := JBool(false)]);
  }

  /** For a well-formed event the step follows `Decide`: it completes exactly when every
      dispatched task has an object, raises the timeout exactly when tasks are outstanding
      past the timeout, and otherwise reports the job as still running. The output keeps
      every other field of the event. */
  lemma MonitorFollowsDecision(event: Payload, listing: string -> seq<Page>, elapsedSince: string -> Option<real>,
                               jobId: string, numDispatched: int, startTime: string, elapsedSecs: real, timeoutSecs: real)
    requires "job_id" in event && JsonText(event["job_id"]) == Some(jobId)
    requires "num_tasks_dispatched" in event && event["num_tasks_dispatched"] == JInt(numDispatched)
    requires "start_time" in event && event["start_time"] == JStr(startTime)
    requires elapsedSince(startTime) == Some(elapsedSecs)
    requires "job_timeout_secs" in event && AsReal(event["job_timeout_secs"]) == Some(timeoutSecs)
    ensures var numRemaining := numDispatched - TotalKeyCount(listing(Worker.JobPrefix(jobId)));
      var r := MonitorStep(event, listing, elapsedSince);
      && (r == Failure(JobTimedOut) <==> Decide(numRemaining, elapsedSecs, timeoutSecs) == TimedOut)
      && (r.Success? <==> Decide(numRemaining, elapsedSecs, timeoutSecs) != TimedOut)
      && (r.Success? ==>
           && r.value["completed"] == JBool(Decide(numRemaining, elapsedSecs, timeoutSecs) == Completed)
           && r.value["num_tasks_remaining"] == JInt(numRemaining)
           && r.value["elapsed_secs"] == JReal(elapsedSecs)
           && r.value.Keys == event.Keys + {"num_tasks_remaining", "elapsed_secs", "completed"}
           && forall f :: f in event && f !in {"num_tasks_remaining", "elapsed_secs", "completed"} ==> r.value[f] == event[f])
  {
  }

  /** A complete job never looks at `job_timeout_secs`: the step succeeds without it. */
  lemma CompletedJobIgnoresTimeout(event: Payload, listing: string -> seq<Page>, elapsedSince: string -> Option<real>,
                                   jobId: string, startTime: string, elapsedSecs: real)
    requires "job_id" in event && JsonText(event["job_id"]) == Some(jobId)
    requires "num_tasks_dispatched" in event && event["num_tasks_dispatched"] == JInt(TotalKeyCount(listing(Worker.JobPrefix(jobId))))
    requires "start_time" in event && event["start_time"] == JStr(startTime)
    requires elapsedSince(startTime) == Some(elapsedSecs)
    ensures MonitorStep(event, listing, elapsedSince).Success?
    ensures MonitorStep(event, listing, elapsedSince).value["completed"] == JBool(true)
    ensures MonitorStep(event, listing, elapsedSince).value["num_tasks_remaining"] == JInt(0)
  {
  }
}
