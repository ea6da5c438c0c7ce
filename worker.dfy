/** The worker of functions/worker.py: take the first task message of a queue event,
    run the leave-one-out routine over its range of takeout rows, and write the table
    to `intermediate/<job_id>/<task_id>.csv`; any error is logged and nothing is written. */
module Worker {
  import opened Wrappers
  import opened Tables
  import opened Text
  import LocalSensitivity

  /** A queue event. Each record's body either decodes to a task message or is `None`
      (not JSON, or a field missing). */
  datatype WorkerEvent = WorkerEvent(records: seq<Option<TaskMessage>>)

  datatype WorkerError =
    | NoRecords
    | MalformedBody
    | ScriptUnavailable(scriptUri: string)
    | SubsetUnreadable(subsetUri: string)
    | AnalysisFailed(message: string)

  /** What one invocation leaves behind: an object written, or an error in the log. */
  datatype WorkerOutcome = Written(key: string) | Logged(error: WorkerError)

  /** The object keys of the worker outputs, by job. */
  type Store = map<string, LocalTable>

  function JobPrefix(jobId: string): string {
    "intermediate/" + jobId + "/"
  }

  /** `write_worker_output_to_s3`'s key. */
  function OutputKey(jobId: string, taskId: string): (key: string)
    ensures StartsWith(key, JobPrefix(jobId))
    ensures key[|JobPrefix(jobId)|..] == taskId + ".csv"
  {
    JobPrefix(jobId) + taskId + ".csv"
  }

  /** What `lambda_handler` computes: the key and the table it writes, or the error it
      logs. Only the first record is read; the script is loaded before the subset is read. */
  function RunTask(event: WorkerEvent, scripts: map<string, Analysis>, subsets: map<string, seq<Row>>)
    : (r: Result<(string, LocalTable), WorkerError>)
    ensures r.Success? <==>
      && |event.records| > 0 && event.records[0].Some?
      && event.records[0].value.scriptUri in scripts
      && event.records[0].value.subsetUri in subsets
      && var m := event.records[0].value;
         LocalSensitivity.LocalSensitivities(subsets[m.subsetUri], m.takeoutStart, m.takeoutEnd, scripts[m.scriptUri]).Success?
    ensures r.Success? ==> var m := event.records[0].value;
      && r.value.0 == OutputKey(m.jobId, m.taskId)
      && r.value.1 == LocalSensitivity.LocalSensitivities(subsets[m.subsetUri], m.takeoutStart, m.takeoutEnd, scripts[m.scriptUri]).value
    ensures |event.records| == 0 ==> r == Failure(NoRecords)
    ensures |event.records| > 0 && event.records[0].None? ==> r == Failure(MalformedBody)
  {
    if |event.records| == 0 then Failure(NoRecords)
    else if event.records[0].None? then Failure(MalformedBody)
    else
      var m := event.records[0].value;
      if m.scriptUri !in scripts then Failure(ScriptUnavailable(m.scriptUri))
      else if m.subsetUri !in subsets then Failure(SubsetUnreadable(m.subsetUri))
      else match LocalSensitivity.LocalSensitivities(subsets[m.subsetUri], m.takeoutStart, m.takeoutEnd, scripts[m.scriptUri])
        case Failure(e) => Failure(AnalysisFailed(e))
        case Success(t) => Success((OutputKey(m.jobId, m.taskId), t))
  }

  /** The worker outputs after one invocation. */
  function StoreAfter(objects: Store, event: WorkerEvent, scripts: map<string, Analysis>, subsets: map<string, seq<Row>>): Store {
    match RunTask(event, scripts, subsets)
    case Success((key, table)) => objects[key := table]
    case Failure(_) => objects
  }

  function OutcomeOf(event: WorkerEvent, scripts: map<string, Analysis>, subsets: map<string, seq<Row>>): WorkerOutcome {
    match RunTask(event, scripts, subsets)
    case Success((key, _)) => Written(key)
    case Failure(e) => Logged(e)
  }

  /** The object store the worker writes to. */
  class OutputStore {
    var objects: Store

    constructor ()
      ensures objects == map[]
    {
      objects := map[];
    }

    /** `write_worker_output_to_s3`: put (or overwrite) one object. */
    method Write(jobId: string, taskId: string, table: LocalTable)
      modifies this
      ensures objects == old(objects)[OutputKey(jobId, taskId) := table]
    {
      objects := objects[OutputKey(jobId, taskId) := table];
    }

    /** `lambda_handler`. */
    method HandleTask(event: WorkerEvent, scripts: map<string, Analysis>, subsets: map<string, seq<Row>>)
      returns (outcome: WorkerOutcome)
      modifies this
      ensures objects == StoreAfter(old(objects), event, scripts, subsets)
      ensures outcome == OutcomeOf(event, scripts, subsets)
    {
      if |event.records| == 0 {
        return Logged(NoRecords);
      }
      if event.records[0].None? {
        return Logged(MalformedBody);
      }
      var body := event.records[0].value;
      if body.scriptUri !in scripts {
        return Logged(ScriptUnavailable(body.scriptUri));
      }
      if body.subsetUri !in subsets {
        return Logged(SubsetUnreadable(body.subsetUri));
      }
      var output := LocalSensitivity.ComputeLocalSensitivities(subsets[body.subsetUri], body.takeoutStart, body.takeoutEnd, scripts[body.scriptUri]);
      if output.Failure? {
        return Logged(AnalysisFailed(output.error));
      }
      Write(body.jobId, body.taskId, output.value);
      outcome := Written(OutputKey(body.jobId, body.taskId));
    }
  }

  // ---------------------------------------------------------------- properties

  /** Within one job, distinct task ids give distinct objects. */
  lemma OutputKeyInjective(jobId: string, t1: string, t2: string)
    requires OutputKey(jobId, t1) == OutputKey(jobId, t2)
    ensures t1 == t2
  {
    var p := JobPrefix(jobId);
    assert OutputKey(jobId, t1)[|p|..] == t1 + ".csv";
    assert (t1 + ".csv")[..|t1|] == t1;
    assert (t2 + ".csv")[..|t2|] == t2;
  }

  /** Job ids carry no `/`, so a job's listing prefix sees only its own outputs. */
  lemma {:induction false} PrefixSeparatesJobs(j1: string, j2: string, taskId: string)
    requires '/' !in j1 && '/' !in j2
    requires StartsWith(OutputKey(j2, taskId), JobPrefix(j1))
    ensures j1 == j2
  {
    var key := OutputKey(j2, taskId);
    var h := "intermediate/";
    assert |h| == 13;
    assert forall i :: 0 <= i < |j1| && i < |j2| ==> j1[i] == key[13 + i] == j2[i];
    assert key[13 + |j2|] == '/';
    assert JobPrefix(j1)[13 + |j1|] == '/';
    if |j1| != |j2| {
      assert false;
    }
  }

  /** Delivering the same message again rewrites the same object with the same table. */
  lemma RedeliveryIsIdempotent(objects: Store, event: WorkerEvent, scripts: map<string, Analysis>, subsets: map<string, seq<Row>>)
    ensures StoreAfter(StoreAfter(objects, event, scripts, subsets), event, scripts, subsets)
         == StoreAfter(objects, event, scripts, subsets)
  {
  }

  /** A failed task writes nothing; a successful one writes its own key and nothing else. */
  lemma OnlyOwnKeyChanges(objects: Store, event: WorkerEvent, scripts: map<string, Analysis>, subsets: map<string, seq<Row>>)
    ensures RunTask(event, scripts, subsets).Failure? ==> StoreAfter(objects, event, scripts, subsets) == objects
    ensures RunTask(event, scripts, subsets).Success? ==>
      var key := RunTask(event, scripts, subsets).value.0;
      var after := StoreAfter(objects, event, scripts, subsets);
      && key in after
      && after.Keys == objects.Keys + {key}
      && forall k :: k in objects && k != key ==> after[k] == objects[k]
  {
  }

  /** Records after the first are never read. */
  lemma OnlyFirstRecordMatters(record: Option<TaskMessage>, rest: seq<Option<TaskMessage>>,
                               scripts: map<string, Analysis>, subsets: map<string, seq<Row>>)
    ensures RunTask(WorkerEvent([record] + rest), scripts, subsets) == RunTask(WorkerEvent([record]), scripts, subsets)
  {
  }
}
