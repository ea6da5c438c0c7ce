/** The data model shared by the stages: rows of the confidential data, the keyed
    tables the analysis routine produces, the task message, and the loosely typed
    JSON payloads the step-function states pass to each other. */
module Tables {
  import opened Wrappers
  import opened Text

  /** One CSV record of the confidential data. Its content is opaque to the core. */
  type Row = seq<string>

  /** The identifying columns of one statistic. `analysis_name`, `analysis_type`
      and `statistic` are read by name later in the pipeline; any further identifying
      columns are kept as `other`. */
  datatype StatKey = StatKey(analysisName: string, analysisType: string, statistic: string, other: seq<string>)

  /** The mandatory `value` and `n` columns of the analysis output; `None` is R's `NA`. */
  datatype Estimate = Estimate(value: Option<real>, n: Option<real>)

  /** The output of the analysis routine: one row per statistic, keyed by its identity. */
  type EstimateTable = map<StatKey, Estimate>

  /** The analyst's `run_analysis`: an arbitrary routine from rows to a keyed table,
      which may raise (an R runtime error). */
  type Analysis = seq<Row> -> Result<EstimateTable, string>

  /** One row of a worker's partial result: `n` of the full subset and the local sensitivity `ls`. */
  datatype LocalStat = LocalStat(n: Option<real>, ls: Option<real>)

  type LocalTable = map<StatKey, LocalStat>

  /** The body of one task message on the queue. */
  datatype TaskMessage = TaskMessage(
    jobId: string,
    taskId: string,
    subsetUri: string,
    scriptUri: string,
    takeoutStart: nat,
    takeoutEnd: nat)

  /** A JSON value of a step-function payload. */
  datatype Json =
    | JNull
    | JBool(b: bool)
    | JInt(i: int)
    | JReal(r: real)
    | JStr(s: string)
    | JArray(items: seq<Json>)
    | JObject(fields: map<string, Json>)

  /** What an f-string such as `f"intermediate/{job_id}/"` makes of a field: Python's
      `str` of a string, an integer, a boolean or `null`. Floats and containers are not
      rendered by the model. */
  function JsonText(j: Json): (t: Option<string>)
    ensures j.JStr? ==> t == Some(j.s)
    ensures j.JInt? ==> t == Some(IntToString(j.i))
    ensures t.None? <==> j.JReal? || j.JArray? || j.JObject?
  {
    match j
    case JStr(s) => Some(s)
    case JInt(i) => Some(IntToString(i))
    case JBool(b) => Some(if b then "True" else "False")
    case JNull => Some("None")
    case _ => None
  }

  /** Integer job ids, as the step-function triggers send them, name different jobs
      exactly when they differ. */
  lemma IntJobIdsAreDistinct(a: int, b: int)
    requires JsonText(JInt(a)) == JsonText(JInt(b))
    ensures a == b
  {
    IntToStringInjective(a, b);
  }

  /** A step-function event: a JSON object. */
  type Payload = map<string, Json>

  /** The `result` record a stage reports to the job-status API. */
  datatype StatusRecord = StatusRecord(ok: bool, info: string, errormsg: Option<string>)

  /** The calls a stage makes to the outside world, in order. */
  datatype Effect =
    | UpdateJobStatus(status: StatusRecord)
    | UpdateRunStatus(status: StatusRecord)
    | SendEmail(subject: string, body: string)
}
