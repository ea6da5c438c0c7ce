/** The failure handler of functions/error.py: classify the error the state machine
    caught and report the job as failed, then email the analyst. */
module ErrorHandler {
  import opened Wrappers
  import opened Tables

  /** The message for a failure inside the analyst's own program; it gives no detail so
      that nothing about the confidential data leaks. The leading newline, the trailing
      blanks after the first two sentences and the indentation are those of the source's
      triple-quoted literal. */
  const PrivacyMessage: string :=
    "\n                There was an error in your program. \n                For privacy reasons, we cannot provide additional information. \n                Please revise your program and resubmit.\n                "

  const UnexpectedMessage: string := "Encountered unexpected error."

  /** The record `lambda_handler` sends for a given error type. */
  function FailureStatus(errorType: Json): (s: StatusRecord)
    ensures !s.ok && s.info == "failed"
    ensures s.errormsg == Some(if errorType == JStr("RRuntimeError") then PrivacyMessage else UnexpectedMessage)
  {
    if errorType == JStr("RRuntimeError") then StatusRecord(false, "failed", Some(PrivacyMessage))
    else StatusRecord(false, "failed", Some(UnexpectedMessage))
  }

  datatype HandlerError = MissingError

  /** `lambda_handler`: the calls it makes, in order. An event without `error.Error`
      raises before any call. */
  function HandleFailure(event: Payload): (r: Result<seq<Effect>, HandlerError>)
    ensures r.Success? <==> "error" in event && event["error"].JObject? && "Error" in event["error"].fields
    ensures r.Success? ==> r.value == [UpdateJobStatus(FailureStatus(event["error"].fields["Error"])),
                                       SendEmail("Validation Server Job Status", "There was an error processing your submission.")]
  {
    if "error" !in event || !event["error"].JObject? || "Error" !in event["error"].fields then Failure(MissingError)
    else
      var status := FailureStatus(event["error"].fields["Error"]);
      Success([UpdateJobStatus(status), SendEmail("Validation Server Job Status", "There was an error processing your submission.")])
  }

  /** The report never depends on anything but the error type: the `Cause` and every other
      field of the caught error are dropped, so two R errors with different causes are
      reported identically. */
  lemma ReportHidesErrorDetail(e1: Payload, e2: Payload)
    requires HandleFailure(e1).Success? && HandleFailure(e2).Success?
    requires e1["error"].fields["Error"] == e2["error"].fields["Error"]
    ensures HandleFailure(e1) == HandleFailure(e2)
  {
  }
}
