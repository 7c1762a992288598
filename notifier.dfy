/** The pure part of `send_email`: choosing the template by status, rendering
    the plain-text body, and shaping the `(status, error, body_text)` triple
    from what the email service answered. Sending is done by the pipeline's
    services; the answer is an input here. */
module Notifier {
  import opened Wrappers
  import opened Text
  import opened Event

  /** What the email service's `send_email` call ended with. */
  datatype Delivery =
    | Delivered(messageId: string)  // the call returned a message id
    | ClientError(message: string)  // a `ClientError`, with the service's error message
    | OtherError(text: string)      // any other exception, as `str(e)`

  /** The triple `send_email` returns. */
  datatype EmailOutcome = EmailOutcome(deliveryStatus: string, error: Option<string>, bodyText: string)

  const MAIL_SENT := "Email Sent Successfully"
  const MAIL_FAILED := "Mail delivery Failed"
  const SEND_ERROR_PREFIX := "Email failed to send: "
  const SUBJECT_LEAD := "Submission Status for "

  /** The date formatting of `strptime`/`strftime`, left abstract: `None` when the timestamp does not parse. */
  type TimestampFormat = string -> Option<string>

  /** The subject line: the fixed lead followed by the assignment name, and nothing else. */
  function Subject(info: SubmissionInfo): (subject: string)
    ensures StartsWith(subject, SUBJECT_LEAD) && EndsWith(subject, info.assignmentName)
    ensures |subject| == |SUBJECT_LEAD| + |info.assignmentName|
  {
    StartsWithConcat(SUBJECT_LEAD, info.assignmentName);
    assert (SUBJECT_LEAD + info.assignmentName)[|SUBJECT_LEAD|..] == info.assignmentName;
    SUBJECT_LEAD + info.assignmentName
  }

  /** Two submissions get the same subject exactly when their assignment names agree. */
  lemma SubjectNamesAssignment(x: SubmissionInfo, y: SubmissionInfo)
    ensures Subject(x) == Subject(y) <==> x.assignmentName == y.assignmentName
  {
    if Subject(x) == Subject(y) {
      assert Subject(x)[|SUBJECT_LEAD|..] == x.assignmentName;
      assert Subject(y)[|SUBJECT_LEAD|..] == y.assignmentName;
    }
  }

  /** How an f-string renders an optional string: `None` becomes the text `None`. */
  function Render(o: Option<string>): string {
    match o
    case Some(s) => s
    case None => "None"
  }

  /** The fixed wording of the plain-text templates. */
  const SUCCESS_INTRO := " Your submission for the '"
  const SUCCESS_RESULT := "' assignment has been successful.\r\nHere are the details of your submission:\r\nSubmitted URL: "
  const GCP_PATH_LABEL := "\r\nGCP Path: "
  const FAILURE_INTRO := " to inform you that your submission for the '"
  const FAILURE_RESULT := "' assignment has failed due to the following reason:\r\n"
  const RETRY_NOTE := "\r\nPlease review your submission and try again.\r\nHere are the details of your submission:"
  const DATE_LABEL := "\r\nSubmission Updated Date: "
  const ATTEMPTS_LABEL := "\r\nAttempts used: "
  const SIGNATURE := "\r\n\nBest Of Luck!\nCSYE6225 Team"

  /** The first line of both templates. */
  function Greeting(info: SubmissionInfo): string {
    "Hi " + info.firstName + " " + info.lastName + ",\r\n"
  }

  /** The plain-text success body: it names the submitted URL, the storage path,
      the formatted submission time and the attempt count. */
  function SuccessText(info: SubmissionInfo, friendly: string, gcpPath: string): (body: string)
    ensures StartsWith(body, Greeting(info) + "Congratulations!")
    ensures Contains(body, gcpPath)
  {
    var opening := Greeting(info) + "Congratulations!";
    var lead := SUCCESS_INTRO + info.assignmentName + SUCCESS_RESULT + info.submissionUrl + GCP_PATH_LABEL;
    var after := DATE_LABEL + friendly + ATTEMPTS_LABEL + IntToString(info.attempts) + SIGNATURE;
    ContainsMiddle(opening + lead, gcpPath, after);
    StartsWithConcat(opening, lead);
    StartsWithExtend(opening + lead, opening, gcpPath);
    StartsWithExtend(opening + lead + gcpPath, opening, after);
    opening + lead + gcpPath + after
  }

  /** The plain-text failure body: it carries the failure reason, the raw
      submission timestamp (not the formatted one) and the attempt count. */
  function FailureText(info: SubmissionInfo, reason: string): (body: string)
    ensures StartsWith(body, Greeting(info) + "We regret")
    ensures Contains(body, reason)
  {
    var opening := Greeting(info) + "We regret";
    var lead := FAILURE_INTRO + info.assignmentName + FAILURE_RESULT;
    var after := RETRY_NOTE + DATE_LABEL + info.submissionUpdated + ATTEMPTS_LABEL + IntToString(info.attempts) + SIGNATURE;
    ContainsMiddle(opening + lead, reason, after);
    StartsWithConcat(opening, lead);
    StartsWithExtend(opening + lead, opening, reason);
    StartsWithExtend(opening + lead + reason, opening, after);
    opening + lead + reason + after
  }

  /** For one submission record, the success body never equals the failure body,
      whatever the date, path and reason. */
  lemma TemplatesDiffer(info: SubmissionInfo, friendly: string, gcpPath: string, reason: string)
    ensures SuccessText(info, friendly, gcpPath) != FailureText(info, reason)
  {
    var g := Greeting(info);
    var s, f := SuccessText(info, friendly, gcpPath), FailureText(info, reason);
    assert s[..|g| + 16] == g + "Congratulations!";
    assert f[..|g| + 9] == g + "We regret";
    assert s[|g|] == (g + "Congratulations!")[|g|] == 'C';
    assert f[|g|] == (g + "We regret")[|g|] == 'W';
  }

  /** The message an email-service failure is reported with. */
  function DeliveryError(delivery: Delivery): string
    requires !delivery.Delivered?
  {
    match delivery
    case ClientError(message) => SEND_ERROR_PREFIX + message
    case OtherError(text) => SEND_ERROR_PREFIX + text
  }

  /** The triple returned once the body is rendered: the body is returned on every
      branch, and the error is absent exactly when the email went out. */
  function ShapeOutcome(delivery: Delivery, body: string): (o: EmailOutcome)
    ensures o.bodyText == body
    ensures o.error == None <==> delivery.Delivered?
    ensures o.deliveryStatus == MAIL_SENT <==> delivery.Delivered?
    ensures o.deliveryStatus == MAIL_FAILED <==> !delivery.Delivered?
    ensures !delivery.Delivered? ==> o.error == Some(DeliveryError(delivery))
  {
    match delivery
    case Delivered(_) => EmailOutcome(MAIL_SENT, None, body)
    case ClientError(message) => EmailOutcome(MAIL_FAILED, Some(SEND_ERROR_PREFIX + message), body)
    case OtherError(text) => EmailOutcome(MAIL_FAILED, Some(SEND_ERROR_PREFIX + text), body)
  }

  /** The plain-text body `send_email` renders once the timestamp is formatted:
      the success template exactly when the status is `success`, and then only
      if `gcp_path` is present. */
  function RenderBody(info: SubmissionInfo, status: string, errorMessage: Option<string>, friendly: string)
    : (r: Result<string, Crash>)
    ensures r.Failure? <==> status == "success" && info.gcpPath.None?
    ensures r.Failure? ==> r.error == MissingGcpPath
    ensures r.Success? && status == "success" ==>
      StartsWith(r.value, Greeting(info) + "Congratulations!") && Contains(r.value, info.gcpPath.value)
    ensures r.Success? && status != "success" ==>
      StartsWith(r.value, Greeting(info) + "We regret") && Contains(r.value, Render(errorMessage))
  {
    if status == "success" then
      match info.gcpPath
      case None => Failure(MissingGcpPath)
      case Some(gcpPath) => Success(SuccessText(info, friendly, gcpPath))
    else
      Success(FailureText(info, Render(errorMessage)))
  }

  /** What `send_email` returns or raises. The timestamp is parsed first, so a
      malformed one raises before anything else; the body is rendered next,
      and the triple follows the email service's answer. */
  function SendResult(info: SubmissionInfo, status: string, errorMessage: Option<string>,
                      format: TimestampFormat, delivery: Delivery): (r: Result<EmailOutcome, Crash>)
    ensures format(info.submissionUpdated).None? ==> r == Failure(MalformedTimestamp)
    ensures r.Failure? <==> format(info.submissionUpdated).None? || (status == "success" && info.gcpPath.None?)
    ensures r.Failure? && format(info.submissionUpdated).Some? ==> r.error == MissingGcpPath
    ensures r.Success? ==> (r.value.error == None <==> delivery.Delivered?)
    ensures r.Success? && !delivery.Delivered? ==> r.value.error == Some(DeliveryError(delivery))
    ensures r.Success? ==> r.value.deliveryStatus == if delivery.Delivered? then MAIL_SENT else MAIL_FAILED
    ensures r.Success? ==>
      r.value.bodyText == RenderBody(info, status, errorMessage, format(info.submissionUpdated).value).value
  {
    match format(info.submissionUpdated)
    case None => Failure(MalformedTimestamp)
    case Some(friendly) =>
      match RenderBody(info, status, errorMessage, friendly)
      case Failure(e) => Failure(e)
      case Success(body) => Success(ShapeOutcome(delivery, body))
  }
}
