/** `lambda_handler` and the side-effecting calls it sequences: the download to
    the staging file, the write-once upload, the email and the status record.
    The outside services are state of one object, and their answers for one
    invocation are an input. */
module Pipeline {
  import opened Wrappers
  import opened Text
  import opened Event
  import opened PathBuilder
  import opened Fetcher
  import opened Notifier

  /** The bucket the handler uploads to. */
  const BUCKET := "makjets_demo"

  /** The status code of the handler's normal return. */
  const OK_STATUS := 200

  datatype ObjectId = ObjectId(bucket: string, key: string)

  /** One call of `upload_blob`. */
  datatype UploadCall = UploadCall(bucket: string, source: string, destination: string)

  /** One message handed to the email service. */
  datatype Mail = Mail(recipient: string, sender: string, subject: string)

  /** The item `insert_email_status` writes, keyed by submission id. */
  datatype StatusRecord = StatusRecord(
    id: string,
    bodyText: string,
    recipient: string,
    attempts: int,
    status: string,
    errorMessage: Option<string>)

  /** The answers the outside world gives one invocation: the HTTP response for
      the submission URL, whether the storage service fails for another reason
      than the write-once precondition, the date formatting, and the email
      service's answer. */
  datatype World = World(response: Response, storageFault: bool, format: TimestampFormat, delivery: Delivery)

  /** The submission status the handler derives from a download verdict. */
  function SubmissionStatus(verdict: (bool, Option<string>)): (st: (string, Option<string>))
    ensures st.0 == "success" <==> verdict.0
    ensures st.0 == "fail" <==> !verdict.0
    ensures st.1 == None <==> verdict.0
    ensures !verdict.0 && verdict.1.Some? ==> st.1 == verdict.1
  {
    if verdict.0 then ("success", None) else ("fail", Some(Render(verdict.1)))
  }

  /** A failed download is reported as `fail` with its reason; a successful one as `success` with no error. */
  lemma SubmissionStatusOfVerdict(r: Response)
    ensures var (status, error) := SubmissionStatus(Verdict(r));
      (status == "success" <==> Verdict(r).0)
      && (Verdict(r).0 ==> error == None)
      && (!Verdict(r).0 ==> status == "fail" && error == Verdict(r).1 && error.Some?)
  {
  }

  /** The record the handler hands to `send_email`: the metadata with `gcp_path` set to the key. */
  function Aggregated(info: SubmissionInfo): (agg: SubmissionInfo)
    ensures agg.gcpPath == Some(CreatePath(info))
    ensures agg.(gcpPath := info.gcpPath) == info
    ensures CreatePath(agg) == CreatePath(info)
  {
    var agg := info.(gcpPath := Some(CreatePath(info)));
    CreatePathReadsIdentityOnly(agg, info);
    agg
  }

  /** When the download fails and the timestamp parses, `send_email` returns, and
      the plain-text body it returns (the one the status record stores) carries
      the download's failure reason, whatever the email service answers. */
  lemma FailureReasonInBodyText(info: SubmissionInfo, world: World)
    requires !Verdict(world.response).0 && world.format(info.submissionUpdated).Some?
    ensures var (status, error) := SubmissionStatus(Verdict(world.response));
      var sent := SendResult(Aggregated(info), status, error, world.format, world.delivery);
      sent.Success? && Contains(sent.value.bodyText, Verdict(world.response).1.value)
  {
  }

  /** When the download succeeds and the timestamp parses, the plain-text body
      `send_email` returns comes from the success template and names the storage key. */
  lemma SuccessBodyTextNamesKey(info: SubmissionInfo, world: World)
    requires Verdict(world.response).0 && world.format(info.submissionUpdated).Some?
    ensures var (status, error) := SubmissionStatus(Verdict(world.response));
      var sent := SendResult(Aggregated(info), status, error, world.format, world.delivery);
      sent.Success? && Contains(sent.value.bodyText, CreatePath(info))
      && StartsWith(sent.value.bodyText, Greeting(info) + "Congratulations!")
  {
  }

  /** The status record keeps the email's outcome, not the submission's: its error
      is absent exactly when the email went out, even when the download failed. */
  lemma RecordedErrorIsDeliveryError(info: SubmissionInfo, world: World)
    requires world.format(info.submissionUpdated).Some?
    ensures var (status, error) := SubmissionStatus(Verdict(world.response));
      var sent := SendResult(Aggregated(info), status, error, world.format, world.delivery);
      sent.Success? && (sent.value.error == None <==> world.delivery.Delivered?)
      && sent.value.deliveryStatus in {MAIL_SENT, MAIL_FAILED}
  {
  }

  class Services {
    /** The sender address of outgoing email (the `SENDER_EMAIL` setting). */
    const sender: string
    /** The local file system: staging path to contents. */
    var disk: map<string, seq<byte>>
    /** The object store. */
    var objects: map<ObjectId, seq<byte>>
    /** Every `upload_blob` call, in order. */
    var uploads: seq<UploadCall>
    /** Every message handed to the email service, in order. */
    var outbox: seq<Mail>
    /** The status table, keyed by submission id. */
    var table: map<string, StatusRecord>

    constructor (sender: string, disk: map<string, seq<byte>>, objects: map<ObjectId, seq<byte>>,
                 table: map<string, StatusRecord>)
      ensures this.sender == sender && this.disk == disk && this.objects == objects && this.table == table
      ensures uploads == [] && outbox == []
    {
      this.sender := sender;
      this.disk := disk;
      this.objects := objects;
      this.table := table;
      uploads := [];
      outbox := [];
    }

    /** `download_file`: the checks in order; the body is written to `destination` only when all pass. */
    method DownloadFile(response: Response, destination: string) returns (success: bool, reason: Option<string>)
      modifies this
      ensures (success, reason) == Verdict(response)
      ensures disk == if success then old(disk)[destination := response.content] else old(disk)
      ensures objects == old(objects) && uploads == old(uploads) && outbox == old(outbox) && table == old(table)
    {
      if response.networkError {
        return false, Some(NETWORK_FAILURE);
      }
      if response.contentLength.Some? {
        match response.contentLength.value
        case Malformed(message) =>
          return false, Some(message);
        case Numeric(n) =>
          if n == 0 {
            return false, Some(ZERO_BYTE_PAYLOAD);
          }
      }
      if |response.content| == 0 {
        return false, Some(NO_CONTENT);
      }
      var contentType := response.contentType.GetOr("");
      if !Contains(contentType, "application") && !Contains(contentType, "zip") {
        return false, Some(NOT_DOWNLOADABLE);
      }
      disk := disk[destination := response.content];
      return true, None;
    }

    /** `upload_blob` with generation-match 0: the object is created only when the
        key is free; a missing source file, an existing object or a service fault
        raises instead, and the store is left as it was. */
    method UploadBlob(bucketName: string, source: string, destination: string, fault: bool)
      returns (err: Option<Crash>)
      modifies this
      ensures uploads == old(uploads) + [UploadCall(bucketName, source, destination)]
      ensures var id := ObjectId(bucketName, destination);
        err == if source !in disk then Some(UploadSourceMissing)
               else if id in old(objects) then Some(UploadPreconditionFailed)
               else if fault then Some(StorageUnavailable)
               else None
      ensures objects == if err == None then old(objects)[ObjectId(bucketName, destination) := disk[source]] else old(objects)
      ensures disk == old(disk) && outbox == old(outbox) && table == old(table)
    {
      uploads := uploads + [UploadCall(bucketName, source, destination)];
      var id := ObjectId(bucketName, destination);
      if source !in disk {
        return Some(UploadSourceMissing);
      }
      if id in objects {
        return Some(UploadPreconditionFailed);
      }
      if fault {
        return Some(StorageUnavailable);
      }
      objects := objects[id := disk[source]];
      return None;
    }

    /** `send_email`: once the body is rendered, the message goes to the email
        service; the result is the triple for the service's answer. */
    method SendEmail(email: string, info: SubmissionInfo, status: string, errorMessage: Option<string>,
                     format: TimestampFormat, delivery: Delivery)
      returns (r: Result<EmailOutcome, Crash>)
      modifies this
      ensures r == SendResult(info, status, errorMessage, format, delivery)
      ensures outbox == if r.Success? then old(outbox) + [Mail(email, sender, Subject(info))] else old(outbox)
      ensures disk == old(disk) && objects == old(objects) && uploads == old(uploads) && table == old(table)
    {
      r := SendResult(info, status, errorMessage, format, delivery);
      if r.Success? {
        outbox := outbox + [Mail(email, sender, Subject(info))];
      }
    }

    /** `insert_email_status`: upsert the record of this submission. The recipient
        stored is the record's email; the `email` argument is not used. */
    method InsertEmailStatus(email: string, info: SubmissionInfo, status: string, errorMessage: Option<string>,
                             bodyText: string)
      modifies this
      ensures table == old(table)[info.submissionId :=
        StatusRecord(info.submissionId, bodyText, info.email, info.attempts, status, errorMessage)]
      ensures disk == old(disk) && objects == old(objects) && uploads == old(uploads) && outbox == old(outbox)
    {
      table := table[info.submissionId :=
        StatusRecord(info.submissionId, bodyText, info.email, info.attempts, status, errorMessage)];
    }

    /** `lambda_handler`, from the parsed metadata on. The download is stored under
        the key exactly when it passed the checks, the key was free and the
        storage service did not fail; `upload_blob` is called, once, with the
        staging path and the key, exactly when the download passed the checks. An upload that
        raises ends the invocation before any email. Otherwise the email reports
        `success` or `fail` with the download's reason, and the status record gets
        the triple `send_email` returned. */
    method LambdaHandler(info: SubmissionInfo, world: World) returns (r: Result<int, Crash>)
      modifies this
      ensures Verdict(world.response).0 ==>
        var key := CreatePath(info);
        uploads == old(uploads) + [UploadCall(BUCKET, StagingPath(key), key)]
        && disk == old(disk)[StagingPath(key) := world.response.content]
      ensures !Verdict(world.response).0 ==> uploads == old(uploads) && disk == old(disk) && objects == old(objects)
      ensures Verdict(world.response).0 && ObjectId(BUCKET, CreatePath(info)) in old(objects) ==>
        r == Failure(UploadPreconditionFailed) && objects == old(objects) && outbox == old(outbox) && table == old(table)
      ensures Verdict(world.response).0 && ObjectId(BUCKET, CreatePath(info)) !in old(objects) && world.storageFault ==>
        r == Failure(StorageUnavailable) && objects == old(objects) && outbox == old(outbox) && table == old(table)
      ensures Verdict(world.response).0 && ObjectId(BUCKET, CreatePath(info)) !in old(objects) && !world.storageFault ==>
        objects == old(objects)[ObjectId(BUCKET, CreatePath(info)) := world.response.content]
      ensures !Verdict(world.response).0 || (ObjectId(BUCKET, CreatePath(info)) !in old(objects) && !world.storageFault) ==>
        var key := CreatePath(info);
        var (status, error) := SubmissionStatus(Verdict(world.response));
        var sent := SendResult(Aggregated(info), status, error, world.format, world.delivery);
        (sent.Failure? ==> r == Failure(sent.error) && outbox == old(outbox) && table == old(table))
        && (sent.Success? ==>
              r == Success(OK_STATUS)
              && outbox == old(outbox) + [Mail(info.email, sender, Subject(info))]
              && table == old(table)[info.submissionId := StatusRecord(info.submissionId, sent.value.bodyText,
                   info.email, info.attempts, sent.value.deliveryStatus, sent.value.error)])
    {
      var destination := CreatePath(info);
      var tmpPath := StagingPath(destination);
      var aggregated := Aggregated(info);
      var success, failureReason := DownloadFile(world.response, tmpPath);
      var status, errorMessage;
      if success {
        status, errorMessage := "success", None;
        var err := UploadBlob(BUCKET, tmpPath, destination, world.storageFault);
        if err.Some? {
          return Failure(err.value);
        }
      } else {
        status, errorMessage := "fail", Some(Render(failureReason));
      }
      var sent := SendEmail(aggregated.email, aggregated, status, errorMessage, world.format, world.delivery);
      if sent.Failure? {
        return Failure(sent.error);
      }
      InsertEmailStatus(aggregated.email, aggregated, sent.value.deliveryStatus, sent.value.error, sent.value.bodyText);
      return Success(OK_STATUS);
    }
  }
}
