/** The submission metadata the handler aggregates from the notification, and
    the exceptions that end an invocation. */
module Event {
  import opened Wrappers

  /** The handler's `aggregated_info` record: the parsed notification fields,
      plus `gcp_path`, which the handler adds once the storage key is known. */
  datatype SubmissionInfo = SubmissionInfo(
    assignmentName: string,
    assignmentId: string,
    submissionId: string,
    submissionUrl: string,
    submissionUpdated: string,
    firstName: string,
    lastName: string,
    email: string,
    attempts: int,
    gcpPath: Option<string>)

  /** Exceptions nothing in the handler catches: each ends the invocation. */
  datatype Crash =
    | MalformedTimestamp       // `datetime.strptime` rejects `submission_updated`
    | MissingGcpPath           // the success template reads `gcp_path` before it is set
    | UploadSourceMissing      // the staging file to upload does not exist
    | UploadPreconditionFailed // an object already exists under the key (generation match 0)
    | StorageUnavailable       // any other failure of the storage service
}
