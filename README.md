# Submission worker: a Dafny model

The system is a serverless worker that runs once for each assignment-submission notification. It takes the submission metadata and does the following:

1. It derives an object-storage key, `assignment/email/first_last_attempts.zip`, from the metadata.
2. It downloads the submitted archive to a staging file under `/tmp/`. The download passes only if a fixed sequence of checks passes.
3. If the download passed, it uploads the file to a write-once bucket.
4. It emails the submitter a success or failure message.
5. It writes a status record keyed by the submission id.

The model is split into these modules:

- `Text`: string helpers with their laws:
  - substring search;
  - splitting on a character and joining, and splitting across a concatenation;
  - character replacement;
  - Python's `str(int)` together with its inverse.
- `Event`: the aggregated metadata record, and the exceptions that end an invocation.
- `PathBuilder`: `create_path` and the staging-path expression:
  - the slug of one field and its alphabet;
  - which characters the slug holds;
  - the shape of the key, read back on `/`;
  - the file name read back on `_`: the two name slugs and the attempt count;
  - the filter works piecewise, so kept characters keep their order.
- `Fetcher`: `download_file`'s decision, as a function of an abstract HTTP response.
- `Notifier`: `send_email`'s pure part:
  - the subject;
  - the choice of plain-text template and what each body carries;
  - the exceptions raised before sending;
  - the result triple.
- `Pipeline`: the imperative part. It is a class `Services` with these fields:
  - the local disk;
  - the object store;
  - the log of upload calls;
  - the outbox of sent mail;
  - the status table.

  Its methods are `download_file`, `upload_blob`, `send_email`, `insert_email_status` and `lambda_handler`. Each method states its whole new state, and the handler's contract connects the outcomes to the pure functions above.

Four behaviours of the code are worth noting, because a reader might expect otherwise:

- **Email slug.** The filter on `main.py:22` deletes every character outside `[a-zA-Z0-9\s]`, so `@` and `.` vanish and are not turned into `_`: the email `a@b.com` slugs to `abcom`. `PathBuilder.SlugContents` states that a slug contains `_` exactly when the field contains a space.
- **Upload failures.** The call to `upload_blob` on `main.py:250` is not guarded by any `try`. An existing object under the key or a storage fault therefore ends the invocation, with no email and no status record.
- **The record's error.** The status record written on `main.py:259-260` holds the triple `send_email` returned, not the submission's outcome:
  - its status is `Email Sent Successfully` or `Mail delivery Failed`;
  - its error is absent whenever the mail went out, even when the download failed;
  - the download's failure reason appears only inside the stored body text.
- **Failure-body timestamp.** The plain-text failure body on `main.py:125` shows the raw `submission_updated` timestamp, not the formatted date.

The `Text` lemmas about `Split` and `Join` (`SplitParts`, `JoinSplit`, `SplitConcat` and the lemmas they rest on) are helpers. The source never splits a string. They are the vocabulary in which the shape of the key is stated and read back.

## Model

| member | source | states |
|---|---|---|
| Text.Contains | main.py:61 | Python's `t in s` holds exactly when `t` occurs in `s` at some index |
| Text.ReplaceChar | main.py:21-24 | `str.replace` of one character keeps the length, and changes exactly the positions holding the target |
| Text.IntToString | main.py:27 | `str(n)` is non-empty, made of digits and `-`, starts with `-` exactly when `n` is negative, and its numeral has no leading zero, so with `IntRoundTrip` it is the canonical decimal form |
| Text.IntRoundTrip | main.py:27 | `int(str(n)) == n` for every integer `n` |
| PathBuilder.StripSpecial | main.py:21-24 | the `[^a-zA-Z0-9\s]` filter never lengthens its input |
| PathBuilder.StripSpecialMembers | main.py:21-24 | the filter keeps a character exactly when it occurs in the input and is an ASCII letter, a digit or whitespace |
| PathBuilder.StripSpecialChar | main.py:21-24 | the filter keeps one character exactly when it is in `[a-zA-Z0-9\s]` |
| PathBuilder.StripSpecialConcat | main.py:21-24 | the filter of a concatenation is the concatenation of the filters, so kept characters keep their order and their counts |
| PathBuilder.StripSpecialKeepsClean | main.py:21-24 | the filter leaves a string made only of kept characters unchanged |
| PathBuilder.LowerAscii | main.py:21-24 | `lower()` keeps the length and maps each position through the ASCII lower-casing |
| PathBuilder.Slug | main.py:21-24 | a slug is as long as the filtered field, and every character of it is a lower-case ASCII letter, a digit, `_`, or whitespace other than the space |
| PathBuilder.SlugContents | main.py:21-24 | a slug contains a lower-case letter exactly when the field has it in either case, a digit or non-space whitespace exactly when the field has it, and `_` exactly when the field has a space |
| PathBuilder.FileName | main.py:27 | the file segment contains no `/` and ends in `.zip` |
| PathBuilder.FileNameReadBack | main.py:27 | split on `_`, the file name before `.zip` ends with the part `str(attempts)`, and the parts before it join back to `first_last`, so the segment is exactly `first_last_attempts.zip` |
| PathBuilder.CreatePath | main.py:12-29 | split on `/`, the key gives exactly the assignment slug, the email slug and `first_last_attempts.zip`; it holds exactly two `/` and ends in `.zip` |
| PathBuilder.CreatePathReadsIdentityOnly | main.py:14-18 | two records that agree on the assignment name, email, first and last name and attempts get the same key |
| PathBuilder.StagingPath | main.py:242 | the staging path starts with `/tmp/`, has no `/` after that prefix, and is 5 characters longer than the key |
| PathBuilder.StagingPathOfKey | main.py:242 | the staging path of a key is `/tmp/` followed by the key's three segments joined with `_` |
| Fetcher.Verdict | main.py:47-71 | the download succeeds exactly when there is no request error, no zero or malformed Content-Length, a non-empty body and an accepted Content-Type; being successful is the same as having no reason; each earlier check's reason wins over every later check |
| Fetcher.NetworkErrorIgnoresResponse | main.py:49-69 | a request or status error gives the same verdict whatever the headers and body |
| Fetcher.MissingContentTypeRejected | main.py:60-62 | a missing Content-Type counts as the empty string: a response with no request error, no zero or malformed Content-Length and a non-empty body is then rejected as not downloadable |
| Fetcher.HtmlRejected | main.py:60-62 | a `text/html` body that passes the earlier checks is rejected as not downloadable |
| Fetcher.ZipAccepted | main.py:60-67 | an `application/zip` body that passes the earlier checks is accepted with no reason |
| Notifier.Subject | main.py:81 | the subject is `Submission Status for ` followed by the assignment name, and nothing else |
| Notifier.SubjectNamesAssignment | main.py:81 | two submissions get the same subject exactly when their assignment names agree |
| Notifier.SuccessText | main.py:91-101 | the success body starts with the greeting and `Congratulations!`, and contains the storage path |
| Notifier.FailureText | main.py:119-129 | the failure body starts with the greeting and `We regret`, and contains the failure reason |
| Notifier.TemplatesDiffer | main.py:90-129 | for one submission record, the success body never equals the failure body, whatever the date, path and reason |
| Notifier.ShapeOutcome | main.py:194-202 | the body text is returned on every branch; the error is absent exactly when delivery succeeded, and is otherwise the service's message after `Email failed to send: `; the status is `Email Sent Successfully` exactly on delivery and `Mail delivery Failed` otherwise |
| Notifier.RenderBody | main.py:90-129 | the success template is used exactly when the status is `success`, and then it raises when `gcp_path` is missing; a success body contains the path, and a failure body contains the rendered error message |
| Notifier.SendResult | main.py:73-202 | a malformed timestamp raises before anything else; otherwise the call raises only for a missing `gcp_path`; on return the error is absent exactly when delivery succeeded and is otherwise `Email failed to send: ` followed by the service's message, the delivery status follows the service's answer, and the body text is the rendered template |
| Pipeline.SubmissionStatus | main.py:247-255 | the status is `success` exactly when the download passed and `fail` otherwise; the error is absent exactly on success, and on failure it is the failure reason |
| Pipeline.Aggregated | main.py:243 | the record passed on has `gcp_path` set to the storage key, every other field unchanged, and still yields the same key |
| Pipeline.SubmissionStatusOfVerdict | main.py:247-255 | the handler's status is `success` exactly when the download passed, then with no error; otherwise it is `fail` with the download's reason |
| Pipeline.FailureReasonInBodyText | main.py:253-259 | after a failed download with a parseable timestamp, `send_email` returns, and the plain-text body it returns contains the download's failure reason |
| Pipeline.SuccessBodyTextNamesKey | main.py:243-259 | after a successful download with a parseable timestamp, the plain-text body `send_email` returns comes from the success template and contains the storage key |
| Pipeline.RecordedErrorIsDeliveryError | main.py:259-260 | the error the handler records is absent exactly when the email was delivered, and the recorded status is one of the two delivery statuses |
| Pipeline.Services.DownloadFile | main.py:47-71 | returns the verdict of the response; writes the body to the destination on success and leaves every other piece of state unchanged |
| Pipeline.Services.UploadBlob | main.py:31-44 | logs the call; fails when the source file is missing, when an object already exists under the key (generation match 0), or on a service fault, leaving the store unchanged; otherwise it stores the file's contents under the key |
| Pipeline.Services.SendEmail | main.py:73-202 | returns the result `SendResult` specifies, and puts one message to the submitter with the subject `Submission Status for <assignment>` in the outbox exactly when the call returns |
| Pipeline.Services.InsertEmailStatus | main.py:204-217 | upserts, under the submission id, the record holding the body text, the record's email, the attempts, and the status and error given |
| Pipeline.Services.LambdaHandler | main.py:239-264 | uploads from the staging path to the key exactly once if the download passed, and never otherwise; an upload that raises ends the invocation with no mail and no record; otherwise it mails `success` with no error or `fail` with the reason, from the metadata with `gcp_path` set to the key, and records the triple `send_email` returned, returning 200 |

## Left out

- The HTTP request itself is not modelled. The handler's URL is replaced by an abstract response:
  - a flag for a request error or an HTTP error status;
  - the Content-Length header, when present;
  - the body;
  - the Content-Type header, when present.
- A Content-Length value that `int()` rejects is modelled as a header carrying the `ValueError` message, which becomes the reason. The wording of that message is Python's and is left as data.
- The storage client is not modelled. It becomes a map from (bucket, key) to contents and a fault flag. Client construction and credentials are not modelled.
- The email client is not modelled. It becomes an outbox of (recipient, sender, subject) and an answer that is a message id, a client error message or another exception's text.
- The HTML body, which is the only body actually mailed, is not modelled. The plain-text body is never mailed (its part of the message is commented out): it is the body `send_email` returns and the status record stores. For the plain-text bodies, only the opening and the embedded path or reason are stated as properties.
- The status table is a map. A failure of `put_item` is not modelled, and neither is the table name setting.
- The sender address, read from the environment, is a constant field of `Services`.
- Decoding the notification's JSON is not modelled. The model starts from the parsed metadata record, so a missing field in the notification is not modelled.
- Date parsing and formatting are an abstract function passed in with each invocation. If it has no value, that is the `strptime` failure, which raises before any mail is sent.
- Writing the staging file cannot fail in the model: an `OSError` from `open` is not modelled.
- Logging output is not modelled.
- Concurrency between invocations is not modelled.
- Ids, the URL and the timestamp are plain strings. The attempt count is an unbounded integer.
- Python's `lower()` is modelled only on the characters that survive the filter: ASCII letters, digits and whitespace. On these it changes only ASCII upper-case letters.
- `\s` is the set of characters for which `str.isspace()` holds.
- `upload_blob` reports its error as a value, which the handler turns into an ended invocation. Its success log line is not modelled.
