/** The checks `download_file` applies to an HTTP response before it writes
    the body to the staging file. The request itself is not modelled: the
    response (or the failure to get one) is an input. */
module Fetcher {
  import opened Wrappers
  import opened Text

  newtype byte = x: int | 0 <= x < 256

  /** The `Content-Length` header as `int(...)` sees it: a number, or text it
      rejects with a `ValueError` whose message is kept. */
  datatype LengthHeader = Numeric(value: int) | Malformed(message: string)

  /** What `requests.get(url)` produced. `networkError` covers every
      `RequestException`, including the `HTTPError` of `raise_for_status`. */
  datatype Response = Response(
    networkError: bool,
    contentLength: Option<LengthHeader>,
    content: seq<byte>,
    contentType: Option<string>)

  const NETWORK_FAILURE := "Download failed: Invalid URL or network issues."
  const ZERO_BYTE_PAYLOAD := "Download failed. The file has a 0-byte payload."
  const NO_CONTENT := "Download failed. The file has no content."
  const NOT_DOWNLOADABLE := "Download failed. The URL does not point to a downloadable file."

  /** `response.headers.get('Content-Type', '')`. */
  function ContentTypeOf(r: Response): string {
    r.contentType.GetOr("")
  }

  /** The content-type gate: the header mentions `application` or `zip`. */
  predicate AcceptedType(contentType: string) {
    Contains(contentType, "application") || Contains(contentType, "zip")
  }

  /** A declared length of `0`, or one `int()` rejects. */
  predicate LengthRejected(h: Option<LengthHeader>) {
    h.Some? && (h.value.Malformed? || h.value.value == 0)
  }

  /** The `(success, failure_reason)` pair `download_file` returns for a response. */
  function Verdict(r: Response): (v: (bool, Option<string>))
    ensures v.0 <==> v.1 == None
    ensures v.0 <==> !r.networkError && !LengthRejected(r.contentLength) && |r.content| > 0 && AcceptedType(ContentTypeOf(r))
    ensures r.networkError ==> v == (false, Some(NETWORK_FAILURE))
    ensures !r.networkError && r.contentLength == Some(Numeric(0)) ==> v == (false, Some(ZERO_BYTE_PAYLOAD))
    ensures !r.networkError && r.contentLength.Some? && r.contentLength.value.Malformed?
      ==> v == (false, Some(r.contentLength.value.message))
    ensures !r.networkError && !LengthRejected(r.contentLength) && |r.content| == 0 ==> v == (false, Some(NO_CONTENT))
    ensures !r.networkError && !LengthRejected(r.contentLength) && |r.content| > 0 && !AcceptedType(ContentTypeOf(r))
      ==> v == (false, Some(NOT_DOWNLOADABLE))
  {
    if r.networkError then (false, Some(NETWORK_FAILURE))
    else if r.contentLength.Some? && r.contentLength.value.Malformed? then (false, Some(r.contentLength.value.message))
    else if r.contentLength == Some(Numeric(0)) then (false, Some(ZERO_BYTE_PAYLOAD))
    else if |r.content| == 0 then (false, Some(NO_CONTENT))
    else if !AcceptedType(ContentTypeOf(r)) then (false, Some(NOT_DOWNLOADABLE))
    else (true, None)
  }

  /** A network or status error gives the same verdict whatever the headers and body. */
  lemma NetworkErrorIgnoresResponse(r: Response, s: Response)
    requires r.networkError && s.networkError
    ensures Verdict(r) == Verdict(s)
  {
  }

  /** An absent `Content-Type` is treated as the empty string, and a body that passes the earlier checks is then rejected. */
  lemma MissingContentTypeRejected(r: Response)
    requires !r.networkError && !LengthRejected(r.contentLength) && |r.content| > 0 && r.contentType == None
    ensures Verdict(r) == (false, Some(NOT_DOWNLOADABLE))
  {
    assert !Contains("", "zip");
  }

  /** An HTML page is not a downloadable file. */
  lemma HtmlRejected(r: Response)
    requires !r.networkError && !LengthRejected(r.contentLength) && |r.content| > 0
    requires r.contentType == Some("text/html")
    ensures Verdict(r) == (false, Some(NOT_DOWNLOADABLE))
  {
    ContainsNeedsFirst("text/html", "application");
    ContainsNeedsFirst("text/html", "zip");
  }

  /** A non-empty `application/zip` body passes every check. */
  lemma ZipAccepted(r: Response)
    requires !r.networkError && !LengthRejected(r.contentLength) && |r.content| > 0
    requires r.contentType == Some("application/zip")
    ensures Verdict(r) == (true, None)
  {
    assert "application/zip"[..11] == "application";
  }
}
