/**
 * Payload assembly and upload: the `{row_set: {tag, timestamp, rows}}` hash
 * built in `work_zip_file`, and `post!`, which sends it to the configured URL
 * and maps the response status to the task's output and result.
 */
module Upload {
  import opened Base
  import opened Extraction

  /** The three outputs `post!` leaves in the task's output slot. */
  const MissingUrlOutput: string := "Missing a URL to post the data to"
  const SuccessOutput: string := "Server returned a successful response"
  const NonOkOutputPrefix: string := "Non 200 response returned from API: "

  datatype RowSet = RowSet(tag: string, timestamp: int, rows: seq<Row>)
  datatype Payload = Payload(rowSet: RowSet)

  /** The configured URL, already split into origin, path and query values. */
  datatype Url = Url(origin: string, path: string, query: Option<map<string, string>>)

  /** One POST: to `origin` + `path`, with the URL's query values merged with the payload. */
  datatype Request = Request(origin: string, path: string, query: map<string, string>, payload: Payload)

  /** What the server answers: its status and the response's `inspect` text. */
  datatype Response = Response(status: int, inspect: string)

  /** The result of one upload: `post!`'s return value, the output slot, and the request sent, if any. */
  datatype Upload = Upload(ok: bool, output: string, sent: Option<Request>)

  /**
   * The payload literal. `timestamp` is the archive's time in seconds since
   * the epoch; `to_i` keeps the whole seconds.
   */
  function BuildPayload(tag: string, timestamp: real, rows: seq<Row>): (p: Payload)
    ensures p.rowSet.tag == tag && p.rowSet.rows == rows
    ensures p.rowSet.timestamp as real <= timestamp < p.rowSet.timestamp as real + 1.0
  {
    Payload(RowSet(tag, timestamp.Floor, rows))
  }

  /**
   * `post!` with the missing-URL case returning, and a URL without a query
   * merged as if its query were empty. No request is sent without a URL;
   * otherwise exactly one is, and the result is true exactly on status 200.
   */
  function Post(url: Option<Url>, payload: Payload, network: Request -> Response): (u: Upload)
    ensures url.None? ==> u == Upload(false, MissingUrlOutput, None)
    ensures url.Some? ==> u.sent == Some(Request(url.value.origin, url.value.path,
                                                 if url.value.query.Some? then url.value.query.value else map[],
                                                 payload))
    ensures url.Some? ==> (u.ok <==> network(u.sent.value).status == 200)
    ensures u.ok ==> u.output == SuccessOutput
    ensures url.Some? && !u.ok ==> u.output == NonOkOutputPrefix + network(u.sent.value).inspect
  {
    match url
    case None => Upload(false, MissingUrlOutput, None)
    case Some(Url(origin, path, query)) =>
      var request := Request(origin, path, if query.Some? then query.value else map[], payload);
      var response := network(request);
      if response.status == 200 then Upload(true, SuccessOutput, Some(request))
      else Upload(false, NonOkOutputPrefix + response.inspect, Some(request))
  }

  /** The success output is produced exactly when the upload succeeded. */
  lemma SuccessOutputIffOk(url: Option<Url>, payload: Payload, network: Request -> Response)
    ensures Post(url, payload, network).output == SuccessOutput <==> Post(url, payload, network).ok
  {
    var u := Post(url, payload, network);
    if !u.ok {
      assert u.output[0] == 'M' || u.output[0] == 'N';
    }
  }

  /** Without a URL the result does not depend on any server. */
  lemma MissingUrlSendsNothing(payload: Payload, network1: Request -> Response, network2: Request -> Response)
    ensures Post(None, payload, network1) == Post(None, payload, network2)
    ensures Post(None, payload, network1).sent == None
  {
  }

  /** What a call of `post!` as written ends in. */
  datatype PostAsWrittenOutcome =
    | Completed(upload: Upload)
    | Raised(slot: Option<string>)   // the exception ends the thread; `slot` is its output slot

  /**
   * `post!` as written. Without a URL it sets the message and carries on:
   * `Addressable::URI.parse(nil)` is `nil` and `uri.origin` raises. With a URL
   * that has no query, `uri.query_values` is `nil` and `merge` raises before
   * anything is sent.
   */
  function PostAsWritten(url: Option<Url>, payload: Payload, network: Request -> Response): (r: PostAsWrittenOutcome)
    ensures url.None? ==> r == Raised(Some(MissingUrlOutput))
    ensures url.Some? && url.value.query.None? ==> r == Raised(None)
    ensures url.Some? && url.value.query.Some? ==> r == Completed(Post(url, payload, network))
  {
    match url
    case None => Raised(Some(MissingUrlOutput))
    case Some(u) =>
      if u.query.None? then Raised(None) else Completed(Post(url, payload, network))
  }

  /** The discrepancy: as written, `post!` completes exactly when the URL is present and has a query. */
  lemma PostAsWrittenCompletesOnlyWithQuery(url: Option<Url>, payload: Payload, network: Request -> Response)
    ensures PostAsWritten(url, payload, network).Completed? <==> url.Some? && url.value.query.Some?
    ensures PostAsWritten(url, payload, network).Completed? ==>
              PostAsWritten(url, payload, network).upload == Post(url, payload, network)
  {
  }
}
