/**
 One request to the status endpoint and how its failures are reported
 (`get_printer_data` and the helper it wraps).
 */
module Poll {

  import opened Wrappers
  import opened Json
  import opened Messages
  import opened Topics

  /** What one HTTP request produced.  `RequestError` is any
      `RequestException` raised by the request (connection refused, DNS
      failure, timeout, ...).  A `Response` carries its status code and its body
      parsed as JSON, `None` when the body is not valid JSON. */
  datatype PollOutcome =
    | RequestError
    | Response(status: int, body: Option<Json>)

  /** The poll succeeded: status 200 and a body that parses. */
  predicate Succeeded(o: PollOutcome) {
    o.Response? && o.status == 200 && o.body.Some?
  }

  /** The `"false"` or `"true"` report on the HTTP source's reachability; it is
      never retained. */
  function StatusReport(prefix: string, online: bool): Publish {
    Publish(Topic(prefix, ServerOnline), Text(if online then "true" else "false"), QoS, false)
  }

  /** What `get_printer_data` publishes and logs, and the value it returns
      (Python's `None` is `JNull`). */
  datatype Fetched = Fetched(publishes: seq<Publish>, log: seq<LogLine>, data: Json)

  /** `get_printer_data("/api/v1/status")`.  A non-200 status is reported
      by the helper; a raised `RequestException` by the wrapper.  Parsing an
      invalid body raises `requests.exceptions.JSONDecodeError`, itself a
      `RequestException`, so it takes the wrapper's path. */
  function GetPrinterData(prefix: string, o: PollOutcome): (r: Fetched)
    ensures Succeeded(o) ==> r.publishes == [] && r.log == [] && r.data == o.body.value
    ensures !Succeeded(o) ==> r.publishes == [StatusReport(prefix, false)] && r.data == JNull
    ensures |r.log| <= 1
  {
    match o
    case RequestError => Fetched([StatusReport(prefix, false)], [RequestFailed], JNull)
    case Response(status, body) =>
      if status == 200 then
        match body
        case Some(doc) => Fetched([], [], doc)
        case None => Fetched([StatusReport(prefix, false)], [RequestFailed], JNull)
      else
        Fetched([StatusReport(prefix, false)], [BadStatus(status)], JNull)
  }

  /** A failure is logged as a request failure exactly when no response with
      a readable body arrived, and as a bad status exactly when the status was
      not 200. */
  lemma FailureClassification(prefix: string, o: PollOutcome)
    ensures GetPrinterData(prefix, o).log == [RequestFailed] <==>
              o.RequestError? || (o.status == 200 && o.body.None?)
    ensures (exists c :: GetPrinterData(prefix, o).log == [BadStatus(c)]) <==>
              o.Response? && o.status != 200
  {
    if o.Response? && o.status != 200 {
      assert GetPrinterData(prefix, o).log == [BadStatus(o.status)];
    }
  }
}
