/**
 * `HttpUtils`: the Lambda proxy response and the error payloads the handlers
 * send. The JSON serialiser (`json.dumps`) is a parameter.
 */
module Http {
  import opened Wrappers
  import opened PyValues
  import opened Text

  const StatusSuccess: int := 200
  const InternalError: string := "InternalError"
  const BadRequestError: string := "BadRequestError"
  const AllowMethods: string := "GET,PUT,POST,DELETE,OPTIONS,PATCH"
  const AllowHeaders: string :=
    "Origin,X-Requested-With,Content-Type,Accept,X-Amz-Date,Authorization,X-Api-Key,X-Amz-Security-Token"

  /** The header names of every response, in order. */
  const HeaderNames: seq<string> := ["Content-Type", "Content-Length", "Access-Control-Allow-Origin",
                                      "Access-Control-Allow-Methods", "Access-Control-Allow-Headers"]

  /** The header values of a response whose body is `body`, in the order of `HeaderNames`. */
  function HeaderValues(body: string): seq<Py> {
    [PyStr("application/json"), PyStr(NatToString(|body|)), PyStr("*"), PyStr(AllowMethods), PyStr(AllowHeaders)]
  }

  /** The headers of a response whose body is `body`: each name once, in order. */
  function Headers(body: string): (r: seq<(string, Py)>)
    ensures Keys(r) == HeaderNames
  {
    var values := HeaderValues(body);
    seq(5, i requires 0 <= i < 5 => (HeaderNames[i], values[i]))
  }

  lemma HeaderNamesDistinct()
    ensures forall i, j :: 0 <= i < j < |HeaderNames| ==> HeaderNames[i] != HeaderNames[j]
  {
    assert HeaderNames[0][8] != HeaderNames[1][8];
    assert |HeaderNames[1]| < |HeaderNames[2]| < |HeaderNames[3]| == |HeaderNames[4]|;
    assert HeaderNames[3][21] != HeaderNames[4][21];
  }

  /**
   * Each header name looks up the value at its index: Content-Type is
   * `application/json`, Content-Length the body's length in decimal, the caller
   * may come from any origin, and the allowed methods and headers are fixed.
   */
  lemma HeaderLookup(body: string, i: nat)
    requires i < |HeaderNames|
    ensures Lookup(Headers(body), HeaderNames[i]) == Some(HeaderValues(body)[i])
  {
    HeaderNamesDistinct();
    LookupFirst(Headers(body), i);
  }

  /**
   * `generate_http_response(response_payload, status_code)`: the keys `headers`,
   * `statusCode` and `body`, the body being the serialised payload.
   */
  function GenerateHttpResponse(payload: Py, dumps: Py -> string, statusCode: Py := PyInt(StatusSuccess)): (r: Py)
    ensures r.PyDict? && Keys(r.entries) == ["headers", "statusCode", "body"]
    ensures Lookup(r.entries, "headers") == Some(PyDict(Headers(dumps(payload))))
    ensures Lookup(r.entries, "statusCode") == Some(statusCode)
    ensures Lookup(r.entries, "body") == Some(PyStr(dumps(payload)))
  {
    var body := dumps(payload);
    var headers := ("headers", PyDict(Headers(body)));
    var status := ("statusCode", statusCode);
    var bodyEntry := ("body", PyStr(body));
    Literal3(headers, status, bodyEntry);
    PyDict([headers, status, bodyEntry])
  }

  /** The Content-Length header reads back as the length of the body it comes with. */
  lemma ContentLengthIsBodyLength(payload: Py, dumps: Py -> string, statusCode: Py)
    ensures var headers := Lookup(GenerateHttpResponse(payload, dumps, statusCode).entries, "headers").value.entries;
      var length := Lookup(headers, "Content-Length").value;
      length.PyStr? && (forall i :: 0 <= i < |length.s| ==> IsDigit(length.s[i]))
      && ParseNat(length.s) == |dumps(payload)|
  {
    HeaderLookup(dumps(payload), 1);
    ParsePrinted(|dumps(payload)|);
  }

  /** `assemble_error_payload(message, code)`: exactly the keys `code` and `message`. */
  function AssembleErrorPayload(message: Py, code: Py := PyStr(InternalError)): (r: Py)
    ensures r.PyDict? && Keys(r.entries) == ["code", "message"]
    ensures Lookup(r.entries, "code") == Some(code)
    ensures Lookup(r.entries, "message") == Some(message)
  {
    Literal2(("code", code), ("message", message));
    PyDict([("code", code), ("message", message)])
  }

  /** `assemble_bad_request_payload(message)`: a dict passes through unchanged. */
  function AssembleBadRequestPayload(message: Py): (r: Py)
    ensures r.PyDict?
    ensures message.PyDict? ==> r == message
    ensures !message.PyDict? ==>
              && Keys(r.entries) == ["code", "message"]
              && Lookup(r.entries, "code") == Some(PyStr(BadRequestError))
              && Lookup(r.entries, "message") == Some(message)
  {
    if message.PyDict? then message else AssembleErrorPayload(message, PyStr(BadRequestError))
  }

  /** `assemble_server_error_payload(message)`: a dict passes through unchanged. */
  function AssembleServerErrorPayload(message: Py): (r: Py)
    ensures r.PyDict?
    ensures message.PyDict? ==> r == message
    ensures !message.PyDict? ==>
              && Keys(r.entries) == ["code", "message"]
              && Lookup(r.entries, "code") == Some(PyStr(InternalError))
              && Lookup(r.entries, "message") == Some(message)
  {
    if message.PyDict? then message else AssembleErrorPayload(message, PyStr(InternalError))
  }

  /**
   * A payload built by `assemble_error_payload` is a dict, so passing it to either
   * of the other two assemblers changes nothing: wrapping is done at most once.
   */
  lemma AssembleOnce(message: Py, code: Py)
    ensures AssembleBadRequestPayload(AssembleErrorPayload(message, code)) == AssembleErrorPayload(message, code)
    ensures AssembleServerErrorPayload(AssembleErrorPayload(message, code)) == AssembleErrorPayload(message, code)
  {
  }

  /** The two assemblers are idempotent. */
  lemma AssemblersIdempotent(message: Py)
    ensures AssembleBadRequestPayload(AssembleBadRequestPayload(message)) == AssembleBadRequestPayload(message)
    ensures AssembleServerErrorPayload(AssembleServerErrorPayload(message)) == AssembleServerErrorPayload(message)
  {
  }
}
