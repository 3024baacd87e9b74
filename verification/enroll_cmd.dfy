/** `EnrollCmd.Execute`: one enrollment exchange with Fleet
    (x-pack/agent/pkg/fleetapi/enroll_cmd.go, lines 160-204).

    The transport (`clienter.Send`), the response-body decoder and the
    error-body extractor are outside this file; they enter as function
    parameters, so every property below holds whatever they do. */
module EnrollCmd {
  import opened Results
  import opened EnrollTypes
  import opened Enrollment

  /** Resource path of the enrollment endpoint. */
  const EnrollPath: string := "/api/fleet/agents/enroll"

  /** Header that carries the enrollment token. */
  const TokenHeader: string := "kbn-fleet-enrollment-token"

  /** `http.StatusOK`. */
  const StatusOK: int := 200

  /** The request body `json.Marshal(r)` produces, field by field: the
      encoded type, the shared ID (absent when empty), the metadata. The
      token has no field: its tag excludes it from the body. */
  datatype RequestBody = RequestBody(enrollType: string, sharedId: Option<string>, metadata: Metadata)

  /** The arguments of one `clienter.Send` call; `verb` is the HTTP method. */
  datatype HttpRequest = HttpRequest(
    verb: string,
    path: string,
    params: map<string, seq<string>>,
    headers: map<string, seq<string>>,
    body: RequestBody)

  /** A response body, as read from the transport. */
  datatype Body = Body(content: string)

  /** What the transport reports. */
  datatype TransportError = TransportError(message: string)

  /** What the error extractor makes of a non-OK response body: always an
      error, never nil. */
  datatype RemoteError = RemoteError(message: string)

  /** Why the response decoder rejected a body. */
  datatype DecodeError = DecodeError(message: string)

  /** The result of one `clienter.Send` call. */
  datatype SendOutcome = SendFailed(err: TransportError) | Received(statusCode: int, body: Body)

  /** The error `Execute` returns. */
  datatype ExecError =
    | ValidationFailed(violations: seq<Violation>)      // a validator's aggregate error
    | EncodeFailed(codecError: CodecError)              // "fail to encode the enrollment request"
    | TransportFailed(transportError: TransportError)   // returned unchanged
    | Remote(remoteError: RemoteError)                  // extracted from a non-OK body
    | DecodeFailed(decodeError: DecodeError)            // "fail to decode enrollment response"

  /** One run of `Execute`: the request handed to `Send`, if it was called,
      and the single result returned. */
  datatype Execution = Execution(sent: Option<HttpRequest>, result: Result<EnrollResponse, ExecError>)

  /** `json.Marshal(r)`: fails only when the enrollment type does not encode. */
  function EncodeRequest(r: EnrollRequest): (b: Result<RequestBody, CodecError>)
    ensures b.Failure? <==> r.enrollType !in ForwardTable.Values
    ensures b.Failure? ==> b.error == CannotSerializeUnknownType
    ensures b.Success? ==> Unmarshal(b.value.enrollType, EnrollType("")) == Unmarshalled(r.enrollType, None)
    ensures b.Success? ==> (b.value.sharedId.None? <==> r.sharedId == "")
    ensures b.Success? && b.value.sharedId.Some? ==> b.value.sharedId.value == r.sharedId
    ensures b.Success? ==> b.value.metadata == r.metadata
  {
    match Marshal(r.enrollType)
    case Failure(e) => Failure(e)
    case Success(t) =>
      Success(RequestBody(t, if r.sharedId == "" then None else Some(r.sharedId), r.metadata))
  }

  /** Handling of what `Send` returned: status check, decode, validate. */
  function HandleOutcome(
    o: SendOutcome,
    decode: Body -> Result<EnrollResponse, DecodeError>,
    extract: Body -> RemoteError): (res: Result<EnrollResponse, ExecError>)
    ensures res.Success? ==>
              && o.Received? && o.statusCode == StatusOK
              && decode(o.body) == Success(res.value)
              && ValidateResponse(res.value) == []
    ensures o.SendFailed? ==> res == Failure(TransportFailed(o.err))
    ensures o.Received? && o.statusCode != StatusOK ==> res == Failure(Remote(extract(o.body)))
  {
    match o
    case SendFailed(e) => Failure(TransportFailed(e))
    case Received(status, body) =>
      if status != StatusOK then Failure(Remote(extract(body)))
      else
        match decode(body)
        case Failure(d) => Failure(DecodeFailed(d))
        case Success(resp) =>
          var errs := ValidateResponse(resp);
          if errs != [] then Failure(ValidationFailed(errs)) else Success(resp)
  }

  /** `EnrollCmd.Execute`. */
  function Execute(
    r: EnrollRequest,
    send: HttpRequest -> SendOutcome,
    decode: Body -> Result<EnrollResponse, DecodeError>,
    extract: Body -> RemoteError): (x: Execution)
    // Send is called exactly when the request validates and its type encodes.
    ensures x.sent.Some? <==> ValidateRequest(r) == [] && r.enrollType in ForwardTable.Values
    ensures ValidateRequest(r) != [] ==> x.result == Failure(ValidationFailed(ValidateRequest(r)))
    ensures ValidateRequest(r) == [] && r.enrollType !in ForwardTable.Values ==>
              x.result == Failure(EncodeFailed(CannotSerializeUnknownType))
    // The shape of the one call.
    ensures x.sent.Some? ==>
              && x.sent.value.verb == "POST" && x.sent.value.path == EnrollPath
              && x.sent.value.params == map[]
              && x.sent.value.headers == map[TokenHeader := [r.enrollmentToken]]
              && x.sent.value.body == EncodeRequest(r).value
              && Unmarshal(x.sent.value.body.enrollType, EnrollType("")).target == r.enrollType
    // A response is returned only from an OK status whose body decodes and validates.
    ensures x.result.Success? ==>
              && x.sent.Some? && send(x.sent.value).Received?
              && send(x.sent.value).statusCode == StatusOK
              && decode(send(x.sent.value).body) == Success(x.result.value)
              && ValidateResponse(x.result.value) == []
  {
    var errs := ValidateRequest(r);
    if errs != [] then Execution(None, Failure(ValidationFailed(errs)))
    else
      match EncodeRequest(r)
      case Failure(e) => Execution(None, Failure(EncodeFailed(e)))
      case Success(body) =>
        var call := HttpRequest("POST", EnrollPath, map[], map[TokenHeader := [r.enrollmentToken]], body);
        Execution(Some(call), HandleOutcome(send(call), decode, extract))
  }

  /** After `Send`, exactly one of five outcomes, decided by what the
      transport returned. */
  lemma AfterSend(
    r: EnrollRequest,
    send: HttpRequest -> SendOutcome,
    decode: Body -> Result<EnrollResponse, DecodeError>,
    extract: Body -> RemoteError)
    requires Execute(r, send, decode, extract).sent.Some?
    ensures var x := Execute(r, send, decode, extract);
            var o := send(x.sent.value);
            && (o.SendFailed? ==> x.result == Failure(TransportFailed(o.err)))
            && (o.Received? && o.statusCode != StatusOK ==> x.result == Failure(Remote(extract(o.body))))
            && (o.Received? && o.statusCode == StatusOK && decode(o.body).Failure? ==>
                  x.result == Failure(DecodeFailed(decode(o.body).error)))
            && (o.Received? && o.statusCode == StatusOK && decode(o.body).Success?
                && ValidateResponse(decode(o.body).value) != [] ==>
                  x.result == Failure(ValidationFailed(ValidateResponse(decode(o.body).value))))
            && (o.Received? && o.statusCode == StatusOK && decode(o.body).Success?
                && ValidateResponse(decode(o.body).value) == [] ==>
                  x.result == Success(decode(o.body).value))
  {
  }

  /** A request with a non-empty but unregistered type passes validation
      and still fails before anything is sent. */
  lemma UnregisteredTypeFailsBeforeSend(
    r: EnrollRequest,
    send: HttpRequest -> SendOutcome,
    decode: Body -> Result<EnrollResponse, DecodeError>,
    extract: Body -> RemoteError)
    requires |r.enrollmentToken| > 0 && |r.enrollType.name| > 0
    requires r.enrollType != Permanent
    ensures ValidateRequest(r) == []
    ensures Execute(r, send, decode, extract) == Execution(None, Failure(EncodeFailed(CannotSerializeUnknownType)))
  {
  }

  /** The token travels in the header only: two requests that differ only
      in their token send the same body. */
  lemma TokenOnlyInHeader(
    r1: EnrollRequest,
    r2: EnrollRequest,
    send: HttpRequest -> SendOutcome,
    decode: Body -> Result<EnrollResponse, DecodeError>,
    extract: Body -> RemoteError)
    requires r1.enrollType == r2.enrollType && r1.sharedId == r2.sharedId && r1.metadata == r2.metadata
    requires Execute(r1, send, decode, extract).sent.Some?
    requires Execute(r2, send, decode, extract).sent.Some?
    ensures Execute(r1, send, decode, extract).sent.value.body == Execute(r2, send, decode, extract).sent.value.body
  {
  }

  /** The example request: token "tok123", type PERMANENT, no shared ID,
      empty metadata. */
  function ExampleRequest(): EnrollRequest {
    EnrollRequest("tok123", Permanent, "", Metadata(map[], map[]))
  }

  /** The example request is sent with `"PERMANENT"` as its type, no shared
      ID, and the token in its header. */
  lemma ExampleRequestIsSent(
    send: HttpRequest -> SendOutcome,
    decode: Body -> Result<EnrollResponse, DecodeError>,
    extract: Body -> RemoteError)
    ensures var x := Execute(ExampleRequest(), send, decode, extract);
            && x.sent.Some?
            && x.sent.value.body == RequestBody("\"PERMANENT\"", None, Metadata(map[], map[]))
            && x.sent.value.headers == map[TokenHeader := ["tok123"]]
  {
  }

  /** The example success response body, decoded. */
  function ExampleResponse(accessToken: string): EnrollResponse {
    EnrollResponse("created", true, EnrollItemResponse(
      "a4937110-e53e-11e9-934f-47a8e38a522c", true, "default", Permanent,
      "2019-10-02T18:01:22.337Z", map[], map[], [], accessToken))
  }

  /** An OK response decoding to the example is returned as is. */
  lemma ExampleResponseAccepted(
    send: HttpRequest -> SendOutcome,
    decode: Body -> Result<EnrollResponse, DecodeError>,
    extract: Body -> RemoteError,
    body: Body)
    requires forall h :: send(h) == Received(StatusOK, body)
    requires decode(body) == Success(ExampleResponse("ACCESS_TOKEN"))
    ensures Execute(ExampleRequest(), send, decode, extract).result.Success?
    ensures Execute(ExampleRequest(), send, decode, extract).result.value.item.id
              == "a4937110-e53e-11e9-934f-47a8e38a522c"
  {
  }

  /** An OK response whose body lacks the access token is refused. */
  lemma MissingAccessTokenRefused(
    send: HttpRequest -> SendOutcome,
    decode: Body -> Result<EnrollResponse, DecodeError>,
    extract: Body -> RemoteError,
    body: Body)
    requires forall h :: send(h) == Received(StatusOK, body)
    requires decode(body) == Success(ExampleResponse(""))
    ensures Execute(ExampleRequest(), send, decode, extract).result == Failure(ValidationFailed([AccessTokenMissing]))
  {
    ExampleRequestIsSent(send, decode, extract);
    ResponseViolationsCharacterised(ExampleResponse(""), [AccessTokenMissing]);
  }

  /** A non-OK status yields the extracted error and no response. */
  lemma NonOkStatusExtracted(
    send: HttpRequest -> SendOutcome,
    decode: Body -> Result<EnrollResponse, DecodeError>,
    extract: Body -> RemoteError,
    status: int,
    body: Body)
    requires status != StatusOK
    requires forall h :: send(h) == Received(status, body)
    ensures Execute(ExampleRequest(), send, decode, extract).result == Failure(Remote(extract(body)))
  {
  }
}
