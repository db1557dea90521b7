/**
 * The agent HTTP client: POST the payload to `<base>/agent`, return the
 * response body on a 2xx status, and fail otherwise.  Unlike the runtime
 * client it has no fallback: every failure reaches the caller.
 */
module AgentApi {
  import opened Wrappers
  import opened Json
  import opened Numerals
  import opened AgentPayload

  /** The outcome of the POST: a transport error, or a status with a body that parsed (`Some`) or not. */
  datatype HttpOutcome = TransportFailed(reason: string) | HttpReply(status: nat, body: Option<Json>)

  /** Why the call failed. */
  datatype AgentApiError =
    | StatusFailure(status: nat)      // `raise_for_status` on a non-2xx status
    | ConnectionFailure(reason: string)
    | BodyNotJson                     // `response.json()` raised
    | BodyNotObject                   // `result.get('type')` on a non-dict raised

  /** The message of the raised exception, where the client writes it itself. */
  function ErrorText(e: AgentApiError): Option<string> {
    match e
    case StatusFailure(status) => Some("Agent API 호출 실패: " + Decimal(status))
    case ConnectionFailure(reason) => Some("Agent API 연결 실패: " + reason)
    case _ => None
  }

  function Endpoint(baseUrl: string): string {
    baseUrl + "/agent"
  }

  predicate Success(status: nat) {
    200 <= status < 300
  }

  /**
   * The end of `_invoke_agent_api` on the reply: the body of a 2xx reply when it parsed to a
   * JSON object, unchanged; otherwise the failure that is raised.
   */
  function Interpret(out: HttpOutcome): (r: Result<map<string, Json>, AgentApiError>)
    ensures r.Ok? <==> out.HttpReply? && Success(out.status) && out.body.Some? && out.body.value.JObj?
    ensures r.Ok? ==> r.value == out.body.value.fields
    ensures out.TransportFailed? ==> r == Err(ConnectionFailure(out.reason))
    ensures out.HttpReply? && !Success(out.status) ==> r == Err(StatusFailure(out.status))
    ensures out.HttpReply? && Success(out.status) && out.body.None? ==> r == Err(BodyNotJson)
    ensures out.HttpReply? && Success(out.status) && out.body.Some? && !out.body.value.JObj? ==>
      r == Err(BodyNotObject)
  {
    match out
    case TransportFailed(reason) => Err(ConnectionFailure(reason))
    case HttpReply(status, body) =>
      if !Success(status) then Err(StatusFailure(status))
      else match body
        case None => Err(BodyNotJson)
        case Some(j) => if j.JObj? then Ok(j.fields) else Err(BodyNotObject)
  }

  /**
   * `orchestrate_request` / `_invoke_agent_api`: POST the payload to the
   * endpoint and interpret the reply; every failure is returned to the caller.
   */
  method Orchestrate(baseUrl: string, input: string, userId: string, requestType: Option<string>,
                     temperature: Option<real>, currentDate: Option<string>,
                     post: (string, map<string, Json>) -> HttpOutcome)
    returns (r: Result<map<string, Json>, AgentApiError>)
    ensures r == Interpret(post(Endpoint(baseUrl),
                                Payload(input, userId, requestType, temperature, currentDate)))
  {
    var payload := BuildPayload(input, userId, requestType, temperature, currentDate);
    var outcome := post(Endpoint(baseUrl), payload);
    r := Interpret(outcome);
  }

  /** The status failure's message names the status, so distinct statuses give distinct messages. */
  lemma StatusTextInjective(a: nat, b: nat)
    requires ErrorText(StatusFailure(a)) == ErrorText(StatusFailure(b))
    ensures a == b
  {
    var p := "Agent API 호출 실패: ";
    assert Decimal(a) == (p + Decimal(a))[|p|..];
    assert Decimal(b) == (p + Decimal(b))[|p|..];
    DecimalRoundTrip(a);
    DecimalRoundTrip(b);
  }
}
