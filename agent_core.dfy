/**
 * The agent-runtime client: a keyword classifier, a canned fallback answer
 * for each request type, the call to the runtime with the response
 * unwrapped, and the policy that any failure yields the fallback instead
 * of an error.  The runtime itself is a function parameter.
 */
module AgentCore {
  import opened Wrappers
  import opened Text
  import opened Json
  import opened AgentPayload

  const QuestionKeywords: seq<string> := ["?", "뭐", "무엇", "어디", "언제", "누구", "왜", "어떻게"]
  const SummarizeKeywords: seq<string> := ["요약", "정리", "일기"]

  /** `any(k in s for k in keywords)`. */
  predicate MentionsAny(s: string, keywords: seq<string>) {
    exists k :: k in keywords && Contains(s, k)
  }

  /** The summarize keywords are matched against `s.lower()`; for them that is the same as `s`. */
  lemma SummarizeKeywordsIgnoreCase(s: string)
    ensures MentionsAny(LowerAscii(s), SummarizeKeywords) <==> MentionsAny(s, SummarizeKeywords)
  {
    forall k | k in SummarizeKeywords
      ensures Contains(LowerAscii(s), k) <==> Contains(s, k)
    {
      LowerKeepsLetterFreeMatches(s, k);
    }
  }

  /** `_classify_request`: question keywords first, then summarize keywords, else data. */
  function Classify(input: string): (kind: string)
    ensures kind == "question" <==> MentionsAny(input, QuestionKeywords)
    ensures kind == "summarize" <==>
      !MentionsAny(input, QuestionKeywords) && MentionsAny(input, SummarizeKeywords)
    ensures kind == "data" <==>
      !MentionsAny(input, QuestionKeywords) && !MentionsAny(input, SummarizeKeywords)
  {
    SummarizeKeywordsIgnoreCase(input);
    if MentionsAny(input, QuestionKeywords) then "question"
    else if MentionsAny(LowerAscii(input), SummarizeKeywords) then "summarize"
    else "data"
  }

  /** The request type the fallback acts on: the classifier runs only when none was given. */
  function EffectiveType(input: string, requestType: Option<string>): (t: string)
    ensures requestType.Some? ==> t == requestType.value
    ensures requestType.None? ==> t in {"question", "summarize", "data"}
  {
    match requestType
    case Some(t) => t
    case None => Classify(input)
  }

  const DiaryFallbackNotice: string :=
    "[일기 생성 실패] Agent Core Runtime을 사용할 수 없습니다. 시스템 관리자에게 문의하세요.\n\n입력 내용: "
  const AnswerFallbackText: string :=
    "죄송합니다. 현재 질문 답변 서비스를 사용할 수 없습니다. Agent Core Runtime 연결을 확인해주세요."

  /** `_summarize_agent`: the notice, then `content[:100]`, then "...". */
  function DiaryFallbackText(input: string): string {
    DiaryFallbackNotice + (if |input| <= 100 then input else input[..100]) + "..."
  }

  /** The result dict `{"type": ..., "content": ..., "message": ...}`. */
  function Reply(kind: string, content: string, message: string): map<string, Json> {
    map["type" := JStr(kind), "content" := JStr(content), "message" := JStr(message)]
  }

  /** `_fallback_implementation`. */
  function Fallback(input: string, requestType: Option<string>): map<string, Json> {
    var t := EffectiveType(input, requestType);
    if t == "summarize" then Reply("diary", DiaryFallbackText(input), "일기가 생성되었습니다.")
    else if t == "question" then Reply("answer", AnswerFallbackText, "질문에 대한 답변입니다.")
    else Reply("data", "", "메시지가 저장되었습니다.")
  }

  /**
   * The fallback's type: "diary" for "summarize", "answer" for "question",
   * "data" with empty content for anything else, including "" (which is not
   * None, so it skips the classifier).
   */
  lemma FallbackKinds(input: string, requestType: Option<string>)
    ensures var r := Fallback(input, requestType);
      && r.Keys == {"type", "content", "message"}
      && (r["type"] == JStr("diary") <==> EffectiveType(input, requestType) == "summarize")
      && (r["type"] == JStr("answer") <==> EffectiveType(input, requestType) == "question")
      && (r["type"] == JStr("data") <==>
            EffectiveType(input, requestType) !in {"summarize", "question"})
      && (r["type"] == JStr("data") ==> r["content"] == JStr(""))
  {
  }

  /** With no request type, the fallback's type follows the keyword precedence. */
  lemma ClassifiedFallback(input: string)
    ensures var r := Fallback(input, None);
      && (r["type"] == JStr("answer") <==> MentionsAny(input, QuestionKeywords))
      && (r["type"] == JStr("diary") <==>
            !MentionsAny(input, QuestionKeywords) && MentionsAny(input, SummarizeKeywords))
      && (r["type"] == JStr("data") <==>
            !MentionsAny(input, QuestionKeywords) && !MentionsAny(input, SummarizeKeywords))
  {
  }

  /** The diary fallback quotes a prefix of the input of at most 100 characters, all of a short input. */
  lemma DiaryFallbackQuotesPrefix(input: string)
    ensures exists quoted :: (
      && DiaryFallbackText(input) == DiaryFallbackNotice + quoted + "..."
      && |quoted| <= 100 && quoted <= input
      && (|input| <= 100 ==> quoted == input))
  {
    var quoted := if |input| <= 100 then input else input[..100];
    assert quoted == input[..|quoted|];
    assert DiaryFallbackText(input) == DiaryFallbackNotice + quoted + "...";
  }

  /** What the runtime call produced: it raised, or it returned a body that parsed (`Some`) or not (`None`). */
  datatype RuntimeOutcome = RuntimeFailed | RuntimeBody(parsed: Option<Json>)

  /**
   * The unwrapping in `_invoke_agent_core` on the parsed body: `result['body']` if `'body' in result`,
   * else `result`; `None` where Python raises (a non-dict makes `in`, `[]` or
   * `.get('type')` fail), which the caller turns into the fallback.
   */
  function Unwrap(parsed: Json): (r: Option<map<string, Json>>)
    ensures r.Some? <==> parsed.JObj? && ("body" in parsed.fields ==> parsed.fields["body"].JObj?)
    ensures r.Some? ==>
      r.value == if "body" in parsed.fields then parsed.fields["body"].fields else parsed.fields
  {
    match In("body", parsed)
    case Err(_) => None
    case Ok(hasBody) =>
      var actual := if hasBody then GetItem(parsed, "body") else Ok(parsed);
      match actual
      case Err(_) => None
      case Ok(v) => if v.JObj? then Some(v.fields) else None
  }

  /** True when the runtime's outcome yields a result dict rather than the fallback. */
  predicate Answered(out: RuntimeOutcome) {
    out.RuntimeBody? && out.parsed.Some? && Unwrap(out.parsed.value).Some?
  }

  /** `_invoke_agent_core`: send the payload; any failure, JSON parse errors included, gives the fallback. */
  method InvokeAgentCore(arn: string, input: string, userId: string, requestType: Option<string>,
                         temperature: Option<real>, currentDate: Option<string>,
                         runtime: (string, map<string, Json>) -> RuntimeOutcome)
    returns (r: map<string, Json>)
    ensures var out := runtime(arn, Payload(input, userId, requestType, temperature, currentDate));
      && (Answered(out) ==> r == Unwrap(out.parsed.value).value)
      && (!Answered(out) ==> r == Fallback(input, requestType))
  {
    var payload := BuildPayload(input, userId, requestType, temperature, currentDate);
    var outcome := runtime(arn, payload);
    match outcome {
      case RuntimeFailed =>
        r := Fallback(input, requestType);
      case RuntimeBody(None) =>
        r := Fallback(input, requestType);
      case RuntimeBody(Some(body)) =>
        var unwrapped := Unwrap(body);
        if unwrapped.Some? {
          r := unwrapped.value;
        } else {
          r := Fallback(input, requestType);
        }
    }
  }

  /** The client's configuration: the runtime ARN, possibly unset. */
  datatype Config = Config(runtimeArn: Option<string>)

  /** Construction: missing credentials raise; a missing ARN only selects the fallback. */
  function Configure(accessKeyId: Option<string>, secretAccessKey: Option<string>,
                     runtimeArn: Option<string>): (r: Result<Config, string>)
    ensures r.Ok? <==> Given(accessKeyId) && Given(secretAccessKey)
    ensures r.Ok? ==> r.value.runtimeArn == runtimeArn
  {
    if !Given(accessKeyId) || !Given(secretAccessKey) then
      Err("AWS 자격증명이 설정되지 않았습니다. Secrets Manager 또는 환경변수를 확인해주세요.")
    else Ok(Config(runtimeArn))
  }

  /**
   * `orchestrate_request`: the runtime when an ARN is configured, the
   * fallback otherwise.  The result is always a dict: this client never fails.
   */
  method Orchestrate(config: Config, input: string, userId: string, requestType: Option<string>,
                     temperature: Option<real>, currentDate: Option<string>,
                     runtime: (string, map<string, Json>) -> RuntimeOutcome)
    returns (r: map<string, Json>)
    ensures !Given(config.runtimeArn) ==> r == Fallback(input, requestType)
    ensures Given(config.runtimeArn) ==>
      var out := runtime(config.runtimeArn.value,
                         Payload(input, userId, requestType, temperature, currentDate));
      r == if Answered(out) then Unwrap(out.parsed.value).value else Fallback(input, requestType)
  {
    if Given(config.runtimeArn) {
      r := InvokeAgentCore(config.runtimeArn.value, input, userId, requestType, temperature,
                           currentDate, runtime);
    } else {
      r := Fallback(input, requestType);
    }
  }
}
