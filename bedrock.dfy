/**
 * The summarizer: input validation and truncation, the request sent to the
 * model (with its defaults), the checks on the model's response, and the
 * mapping of every failure to one error message.  The model call is a
 * function parameter.
 */
module Bedrock {
  import opened Wrappers
  import opened Text
  import opened Json
  import opened Http
  import opened AgentPayload

  const MaxContent: nat := 50000
  const DefaultTemperature: real := 1.0
  const DefaultTopK: int := 250
  const MaxTokens: int := 2000
  const AnthropicVersion: string := "bedrock-2023-05-31"
  const SystemPrompt: string := "너는 일기를 매일 작성하는 맞춤법과 문단 나누기에 엄격한 학생이야."
  const Instruction: string :=
    "\n        일기 형식으로 작성하고, 줄글 형식, 1인칭 시점으로 요약해줘. 날짜는 따로 적지않아도 돼.\n일기 내용:\n"

  const CredentialsMissing: string :=
    "AWS 자격증명이 설정되지 않았습니다. Secrets Manager 또는 환경변수를 확인해주세요."

  /** Construction: both credentials must be set. */
  function Configure(accessKeyId: Option<string>, secretAccessKey: Option<string>): (r: Result<(), string>)
    ensures r.Ok? <==> Given(accessKeyId) && Given(secretAccessKey)
    ensures r.Err? ==> r.error == CredentialsMissing
  {
    if Given(accessKeyId) && Given(secretAccessKey) then Ok(()) else Err(CredentialsMissing)
  }

  /** The request body sent to the model. */
  datatype BedrockRequest = BedrockRequest(
    anthropicVersion: string,
    maxTokens: int,
    temperature: real,
    topK: int,
    system: string,
    userMessage: string)

  /** What the model call produced: a client exception with its message, or a body that parsed or not. */
  datatype InvokeOutcome = ClientFault(message: string) | Body(parsed: Option<Json>)

  /** `ValueError` for the input, or the one `Exception` every other failure becomes. */
  datatype SummarizeError = InvalidInput(message: string) | Failed(detail: Detail)

  const EmptyInput: string := "요약할 내용이 없습니다."
  const FailurePrefix: string := "AI 요약 생성 실패: "
  const CredentialsText: string := "AWS 자격증명 오류입니다. 설정을 확인해주세요"
  const ThrottlingText: string := "API 호출 한도를 초과했습니다. 잠시 후 다시 시도해주세요"
  const ParseText: string := "AI 응답을 처리하는 중 오류가 발생했습니다"
  const KeyText: string := "AI 응답 형식이 예상과 다릅니다"
  const ShapeText: string := "Bedrock API 응답 형식이 올바르지 않습니다"
  const EmptySummaryText: string := "AI가 빈 요약을 반환했습니다"

  /** The truncation in `summarize_content`: an over-long input is cut to its first 50000 characters and marked with "...". */
  function Truncate(content: string): (t: string)
    ensures |content| <= MaxContent ==> t == content
    ensures |content| > MaxContent ==>
      |t| == MaxContent + 3 && t[..MaxContent] == content[..MaxContent] && t[MaxContent..] == "..."
    ensures |t| <= MaxContent + 3
  {
    if |content| > MaxContent then content[..MaxContent] + "..." else content
  }

  /** The request `summarize_content` builds for a (truncated) input, with defaults for absent parameters. */
  function Request(content: string, temperature: Option<real>, topK: Option<int>): BedrockRequest {
    BedrockRequest(AnthropicVersion, MaxTokens, temperature.GetOr(DefaultTemperature),
                   topK.GetOr(DefaultTopK), SystemPrompt, Instruction + content)
  }

  /** The defaults apply only to absent parameters, and the user message ends with the input. */
  lemma RequestShape(content: string, temperature: Option<real>, topK: Option<int>)
    ensures var req := Request(content, temperature, topK);
      && (temperature.None? ==> req.temperature == DefaultTemperature)
      && (temperature.Some? ==> req.temperature == temperature.value)
      && (topK.None? ==> req.topK == DefaultTopK)
      && (topK.Some? ==> req.topK == topK.value)
      && req.userMessage[|Instruction|..] == content
  {
  }

  /** The last handler of `summarize_content` for an exception whose message is known. */
  function Classify(message: string): (d: Detail)
    ensures Contains(LowerAscii(message), "credentials") ==> d == Literal(CredentialsText)
    ensures !Contains(LowerAscii(message), "credentials") && Contains(LowerAscii(message), "throttling") ==>
      d == Literal(ThrottlingText)
    ensures !Contains(LowerAscii(message), "credentials") && !Contains(LowerAscii(message), "throttling") ==>
      d == Literal(FailurePrefix + message)
  {
    var lowered := LowerAscii(message);
    if Contains(lowered, "credentials") then Literal(CredentialsText)
    else if Contains(lowered, "throttling") then Literal(ThrottlingText)
    else Literal(FailurePrefix + message)
  }

  /** A Python exception raised while reading the body: a `KeyError` has its own message. */
  function Handle(e: PyError): Detail {
    match e
    case KeyError(_) => Literal(KeyText)
    case _ => PrefixThenLibraryText(FailurePrefix)
  }

  /** The happy shape of the `content` list: `[{"text": "..."}, ...]`. */
  predicate WellFormedContent(content: Json) {
    && content.JArr? && |content.items| > 0
    && content.items[0].JObj? && "text" in content.items[0].fields
    && content.items[0].fields["text"].JStr?
  }

  /** The happy shape: `{"content": [{"text": "..."}, ...], ...}`. */
  predicate WellFormed(body: Json) {
    body.JObj? && "content" in body.fields && WellFormedContent(body.fields["content"])
  }

  function ContentText(content: Json): string
    requires WellFormedContent(content)
  {
    content.items[0].fields["text"].s
  }

  function FirstText(body: Json): string
    requires WellFormed(body)
  {
    ContentText(body.fields["content"])
  }

  /** In `summarize_content`, `content[0]["text"]`, or the error raised on the way. */
  function FirstTextOf(content: Json): (r: Result<string, Detail>)
    ensures r.Ok? <==> WellFormedContent(content)
    ensures r.Ok? ==> r.value == ContentText(content)
  {
    match First(content)
    case Err(e) => Err(Handle(e))
    case Ok(item) =>
      match GetItem(item, "text")
      case Err(e) => Err(Handle(e))
      case Ok(text) => if text.JStr? then Ok(text.s) else Err(PrefixThenLibraryText(FailurePrefix))
  }

  /** `summarize_content` on a truthy `content`: the stripped first text block, or the error raised. */
  function ReadContent(content: Json): (r: Result<string, Detail>)
    ensures WellFormedContent(content) ==>
      r == if Strip(ContentText(content)) == "" then Err(Literal(FailurePrefix + EmptySummaryText))
           else Ok(Strip(ContentText(content)))
    ensures r.Ok? ==> WellFormedContent(content) && r.value == Strip(ContentText(content))
  {
    match FirstTextOf(content)
    case Err(d) => Err(d)
    case Ok(text) =>
      var summary := Strip(text);
      if summary == "" then Err(Literal(FailurePrefix + EmptySummaryText)) else Ok(summary)
  }

  /**
   * `summarize_content` on a parsed value that is not a dict: `"content" in body`
   * tests list items or substrings (or raises), and `body["content"]` then
   * raises TypeError.
   */
  function NotADict(body: Json): (r: Result<string, Detail>)
    requires !body.JObj?
    ensures r.Err?
  {
    match In("content", body)
    case Err(e) => Err(Handle(e))
    case Ok(false) => Err(Literal(FailurePrefix + ShapeText))
    case Ok(true) => Err(Handle(TypeError))
  }

  /** `summarize_content` on the parsed body: the stripped first text block, or the error raised. */
  function ReadSummary(body: Json): (r: Result<string, Detail>)
    ensures WellFormed(body) ==> r == ReadContent(body.fields["content"])
    ensures r.Ok? ==> WellFormed(body) && r == ReadContent(body.fields["content"])
    ensures body.JObj? && ("content" !in body.fields || !Truthy(body.fields["content"])) ==>
      r == Err(Literal(FailurePrefix + ShapeText))
  {
    if !body.JObj? then NotADict(body)
    else if "content" !in body.fields || !Truthy(body.fields["content"]) then
      Err(Literal(FailurePrefix + ShapeText))
    else ReadContent(body.fields["content"])
  }

  /**
   * The outcome of the call: a client error classified, an unparsable body
   * the parse error, and a parsed body read as `ReadSummary` says.
   */
  function Interpret(outcome: InvokeOutcome): (r: Result<string, Detail>)
    ensures r.Ok? ==> r.value != "" && Strip(r.value) == r.value
    ensures outcome.Body? && outcome.parsed.None? ==> r == Err(Literal(ParseText))
    ensures outcome.Body? && outcome.parsed.Some? ==> r == ReadSummary(outcome.parsed.value)
    ensures outcome.ClientFault? ==> r == Err(Classify(outcome.message))
  {
    match outcome
    case ClientFault(message) => Err(Classify(message))
    case Body(None) => Err(Literal(ParseText))
    case Body(Some(body)) =>
      var r := ReadSummary(body);
      assert r.Ok? ==> Strip(r.value) == r.value by {
        if r.Ok? {
          StripIdempotent(ContentText(body.fields["content"]));
        }
      }
      r
  }

  /** `summarize_content`. */
  function Summarize(modelId: string, content: string, temperature: Option<real>, topK: Option<int>,
                     invoke: (string, BedrockRequest) -> InvokeOutcome): (r: Result<string, SummarizeError>)
    ensures r.Err? && r.error.InvalidInput? <==> IsBlank(content)
    ensures IsBlank(content) ==> r == Err(InvalidInput(EmptyInput))
    ensures !IsBlank(content) ==>
      match Interpret(invoke(modelId, Request(Truncate(content), temperature, topK)))
      case Ok(summary) => r == Ok(summary)
      case Err(d) => r == Err(Failed(d))
    ensures r.Ok? ==> r.value != "" && Strip(r.value) == r.value
  {
    if IsBlank(content) then Err(InvalidInput(EmptyInput))
    else
      match Interpret(invoke(modelId, Request(Truncate(content), temperature, topK)))
      case Ok(summary) => Ok(summary)
      case Err(d) => Err(Failed(d))
  }
}
