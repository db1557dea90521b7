/**
 * The flow client: configuration checks, the single input document, the
 * alias identifier, and the fold of the flow's event stream into a node
 * name and a content.  The flow itself is a function parameter; any
 * failure comes out as one wrapped error.
 */
module FlowService {
  import opened Wrappers
  import opened Text
  import opened Json
  import opened Http
  import Dates
  import opened AgentPayload

  /** The service's configuration after construction. */
  datatype FlowConfig = FlowConfig(flowArn: string, flowAlias: string)

  const CredentialsMissing: string :=
    "AWS 자격증명이 설정되지 않았습니다. Secrets Manager 또는 환경변수를 확인해주세요."
  const ArnMissing: string := "BEDROCK_FLOW_ARN이 설정되지 않았습니다."

  /** `__init__`: credentials first, then the alias default, then the flow ARN. */
  function Configure(accessKeyId: Option<string>, secretAccessKey: Option<string>,
                     flowArn: Option<string>, flowAlias: Option<string>): (r: Result<FlowConfig, string>)
    ensures r.Ok? <==> Given(accessKeyId) && Given(secretAccessKey) && Given(flowArn)
    ensures !(Given(accessKeyId) && Given(secretAccessKey)) ==> r == Err(CredentialsMissing)
    ensures Given(accessKeyId) && Given(secretAccessKey) && !Given(flowArn) ==> r == Err(ArnMissing)
    ensures r.Ok? ==> r.value.flowArn == flowArn.value
    ensures r.Ok? ==> r.value.flowAlias == if Given(flowAlias) then flowAlias.value else "LIVE"
  {
    if !Given(accessKeyId) || !Given(secretAccessKey) then Err(CredentialsMissing)
    else
      var alias := if Given(flowAlias) then flowAlias.value else "LIVE";
      if !Given(flowArn) then Err(ArnMissing) else Ok(FlowConfig(flowArn.value, alias))
  }

  const DatePrefix: string := "current_date: "

  /** The document sent to the flow's input node. */
  function CombinedInput(date: Dates.Date, input: string): string
    requires Dates.Valid(date)
  {
    DatePrefix + Dates.Iso(date) + "\n\n" + input
  }

  /** Two documents with equally long date texts agree only when both parts agree. */
  lemma DocumentParts(i1: string, x1: string, i2: string, x2: string)
    requires |i1| == |i2|
    requires DatePrefix + i1 + "\n\n" + x1 == DatePrefix + i2 + "\n\n" + x2
    ensures i1 == i2 && x1 == x2
  {
    assert DatePrefix + i1 + "\n\n" + x1 == DatePrefix + i1 + ("\n\n" + x1);
    assert DatePrefix + i2 + "\n\n" + x2 == DatePrefix + i2 + ("\n\n" + x2);
    ConcatCancel(DatePrefix, i1, "\n\n" + x1, i2, "\n\n" + x2);
    assert x1 == ("\n\n" + x1)[2..] && x2 == ("\n\n" + x2)[2..];
  }

  /** The document determines both the date and the input it was built from. */
  lemma CombinedInputInjective(d1: Dates.Date, x1: string, d2: Dates.Date, x2: string)
    requires Dates.Valid(d1) && Dates.Valid(d2)
    requires CombinedInput(d1, x1) == CombinedInput(d2, x2)
    ensures d1 == d2 && x1 == x2
  {
    DocumentParts(Dates.Iso(d1), x1, Dates.Iso(d2), x2);
    Dates.IsoInjective(d1, d2);
  }

  const AliasArnPrefix: string := "arn:aws:bedrock:"

  /** The alias identifier `invoke_flow` sends with the call. */
  function AliasId(alias: string): (id: string)
    ensures !StartsWith(alias, AliasArnPrefix) ==> id == alias
    ensures StartsWith(alias, AliasArnPrefix) ==>
      && '/' !in id && |id| <= |alias| && id == alias[|alias| - |id|..]
      && (|id| < |alias| ==> alias[|alias| - |id| - 1] == '/')
  {
    if StartsWith(alias, AliasArnPrefix) then
      LastPieceIsTail(alias, '/');
      LastPiece(alias, '/')
    else alias
  }

  /** `node_name` and `flow_completion` as the loop leaves them: any parsed values. */
  datatype FlowOutput = FlowOutput(nodeName: Json, content: Json)

  const Initial: FlowOutput := FlowOutput(JStr(""), JStr(""))

  /** One event of the loop over the response stream in `invoke_flow`, or the exception it raises. */
  function Step(acc: FlowOutput, event: Json): Result<FlowOutput, PyError> {
    match In("flowOutputEvent", event)
    case Err(e) => Err(e)
    case Ok(false) => Ok(acc)
    case Ok(true) =>
      match GetItem(event, "flowOutputEvent")
      case Err(e) => Err(e)
      case Ok(out) =>
        if !out.JObj? then Err(AttributeError)
        else
          var node := Get(out.fields, "nodeName", JStr(""));
          var content := Get(out.fields, "content", JObj(map[]));
          match In("document", content)
          case Err(e) => Err(e)
          case Ok(true) =>
            (match GetItem(content, "document")
             case Err(e) => Err(e)
             case Ok(d) => Ok(FlowOutput(node, d)))
          case Ok(false) => Ok(FlowOutput(node, if content.JStr? then content else acc.content))
  }

  /** The loop over a whole stream, event by event from the first. */
  function Fold(events: seq<Json>): Result<FlowOutput, PyError>
  {
    if |events| == 0 then Ok(Initial)
    else match Fold(events[..|events| - 1])
      case Err(e) => Err(e)
      case Ok(acc) => Step(acc, events[|events| - 1])
  }

  /** An event that is a dict carrying a `flowOutputEvent` dict. */
  predicate IsOutput(e: Json) {
    e.JObj? && "flowOutputEvent" in e.fields && e.fields["flowOutputEvent"].JObj?
  }

  /** The content an output event carries. */
  function ContentOf(e: Json): Json
    requires IsOutput(e)
  {
    Get(e.fields["flowOutputEvent"].fields, "content", JObj(map[]))
  }

  /** What an output event sets the content to: a `document` entry, or a plain string content. */
  function Carried(e: Json): Option<Json> {
    if !IsOutput(e) then None
    else
      var c := ContentOf(e);
      if c.JObj? && "document" in c.fields then Some(c.fields["document"])
      else if c.JStr? then Some(c)
      else None
  }

  /** An output event whose content is a string mentioning "document", which `content['document']` cannot index. */
  predicate Poisoned(e: Json) {
    IsOutput(e) && ContentOf(e).JStr? && Contains(ContentOf(e).s, "document")
  }

  /** The node name of the last output event, or "". */
  function LastNode(events: seq<Json>): Json {
    if |events| == 0 then JStr("")
    else
      var e := events[|events| - 1];
      if IsOutput(e) then Get(e.fields["flowOutputEvent"].fields, "nodeName", JStr(""))
      else LastNode(events[..|events| - 1])
  }

  /** The content carried by the last event that carried one, or "". */
  function LastContent(events: seq<Json>): Json {
    if |events| == 0 then JStr("")
    else
      var c := Carried(events[|events| - 1]);
      if c.Some? then c.value else LastContent(events[..|events| - 1])
  }

  /** A fold that completes reports the last output event's node and the last carried content. */
  lemma {:induction false} FoldLastWins(events: seq<Json>)
    requires Fold(events).Ok?
    ensures Fold(events).value == FlowOutput(LastNode(events), LastContent(events))
    decreases |events|
  {
    if |events| > 0 {
      var init := events[..|events| - 1];
      FoldLastWins(init);
    }
  }

  /** A string content mentioning "document" anywhere in the stream makes the whole fold fail. */
  lemma {:induction false} PoisonedFails(events: seq<Json>, i: nat)
    requires i < |events| && Poisoned(events[i])
    ensures Fold(events).Err?
    decreases |events|
  {
    var init := events[..|events| - 1];
    if i < |events| - 1 {
      assert init[i] == events[i];
      PoisonedFails(init, i);
    }
  }

  /** A stream of dicts none of which is an output event leaves both values at "". */
  lemma {:induction false} NoOutputEvents(events: seq<Json>)
    requires forall k :: 0 <= k < |events| ==>
      events[k].JObj? && "flowOutputEvent" !in events[k].fields
    ensures Fold(events) == Ok(Initial)
    decreases |events|
  {
    if |events| > 0 {
      NoOutputEvents(events[..|events| - 1]);
    }
  }

  /** The fold as the service runs it: a loop over the stream that stops at the first exception. */
  method FoldStream(events: seq<Json>) returns (r: Result<FlowOutput, PyError>)
    ensures r == Fold(events)
  {
    var acc := Initial;
    var i := 0;
    while i < |events|
      invariant 0 <= i <= |events|
      invariant Fold(events[..i]) == Ok(acc)
    {
      assert events[..i + 1][..i] == events[..i];
      var next := Step(acc, events[i]);
      if next.Err? {
        FoldErrSticky(events, i + 1);
        return Err(next.error);
      }
      acc := next.value;
      i := i + 1;
    }
    assert events[..i] == events;
    r := Ok(acc);
  }

  /** Once the fold of a prefix fails, the fold of the whole stream fails the same way. */
  lemma {:induction false} FoldErrSticky(events: seq<Json>, n: nat)
    requires n <= |events| && Fold(events[..n]).Err?
    ensures Fold(events) == Fold(events[..n])
    decreases |events| - n
  {
    if n == |events| {
      assert events[..n] == events;
    } else {
      assert events[..n + 1][..n] == events[..n];
      FoldErrSticky(events, n + 1);
    }
  }

  /** The service's result dict (without the raw response). */
  datatype FlowResult = FlowResult(nodeName: Json, content: Json, isQuestion: bool)

  /** What the flow call returned: it raised, or a response with or without a `responseStream`. */
  datatype FlowCall = CallFailed | Responded(stream: Option<seq<Json>>)

  const ErrorPrefix: string := "Flow 처리 중 오류가 발생했습니다: "

  /** The single wrapped exception: the prefix, then the message of whatever was raised. */
  const Wrapped: Detail := PrefixThenLibraryText(ErrorPrefix)

  /** `invoke_flow` on what the call returned: the stream folded into the result dict, or the wrapped error. */
  function Outcome(call: FlowCall): (r: Result<FlowResult, Detail>)
    ensures call.CallFailed? ==> r == Err(Wrapped)
    ensures call.Responded? && call.stream.None? ==> r == Ok(FlowResult(JStr(""), JStr(""), false))
    ensures call.Responded? && call.stream.Some? && Fold(call.stream.value).Err? ==> r == Err(Wrapped)
    ensures call.Responded? && call.stream.Some? && Fold(call.stream.value).Ok? ==>
      r.Ok? && r.value.nodeName == LastNode(call.stream.value)
      && r.value.content == LastContent(call.stream.value)
    ensures r.Err? ==> r.error == Wrapped
    ensures r.Ok? ==> (r.value.isQuestion <==> r.value.nodeName == JStr("Answer_return"))
  {
    match call
    case CallFailed => Err(Wrapped)
    case Responded(None) => Ok(FlowResult(Initial.nodeName, Initial.content, false))
    case Responded(Some(events)) =>
      match Fold(events)
      case Err(_) => Err(Wrapped)
      case Ok(out) =>
        FoldLastWins(events);
        Ok(FlowResult(out.nodeName, out.content, out.nodeName == JStr("Answer_return")))
  }

  /**
   * `invoke_flow`: the document for the given date (today when none), the
   * alias identifier, the call, and the fold of its stream.
   */
  method InvokeFlow(config: FlowConfig, input: string, currentDate: Option<Dates.Date>, today: Dates.Date,
                    invoke: (string, string, string) -> FlowCall)
    returns (r: Result<FlowResult, Detail>)
    requires Dates.Valid(today) && (currentDate.Some? ==> Dates.Valid(currentDate.value))
    ensures r == Outcome(invoke(config.flowArn, AliasId(config.flowAlias),
                                CombinedInput(currentDate.GetOr(today), input)))
  {
    var date := currentDate.GetOr(today);
    var document := CombinedInput(date, input);
    var call := invoke(config.flowArn, AliasId(config.flowAlias), document);
    if call.CallFailed? {
      return Err(Wrapped);
    }
    var out := Initial;
    if call.stream.Some? {
      var folded := FoldStream(call.stream.value);
      if folded.Err? {
        return Err(Wrapped);
      }
      out := folded.value;
    }
    r := Ok(FlowResult(out.nodeName, out.content, out.nodeName == JStr("Answer_return")));
  }
}
