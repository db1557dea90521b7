/**
 * `POST /process` through the flow: a "Data_return" node stores the input
 * as a message, "Answer_return" stores nothing, any other node is reported
 * as unknown.  Nothing is written to the `history` table or the object store.
 */
module FlowRouter {
  import opened Wrappers
  import opened Json
  import opened Http
  import Dates
  import opened Uuids
  import opened Tables
  import FlowService

  /** The request model; `record_date`, `tags` and `s3_key` are accepted but unused. */
  datatype FlowRequest = FlowRequest(
    userId: string,
    content: string,
    recordDate: Dates.Date,
    tags: Option<seq<string>>,
    s3Key: Option<string>)

  datatype FlowResponse = FlowResponse(kind: string, content: string, message: Option<string>, historyId: Option<string>)

  const ErrorPrefix: string := "Flow 처리 중 오류가 발생했습니다: "

  /** The router's decision: whether a message is stored, and what is returned. */
  datatype Reply = Reply(storesMessage: bool, response: Result<FlowResponse, HttpError>)

  /**
   * `process_with_flow` on the flow's result.  A message is stored for a
   * "Data_return" node even when the response then fails because the
   * flow's content is not a string (the commit comes first).
   */
  function Respond(flow: Result<FlowService.FlowResult, Detail>, messageId: nat): (a: Reply)
    requires IsUuid(messageId)
    ensures a.storesMessage <==> flow.Ok? && flow.value.nodeName == JStr("Data_return")
    ensures a.response.Ok? <==> flow.Ok? && flow.value.content.JStr?
    ensures a.response.Ok? ==> a.response.value.content == flow.value.content.s
    ensures a.response.Ok? ==> (a.response.value.kind ==
      if flow.value.nodeName == JStr("Data_return") then "data"
      else if flow.value.nodeName == JStr("Answer_return") then "answer"
      else "unknown")
    ensures a.response.Ok? ==>
      a.response.value.historyId == if a.storesMessage then Some(Format(messageId)) else None
    ensures a.response.Err? ==> a.response.error.status == 500
    ensures flow.Err? ==> a.response == Err(HttpError(500, Prefixed(ErrorPrefix, flow.error)))
  {
    match flow
    case Err(e) => Reply(false, Err(HttpError(500, Prefixed(ErrorPrefix, e))))
    case Ok(result) =>
      var stores := result.nodeName == JStr("Data_return");
      if !result.content.JStr? then
        Reply(stores, Err(HttpError(500, PrefixThenLibraryText(ErrorPrefix))))
      else if stores then
        Reply(true, Ok(FlowResponse("data", result.content.s, Some("메시지가 저장되었습니다."),
                                    Some(Format(messageId)))))
      else if result.nodeName == JStr("Answer_return") then
        Reply(false, Ok(FlowResponse("answer", result.content.s, Some("질문에 대한 답변입니다."), None)))
      else
        Reply(false, Ok(FlowResponse("unknown", result.content.s, Some("처리 결과를 확인할 수 없습니다."), None)))
  }

  /** A failure inside the flow service reaches the client with the service's prefix twice. */
  lemma FlowFailureDetail(messageId: nat)
    requires IsUuid(messageId)
    ensures Respond(Err(FlowService.Wrapped), messageId).response ==
      Err(HttpError(500, PrefixThenLibraryText(ErrorPrefix + FlowService.ErrorPrefix)))
    ensures ErrorPrefix == FlowService.ErrorPrefix
  {
  }

  /**
   * `process_with_flow`: the flow runs on the request's content with
   * today's date, then at most one message is appended.
   */
  method ProcessWithFlow(db: Database, request: FlowRequest, today: Dates.Date, freshId: nat, now: int,
                         config: FlowService.FlowConfig, invoke: (string, string, string) -> FlowService.FlowCall)
    returns (r: Result<FlowResponse, HttpError>)
    requires db.Valid() && Dates.Valid(today)
    requires IsUuid(freshId) && FindMessage(db.messages, freshId).None?
    modifies db
    ensures db.Valid()
    ensures var flow := FlowService.Outcome(invoke(config.flowArn, FlowService.AliasId(config.flowAlias),
                                                   FlowService.CombinedInput(today, request.content)));
      var reply := Respond(flow, freshId);
      && r == reply.response
      && db.messages == old(db.messages)
           + (if reply.storesMessage then [Message(freshId, request.userId, request.content, now)] else [])
    ensures db.histories == old(db.histories) && db.nextHistoryId == old(db.nextHistoryId)
  {
    var flow := FlowService.InvokeFlow(config, request.content, None, today, invoke);
    var reply := Respond(flow, freshId);
    if reply.storesMessage {
      db.AddMessage(Message(freshId, request.userId, request.content, now));
    }
    r := reply.response;
  }
}
