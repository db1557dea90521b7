/**
 * `POST /process` through the agent HTTP client: the agent's result type
 * decides whether a message is stored, nothing is stored, or the diary for
 * (user, date) is created or updated.
 */
module AgentRouter {
  import opened Wrappers
  import opened Json
  import opened Numerals
  import opened Http
  import Dates
  import opened Uuids
  import opened Tables
  import opened AgentPayload
  import AgentApi

  datatype AgentRequest = AgentRequest(
    userId: string,
    content: string,
    requestType: Option<string>,
    temperature: Option<real>,
    recordDate: Option<Dates.Date>,
    tags: Option<seq<string>>,
    s3Key: Option<string>)

  /** The response model; `history_id` is a string when present. */
  datatype AgentResponse = AgentResponse(kind: string, content: string, message: string, historyId: Option<string>)

  const ErrorPrefix: string := "AI 처리 중 오류가 발생했습니다: "

  /** The 500 raised for any exception: the prefix, then `str(e)` when the model knows it. */
  function Failure(text: Option<string>): HttpError {
    HttpError(500, if text.Some? then Literal(ErrorPrefix + text.value) else PrefixThenLibraryText(ErrorPrefix))
  }

  /** `str(KeyError(key))`. */
  function KeyErrorText(key: string): string {
    "'" + key + "'"
  }

  /** The date sent to the agent and used for the diary: the request's, else today. */
  function Target(request: AgentRequest, today: Dates.Date): Dates.Date {
    request.recordDate.GetOr(today)
  }

  predicate TypeIs(result: map<string, Json>, t: string) {
    "type" in result && result["type"] == JStr(t)
  }

  predicate StringContent(result: map<string, Json>) {
    "content" in result && result["content"].JStr?
  }

  /**
   * What the router does with the agent's reply.  `DiaryThenFail` is a
   * diary whose content is not a string but which the database accepts:
   * the row is committed with the database's text form of the value, and
   * only then does the response model reject the value.
   */
  datatype Action =
    | Fail(error: HttpError)
    | StoreMessage
    | Answer(content: string)
    | Diary(content: string)
    | DiaryThenFail(content: string)
    | Unknown(content: string)

  /**
   * A number, boolean or list, which the driver sends and a text column
   * takes through an assignment cast; `null` breaks the NOT NULL
   * constraint and an object cannot be sent at all.
   */
  predicate Castable(j: Json) {
    j.JNum? || j.JBool? || j.JArr?
  }

  /** `agent_result["content"]`, which the response model then requires to be a string. */
  function ContentOf(result: map<string, Json>): Result<string, HttpError> {
    if "content" !in result then Err(Failure(Some(KeyErrorText("content"))))
    else if result["content"].JStr? then Ok(result["content"].s)
    else Err(Failure(None))
  }

  /**
   * `process_with_agent` without the database: the branch taken, or the 500
   * raised.  `rendered` is the text the database keeps for a castable
   * value, or None when it rejects that value.
   */
  function Decide(reply: Result<map<string, Json>, AgentApi.AgentApiError>, rendered: Json -> Option<string>): (a: Action)
    ensures a.Fail? ==> a.error.status == 500
    ensures reply.Err? ==> a == Fail(Failure(AgentApi.ErrorText(reply.error)))
    ensures reply.Ok? && "type" !in reply.value ==> a == Fail(Failure(Some(KeyErrorText("type"))))
    ensures a.StoreMessage? <==> reply.Ok? && TypeIs(reply.value, "data")
    ensures a.Answer? <==> reply.Ok? && TypeIs(reply.value, "answer") && StringContent(reply.value)
    ensures a.Diary? <==> reply.Ok? && TypeIs(reply.value, "diary") && StringContent(reply.value)
    ensures a.Answer? || a.Diary? ==> reply.value["content"] == JStr(a.content)
    ensures a.DiaryThenFail? <==> (
      && reply.Ok? && TypeIs(reply.value, "diary") && "content" in reply.value
      && Castable(reply.value["content"]) && rendered(reply.value["content"]).Some?)
    ensures a.DiaryThenFail? ==> rendered(reply.value["content"]) == Some(a.content)
    ensures a.Unknown? <==> (
      && reply.Ok? && "type" in reply.value
      && reply.value["type"] !in {JStr("data"), JStr("answer"), JStr("diary")}
      && Get(reply.value, "content", JStr("")).JStr?)
    ensures a.Unknown? ==> Get(reply.value, "content", JStr("")) == JStr(a.content)
  {
    match reply
    case Err(e) => Fail(Failure(AgentApi.ErrorText(e)))
    case Ok(result) =>
      if "type" !in result then Fail(Failure(Some(KeyErrorText("type"))))
      else if result["type"] == JStr("data") then StoreMessage
      else if result["type"] == JStr("answer") then
        match ContentOf(result)
        case Ok(c) => Answer(c)
        case Err(e) => Fail(e)
      else if result["type"] == JStr("diary") then
        if "content" in result && Castable(result["content"]) then
          match rendered(result["content"])
          case Some(text) => DiaryThenFail(text)
          case None => Fail(Failure(None))
        else
          match ContentOf(result)
          case Ok(c) => Diary(c)
          case Err(e) => Fail(e)
      else
        var c := Get(result, "content", JStr(""));
        if c.JStr? then Unknown(c.s) else Fail(Failure(None))
  }

  /** The update branch: content always, `s3_key` and `tags` only when the request supplies non-empty ones. */
  function MergeDiary(row: History, content: string, tags: Option<seq<string>>, s3Key: Option<string>): History {
    row.(content := content,
         s3Key := if Given(s3Key) then s3Key else row.s3Key,
         tags := if tags.Some? && |tags.value| > 0 then tags else row.tags)
  }

  /** The `history` table after the diary branch, the id it reports, and whether a row was added. */
  datatype Upserted = Upserted(rows: seq<History>, id: nat, created: bool)

  /** The diary branch: update the first row for (user, date), or append a new one with the next id. */
  function UpsertDiary(hs: seq<History>, nextId: nat, user: string, date: Dates.Date, content: string,
                       tags: Option<seq<string>>, s3Key: Option<string>): (u: Upserted)
    ensures u.created <==> FindUserDate(hs, user, date).None?
    ensures |u.rows| == |hs| + (if u.created then 1 else 0)
    ensures forall k :: 0 <= k < |hs| && (hs[k].userId != user || hs[k].recordDate != date) ==>
      u.rows[k] == hs[k]
  {
    match FindUserDate(hs, user, date)
    case Some(i) => Upserted(hs[i := MergeDiary(hs[i], content, tags, s3Key)], hs[i].id, false)
    case None => Upserted(hs + [History(nextId, user, content, date, tags, s3Key)], nextId, true)
  }

  /**
   * After the upsert, looking (user, date) up finds the row with the reported
   * id and the new content; a new row carries the request's tags and key, an
   * updated one takes them only when they are supplied non-empty.
   */
  lemma UpsertStores(hs: seq<History>, nextId: nat, user: string, date: Dates.Date, content: string,
                     tags: Option<seq<string>>, s3Key: Option<string>)
    ensures var u := UpsertDiary(hs, nextId, user, date, content, tags, s3Key);
      var f := FindUserDate(u.rows, user, date);
      && f.Some?
      && u.rows[f.value].id == u.id
      && u.rows[f.value].content == content
      && (u.created || Given(s3Key) ==> u.rows[f.value].s3Key == s3Key)
      && (u.created || (tags.Some? && |tags.value| > 0) ==> u.rows[f.value].tags == tags)
      && (!u.created ==> f == FindUserDate(hs, user, date) && u.id == hs[f.value].id)
      && (!u.created && !Given(s3Key) ==> u.rows[f.value].s3Key == hs[f.value].s3Key)
      && (!u.created && !(tags.Some? && |tags.value| > 0) ==> u.rows[f.value].tags == hs[f.value].tags)
  {
    var u := UpsertDiary(hs, nextId, user, date, content, tags, s3Key);
    match FindUserDate(hs, user, date)
    case None =>
      assert u.rows[|hs|].userId == user && u.rows[|hs|].recordDate == date;
    case Some(i) =>
      assert u.rows[i].userId == user && u.rows[i].recordDate == date;
  }

  /** The diary branch keeps (user, date) unique: it never adds a second row for a key. */
  lemma UpsertKeepsOnePerUserDate(hs: seq<History>, nextId: nat, user: string, date: Dates.Date,
                                  content: string, tags: Option<seq<string>>, s3Key: Option<string>)
    requires OnePerUserDate(hs)
    ensures OnePerUserDate(UpsertDiary(hs, nextId, user, date, content, tags, s3Key).rows)
  {
    var u := UpsertDiary(hs, nextId, user, date, content, tags, s3Key);
    forall i, j | 0 <= i < j < |u.rows|
      ensures u.rows[i].userId != u.rows[j].userId || u.rows[i].recordDate != u.rows[j].recordDate
    {
      assert forall k :: 0 <= k < |hs| ==>
        u.rows[k].userId == hs[k].userId && u.rows[k].recordDate == hs[k].recordDate;
      if j == |hs| {
        assert u.created;
      }
    }
  }

  /** Repeating the same diary request changes nothing more: no second row, same id, same table. */
  lemma UpsertIdempotent(hs: seq<History>, nextId: nat, user: string, date: Dates.Date,
                         content: string, tags: Option<seq<string>>, s3Key: Option<string>)
    ensures var u := UpsertDiary(hs, nextId, user, date, content, tags, s3Key);
      var v := UpsertDiary(u.rows, nextId + 1, user, date, content, tags, s3Key);
      !v.created && v.rows == u.rows && v.id == u.id
  {
    UpsertStores(hs, nextId, user, date, content, tags, s3Key);
    var u := UpsertDiary(hs, nextId, user, date, content, tags, s3Key);
    var f := FindUserDate(u.rows, user, date);
    assert MergeDiary(u.rows[f.value], content, tags, s3Key) == u.rows[f.value];
  }

  /** The diary branch on the tables: the upsert, committed; the id of the row is returned. */
  method UpsertInto(db: Database, user: string, date: Dates.Date, content: string,
                    tags: Option<seq<string>>, s3Key: Option<string>)
    returns (historyId: nat)
    requires db.Valid() && Dates.Valid(date)
    modifies db
    ensures db.Valid()
    ensures var u := UpsertDiary(old(db.histories), old(db.nextHistoryId), user, date, content, tags, s3Key);
      && historyId == u.id && db.histories == u.rows
      && db.nextHistoryId == old(db.nextHistoryId) + (if u.created then 1 else 0)
    ensures db.messages == old(db.messages)
  {
    match FindUserDate(db.histories, user, date) {
      case Some(i) =>
        historyId := db.histories[i].id;
        db.ReplaceHistoryAt(i, MergeDiary(db.histories[i], content, tags, s3Key));
      case None =>
        var row := db.AddHistory(user, content, date, tags, s3Key);
        historyId := row.id;
    }
  }

  /**
   * `process_with_agent`: call the agent with the target date, then store a
   * message, store nothing, or upsert the diary, as its result type says.
   * A diary with castable content is committed before the 500.
   */
  method ProcessWithAgent(db: Database, request: AgentRequest, today: Dates.Date, freshId: nat, now: int,
                          baseUrl: string, post: (string, map<string, Json>) -> AgentApi.HttpOutcome,
                          rendered: Json -> Option<string>)
    returns (r: Result<AgentResponse, HttpError>)
    requires db.Valid() && Dates.Valid(today)
    requires request.recordDate.Some? ==> Dates.Valid(request.recordDate.value)
    requires IsUuid(freshId) && FindMessage(db.messages, freshId).None?
    modifies db
    ensures db.Valid()
    ensures var target := Target(request, today);
      var reply := AgentApi.Interpret(post(AgentApi.Endpoint(baseUrl),
        Payload(request.content, request.userId, request.requestType, request.temperature,
                Some(Dates.Iso(target)))));
      var action := Decide(reply, rendered);
      && (action.Fail? ==> r == Err(action.error))
      && (action.StoreMessage? ==>
            && r == Ok(AgentResponse("data", "", "메시지가 저장되었습니다.", Some(Format(freshId))))
            && db.messages == old(db.messages) + [Message(freshId, request.userId, request.content, now)]
            && db.histories == old(db.histories) && db.nextHistoryId == old(db.nextHistoryId))
      && (action.Answer? ==> r == Ok(AgentResponse("answer", action.content, "질문에 대한 답변입니다.", None)))
      && (action.Unknown? ==>
            r == Ok(AgentResponse("unknown", action.content, "처리 결과를 확인할 수 없습니다.", None)))
      && (action.Diary? || action.DiaryThenFail? ==>
            var u := UpsertDiary(old(db.histories), old(db.nextHistoryId), request.userId, target,
                                 action.content, request.tags, request.s3Key);
            && r == (if action.Diary?
                     then Ok(AgentResponse("diary", action.content, "일기가 생성되었습니다.", Some(Decimal(u.id))))
                     else Err(Failure(None)))
            && db.histories == u.rows && db.messages == old(db.messages)
            && db.nextHistoryId == old(db.nextHistoryId) + (if u.created then 1 else 0))
      && (!action.StoreMessage? && !action.Diary? && !action.DiaryThenFail? ==>
            db.messages == old(db.messages) && db.histories == old(db.histories)
            && db.nextHistoryId == old(db.nextHistoryId))
  {
    var target := Target(request, today);
    var reply := AgentApi.Orchestrate(baseUrl, request.content, request.userId, request.requestType,
                                      request.temperature, Some(Dates.Iso(target)), post);
    var action := Decide(reply, rendered);
    match action {
      case Fail(e) =>
        r := Err(e);
      case StoreMessage =>
        db.AddMessage(Message(freshId, request.userId, request.content, now));
        r := Ok(AgentResponse("data", "", "메시지가 저장되었습니다.", Some(Format(freshId))));
      case Answer(c) =>
        r := Ok(AgentResponse("answer", c, "질문에 대한 답변입니다.", None));
      case Diary(c) =>
        var historyId := UpsertInto(db, request.userId, target, c, request.tags, request.s3Key);
        r := Ok(AgentResponse("diary", c, "일기가 생성되었습니다.", Some(Decimal(historyId))));
      case DiaryThenFail(text) =>
        var _ := UpsertInto(db, request.userId, target, text, request.tags, request.s3Key);
        r := Err(Failure(None));
      case Unknown(c) =>
        r := Ok(AgentResponse("unknown", c, "처리 결과를 확인할 수 없습니다.", None));
    }
  }
}
