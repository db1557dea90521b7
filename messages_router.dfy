/**
 * `/messages`: listings of the `messages` table (optionally one user's,
 * optionally today's only) oldest first with offset and limit, creation,
 * and lookup and deletion by UUID text.
 */
module MessagesRouter {
  import opened Wrappers
  import opened Text
  import opened Http
  import opened Uuids
  import opened Tables
  import opened Ordering
  import opened AgentPayload

  /** `if user_id:` — the user filter applies only to a non-empty user id. */
  predicate MatchesUser(m: Message, userId: Option<string>) {
    !Given(userId) || m.userId == userId.value
  }

  /** `ORDER BY created_at ASC OFFSET offset LIMIT limit` over the rows that `keep` admits. */
  function Listing(messages: seq<Message>, keep: Message -> bool, offset: nat, limit: nat): seq<Message> {
    Query(messages, keep, CreatedAt, offset, limit)
  }

  /** `get_messages_content_only`: the selected contents joined by ", ". */
  function ContentOnly(messages: seq<Message>, userId: Option<string>, limit: nat, offset: nat): (r: string)
    ensures var rows := Listing(messages, (m: Message) => MatchesUser(m, userId), offset, limit);
      && (rows == [] ==> r == "")
      && (forall k :: 0 <= k < |rows| ==> Contains(r, rows[k].content))
  {
    var contents := ContentsOf(Listing(messages, (m: Message) => MatchesUser(m, userId), offset, limit));
    JoinContainsParts(contents, ", ");
    Join(contents, ", ")
  }

  /** Microseconds in a day minus one: `today_end` is 23:59:59.999999. */
  const DayMicros: int := 86_400_000_000

  predicate Today(m: Message, dayStart: int) {
    dayStart <= m.createdAt <= dayStart + DayMicros - 1
  }

  predicate ListedToday(m: Message, userId: Option<string>, dayStart: int) {
    Today(m, dayStart) && MatchesUser(m, userId)
  }

  function ListedTodayBy(userId: Option<string>, dayStart: int): Message -> bool {
    (m: Message) => ListedToday(m, userId, dayStart)
  }

  /** The response model of a row: the UUID as text. */
  datatype MessageResponse = MessageResponse(id: string, userId: string, content: string, createdAt: int)

  function Respond(m: Message): MessageResponse
    requires IsUuid(m.id)
  {
    MessageResponse(Format(m.id), m.userId, m.content, m.createdAt)
  }

  /** The response models of rows, in order. */
  function RespondAll(rows: seq<Message>): (r: seq<MessageResponse>)
    requires forall k :: 0 <= k < |rows| ==> IsUuid(rows[k].id)
    ensures |r| == |rows|
    ensures forall k :: 0 <= k < |r| ==> r[k] == Respond(rows[k])
  {
    seq(|rows|, k requires 0 <= k < |rows| => Respond(rows[k]))
  }

  /** Every listed row carries a UUID and is one of today's, for the asked user. */
  lemma ListedRowsFacts(messages: seq<Message>, userId: Option<string>, limit: nat, offset: nat, dayStart: int)
    requires forall k :: 0 <= k < |messages| ==> IsUuid(messages[k].id)
    ensures var rows := Listing(messages, ListedTodayBy(userId, dayStart), offset, limit);
      forall k :: 0 <= k < |rows| ==> IsUuid(rows[k].id) && ListedToday(rows[k], userId, dayStart)
  {
    var rows := Listing(messages, ListedTodayBy(userId, dayStart), offset, limit);
    forall k | 0 <= k < |rows| ensures IsUuid(rows[k].id) && ListedToday(rows[k], userId, dayStart) {
      assert ListedTodayBy(userId, dayStart)(rows[k]);
      assert rows[k] in messages;
      var j :| 0 <= j < |messages| && messages[j] == rows[k];
    }
  }

  /** `resp` is the response model of one of today's table rows for the asked user. */
  predicate AnswersListedRow(resp: MessageResponse, messages: seq<Message>, userId: Option<string>, dayStart: int)
    requires forall k :: 0 <= k < |messages| ==> IsUuid(messages[k].id)
  {
    exists j :: 0 <= j < |messages| && ListedToday(messages[j], userId, dayStart) && resp == Respond(messages[j])
  }

  /** Every listed row answers for one of today's table rows, for the asked user. */
  lemma RespondedRowsListed(messages: seq<Message>, userId: Option<string>, rows: seq<Message>, dayStart: int)
    requires forall k :: 0 <= k < |messages| ==> IsUuid(messages[k].id)
    requires forall k :: 0 <= k < |rows| ==> rows[k] in messages && IsUuid(rows[k].id) && ListedToday(rows[k], userId, dayStart)
    ensures forall k :: 0 <= k < |rows| ==> AnswersListedRow(RespondAll(rows)[k], messages, userId, dayStart)
  {
    forall k | 0 <= k < |rows| ensures AnswersListedRow(RespondAll(rows)[k], messages, userId, dayStart) {
      var j :| 0 <= j < |messages| && messages[j] == rows[k];
      assert ListedToday(messages[j], userId, dayStart) && RespondAll(rows)[k] == Respond(messages[j]);
    }
  }

  /** A table row whose response is not on the page is not on the page. */
  lemma RespondedMembers(messages: seq<Message>, rows: seq<Message>)
    requires forall k :: 0 <= k < |messages| ==> IsUuid(messages[k].id)
    requires forall k :: 0 <= k < |rows| ==> IsUuid(rows[k].id)
    ensures forall j :: 0 <= j < |messages| && Respond(messages[j]) !in RespondAll(rows) ==> messages[j] !in rows
  {
    var r := RespondAll(rows);
    forall j | 0 <= j < |messages| && messages[j] in rows ensures Respond(messages[j]) in r {
      var k :| 0 <= k < |rows| && rows[k] == messages[j];
      assert r[k] == Respond(messages[j]);
    }
  }

  /**
   * Every row of the listing of today's messages carries a UUID, and its
   * response answers for one of today's rows; the responses keep the
   * listing's order and size.
   */
  lemma ListTodayFacts(messages: seq<Message>, userId: Option<string>, limit: nat, offset: nat, dayStart: int)
    requires forall k :: 0 <= k < |messages| ==> IsUuid(messages[k].id)
    ensures var rows := Listing(messages, ListedTodayBy(userId, dayStart), offset, limit);
      && (forall k :: 0 <= k < |rows| ==> IsUuid(rows[k].id))
      && (forall k :: 0 <= k < |rows| ==> AnswersListedRow(RespondAll(rows)[k], messages, userId, dayStart))
      && var r := RespondAll(rows);
      && (forall i, j :: 0 <= i < j < |r| ==> r[i].createdAt <= r[j].createdAt)
      && (var n := |Filter(messages, ListedTodayBy(userId, dayStart))|;
           offset <= n ==> |r| == if n - offset < limit then n - offset else limit)
  {
    var rows := Listing(messages, ListedTodayBy(userId, dayStart), offset, limit);
    ListedRowsFacts(messages, userId, limit, offset, dayStart);
    RespondedRowsListed(messages, userId, rows, dayStart);
    var r := RespondAll(rows);
    forall i, j | 0 <= i < j < |r| ensures r[i].createdAt <= r[j].createdAt {
      assert CreatedAt(rows[i]) <= CreatedAt(rows[j]);
    }
  }

  /**
   * A first page of today's messages answers for all of them when they fit,
   * and otherwise for none older than a message it leaves out.
   */
  lemma FirstPageToday(messages: seq<Message>, userId: Option<string>, limit: nat, dayStart: int)
    requires forall k :: 0 <= k < |messages| ==> IsUuid(messages[k].id)
    ensures var rows := Listing(messages, ListedTodayBy(userId, dayStart), 0, limit);
      && (forall k :: 0 <= k < |rows| ==> IsUuid(rows[k].id))
      && var r := RespondAll(rows);
      && (|Filter(messages, ListedTodayBy(userId, dayStart))| <= limit ==>
           forall j :: 0 <= j < |messages| && ListedToday(messages[j], userId, dayStart) ==> Respond(messages[j]) in r)
      && (forall j :: 0 <= j < |messages| && ListedToday(messages[j], userId, dayStart) && Respond(messages[j]) !in r ==>
            forall k :: 0 <= k < |r| ==> r[k].createdAt <= messages[j].createdAt)
  {
    var rows := Listing(messages, ListedTodayBy(userId, dayStart), 0, limit);
    ListedRowsFacts(messages, userId, limit, 0, dayStart);
    RespondedMembers(messages, rows);
    forall j | 0 <= j < |messages| && ListedToday(messages[j], userId, dayStart)
      ensures ListedTodayBy(userId, dayStart)(messages[j])
    {
    }
  }

  /** `r` answers, in order, the rows of the page at `offset` of today's listing. */
  ghost predicate AnswersPage(r: seq<MessageResponse>, messages: seq<Message>, userId: Option<string>,
                              dayStart: int, offset: nat, limit: nat) {
    exists rows: seq<Message> :: PageOfKept(rows, messages, ListedTodayBy(userId, dayStart), CreatedAt, offset, limit)
      && |rows| == |r| && forall k :: 0 <= k < |r| ==> (IsUuid(rows[k].id) && r[k] == Respond(rows[k]))
  }

  /** The responses of a listing page answer that page. */
  lemma RespondAllAnswersPage(messages: seq<Message>, userId: Option<string>, limit: nat, offset: nat, dayStart: int)
    requires forall k :: 0 <= k < |messages| ==> IsUuid(messages[k].id)
    ensures var rows := Listing(messages, ListedTodayBy(userId, dayStart), offset, limit);
      && (forall k :: 0 <= k < |rows| ==> IsUuid(rows[k].id))
      && AnswersPage(RespondAll(rows), messages, userId, dayStart, offset, limit)
  {
    var rows := Listing(messages, ListedTodayBy(userId, dayStart), offset, limit);
    forall k | 0 <= k < |rows| ensures IsUuid(rows[k].id) {
      assert rows[k] in messages;
    }
    assert PageOfKept(rows, messages, ListedTodayBy(userId, dayStart), CreatedAt, offset, limit);
    var r := RespondAll(rows);
    assert |rows| == |r| && forall k :: 0 <= k < |r| ==> (IsUuid(rows[k].id) && r[k] == Respond(rows[k]));
  }

  /**
   * `get_messages`: today's messages (optionally one user's), oldest first,
   * `offset` skipped and at most `limit` taken.  A first page holds every
   * such message when they fit, and otherwise none it leaves out is older
   * than a message on it.
   */
  function ListToday(messages: seq<Message>, userId: Option<string>, limit: nat, offset: nat, dayStart: int)
    : (r: seq<MessageResponse>)
    requires forall k :: 0 <= k < |messages| ==> IsUuid(messages[k].id)
    ensures forall k :: 0 <= k < |r| ==>
      dayStart <= r[k].createdAt < dayStart + DayMicros
      && (Given(userId) ==> r[k].userId == userId.value)
    ensures forall k :: 0 <= k < |r| ==> AnswersListedRow(r[k], messages, userId, dayStart)
    ensures forall i, j :: 0 <= i < j < |r| ==> r[i].createdAt <= r[j].createdAt
    ensures |r| <= limit
    ensures var n := |Filter(messages, ListedTodayBy(userId, dayStart))|;
      offset <= n ==> |r| == if n - offset < limit then n - offset else limit
    ensures offset == 0 && |Filter(messages, ListedTodayBy(userId, dayStart))| <= limit ==>
      forall j :: 0 <= j < |messages| && ListedToday(messages[j], userId, dayStart) ==> Respond(messages[j]) in r
    ensures offset == 0 ==>
      forall j :: 0 <= j < |messages| && ListedToday(messages[j], userId, dayStart) && Respond(messages[j]) !in r ==>
        forall k :: 0 <= k < |r| ==> r[k].createdAt <= messages[j].createdAt
    ensures AnswersPage(r, messages, userId, dayStart, offset, limit)
  {
    var rows := Listing(messages, ListedTodayBy(userId, dayStart), offset, limit);
    ListTodayFacts(messages, userId, limit, offset, dayStart);
    RespondAllAnswersPage(messages, userId, limit, offset, dayStart);
    if offset == 0 then FirstPageToday(messages, userId, limit, dayStart); RespondAll(rows)
    else RespondAll(rows)
  }

  const InvalidUuid: string := "유효하지 않은 UUID 형식입니다"
  const MessageNotFound: string := "메시지를 찾을 수 없습니다"

  /** The lookup both `get_message_by_id` and `delete_message` start with: the row's index. */
  function Lookup(messages: seq<Message>, messageId: string): (r: Result<nat, HttpError>)
    ensures Parse(messageId).None? ==> r == Err(HttpError(400, Literal(InvalidUuid)))
    ensures Parse(messageId).Some? && FindMessage(messages, Parse(messageId).value).None? ==>
      r == Err(HttpError(404, Literal(MessageNotFound)))
    ensures r.Ok? ==> r.value < |messages| && Parse(messageId) == Some(messages[r.value].id)
    ensures Parse(messageId).Some? ==>
      (r.Ok? <==> exists k :: 0 <= k < |messages| && messages[k].id == Parse(messageId).value)
  {
    match Parse(messageId)
    case None => Err(HttpError(400, Literal(InvalidUuid)))
    case Some(id) =>
      match FindMessage(messages, id)
      case None => Err(HttpError(404, Literal(MessageNotFound)))
      case Some(i) => Ok(i)
  }

  /** `get_message_by_id`. */
  function GetMessageById(messages: seq<Message>, messageId: string): (r: Result<MessageResponse, HttpError>)
    requires forall k :: 0 <= k < |messages| ==> IsUuid(messages[k].id)
    ensures r.Ok? ==> exists k :: (0 <= k < |messages| && Parse(messageId) == Some(messages[k].id)
      && r.value == Respond(messages[k]))
    ensures r.Ok? <==> Parse(messageId).Some? && exists k :: 0 <= k < |messages| && messages[k].id == Parse(messageId).value
    ensures r.Err? <==> Lookup(messages, messageId).Err?
    ensures r.Err? ==> r.error == Lookup(messages, messageId).error
  {
    match Lookup(messages, messageId)
    case Err(e) => Err(e)
    case Ok(i) => Ok(Respond(messages[i]))
  }

  /**
   * `create_message`: a new row with a fresh UUID and the server's clock
   * (the request's `created_at` is ignored); the response carries the id as text.
   */
  method CreateMessage(db: Database, userId: string, content: string, freshId: nat, now: int)
    returns (r: MessageResponse)
    requires db.Valid() && IsUuid(freshId) && FindMessage(db.messages, freshId).None?
    modifies db
    ensures db.Valid()
    ensures db.messages == old(db.messages) + [Message(freshId, userId, content, now)]
    ensures db.histories == old(db.histories) && db.nextHistoryId == old(db.nextHistoryId)
    ensures r == Respond(Message(freshId, userId, content, now))
  {
    var row := Message(freshId, userId, content, now);
    db.AddMessage(row);
    r := Respond(row);
  }

  /** An id absent from the table is found at the row appended with it. */
  lemma FindAppended(messages: seq<Message>, m: Message)
    requires FindMessage(messages, m.id).None?
    ensures FindMessage(messages + [m], m.id) == Some(|messages|)
  {
    var all := messages + [m];
    assert all[|messages|].id == m.id;
    var found := FindMessage(all, m.id);
    assert found.Some?;
  }

  lemma UuidsAppended(messages: seq<Message>, m: Message)
    requires forall k :: 0 <= k < |messages| ==> IsUuid(messages[k].id)
    requires IsUuid(m.id)
    ensures forall k :: 0 <= k < |messages + [m]| ==> IsUuid((messages + [m])[k].id)
  {
    var all := messages + [m];
    forall k | 0 <= k < |all| ensures IsUuid(all[k].id) {
      assert all[k] == if k < |messages| then messages[k] else m;
    }
  }

  /** The id text of a newly appended message looks up the last row. */
  lemma LookupCreated(messages: seq<Message>, m: Message)
    requires IsUuid(m.id) && FindMessage(messages, m.id).None?
    ensures Lookup(messages + [m], Format(m.id)) == Ok(|messages|)
  {
    ParseFormat(m.id);
    FindAppended(messages, m);
  }

  /** The id text a created message is answered with finds that same message again. */
  lemma GetAfterCreate(messages: seq<Message>, m: Message)
    requires forall k :: 0 <= k < |messages| ==> IsUuid(messages[k].id)
    requires IsUuid(m.id) && FindMessage(messages, m.id).None?
    ensures GetMessageById(messages + [m], Format(m.id)) == Ok(Respond(m))
  {
    UuidsAppended(messages, m);
    LookupCreated(messages, m);
    assert (messages + [m])[|messages|] == m;
  }

  const Deleted: string := "메시지가 삭제되었습니다"

  /** `delete_message`: the looked-up row is deleted; errors leave the table alone. */
  method DeleteMessage(db: Database, messageId: string) returns (r: Result<string, HttpError>)
    requires db.Valid()
    modifies db
    ensures db.Valid()
    ensures db.histories == old(db.histories) && db.nextHistoryId == old(db.nextHistoryId)
    ensures match Lookup(old(db.messages), messageId)
      case Err(e) => r == Err(e) && db.messages == old(db.messages)
      case Ok(i) => r == Ok(Deleted) && db.messages == RemoveAt(old(db.messages), i)
  {
    match Lookup(db.messages, messageId)
    case Err(e) =>
      r := Err(e);
    case Ok(i) =>
      db.DeleteMessageAt(i);
      r := Ok(Deleted);
  }

  /**
   * With distinct keys, deleting the looked-up row removes exactly the
   * message with that id: every other row stays, and a second lookup is a 404.
   */
  lemma DeleteRemovesExactly(messages: seq<Message>, messageId: string)
    requires DistinctMessageIds(messages)
    requires Lookup(messages, messageId).Ok?
    ensures var i := Lookup(messages, messageId).value;
      var rest := RemoveAt(messages, i);
      && multiset(rest) + multiset{messages[i]} == multiset(messages)
      && (forall k :: 0 <= k < |rest| ==> Some(rest[k].id) != Parse(messageId))
      && Lookup(rest, messageId) == Err(HttpError(404, Literal(MessageNotFound)))
  {
    var i := Lookup(messages, messageId).value;
    RemoveAtFacts(messages, i);
    NoIdLeft(messages, i);
    LookupAbsent(RemoveAt(messages, i), messageId);
  }

  /** With distinct keys, removing a row leaves no row with its key. */
  lemma NoIdLeft(messages: seq<Message>, i: nat)
    requires DistinctMessageIds(messages) && i < |messages|
    ensures forall k :: 0 <= k < |RemoveAt(messages, i)| ==> RemoveAt(messages, i)[k].id != messages[i].id
  {
    var rest := RemoveAt(messages, i);
    RemoveAtFacts(messages, i);
    forall k | 0 <= k < |rest| ensures rest[k].id != messages[i].id {
      assert rest[k] == messages[if k < i then k else k + 1];
    }
  }

  /** A well-formed id that no row carries is a 404. */
  lemma LookupAbsent(messages: seq<Message>, messageId: string)
    requires Parse(messageId).Some?
    requires forall k :: 0 <= k < |messages| ==> messages[k].id != Parse(messageId).value
    ensures Lookup(messages, messageId) == Err(HttpError(404, Literal(MessageNotFound)))
  {
  }
}
