/**
 * `/summary`: validate the user id, collect the user's messages oldest
 * first, strip and drop blank contents, join them and hand them to the
 * summarizer; and the check whether today's diary already exists.
 */
module SummaryRouter {
  import opened Wrappers
  import opened Text
  import opened Http
  import Dates
  import opened Tables
  import opened Ordering
  import Bedrock

  predicate IsWordChar(c: char) {
    ('a' <= c <= 'z') || ('A' <= c <= 'Z') || ('0' <= c <= '9') || c == '_'
  }

  /**
   * `re.match(r'^[a-zA-Z0-9_]+$', s)`: one or more word characters, where
   * Python's `$` also matches right before a single final newline.
   */
  predicate MatchesIdPattern(s: string) {
    || (|s| >= 1 && AllSatisfy(s, IsWordChar))
    || (|s| >= 2 && s[|s| - 1] == '\n' && AllSatisfy(s[..|s| - 1], IsWordChar))
  }

  /** An id that matches the pattern starts with a word character, so it is not blank. */
  lemma MatchingIdNotBlank(s: string)
    ensures MatchesIdPattern(s) ==> !IsBlank(s)
  {
    if MatchesIdPattern(s) {
      if !AllSatisfy(s, IsWordChar) {
        assert s[..|s| - 1][0] == s[0];
      }
      assert !IsSpace(s[0]);
    }
  }

  const UserIdRequired: string := "사용자 ID가 필요합니다"
  const UserIdMalformed: string := "유효하지 않은 사용자 ID 형식입니다"

  /** `_validate_user_id`: the 400 raised, if any. */
  function ValidateUserId(userId: string): (r: Option<HttpError>)
    ensures r.None? <==> MatchesIdPattern(userId)
    ensures IsBlank(userId) ==> r == Some(HttpError(400, Literal(UserIdRequired)))
    ensures !IsBlank(userId) && !MatchesIdPattern(userId) ==> r == Some(HttpError(400, Literal(UserIdMalformed)))
  {
    MatchingIdNotBlank(userId);
    if IsBlank(userId) then Some(HttpError(400, Literal(UserIdRequired)))
    else if !MatchesIdPattern(userId) then Some(HttpError(400, Literal(UserIdMalformed)))
    else None
  }

  /** A word followed by one newline passes the check; two newlines do not. */
  lemma TrailingNewlineAccepted(word: string)
    requires |word| >= 1 && AllSatisfy(word, IsWordChar)
    ensures ValidateUserId(word + "\n").None?
    ensures ValidateUserId(word + "\n\n").Some?
  {
    assert (word + "\n")[..|word|] == word;
    var twice := word + "\n\n";
    assert !IsWordChar(twice[|twice| - 1]);
    assert !IsWordChar(twice[..|twice| - 1][|twice| - 2]);
  }

  const MessageLimit: nat := 1000

  predicate Chosen(m: Message, userId: string) {
    m.userId == userId && m.content != ""
  }

  function ChosenBy(userId: string): Message -> bool {
    (m: Message) => Chosen(m, userId)
  }

  /** What the selection query takes: chosen rows only, as many as the limit allows, so none iff there are none. */
  lemma SelectionFacts(messages: seq<Message>, userId: string)
    ensures var q := Query(messages, ChosenBy(userId), CreatedAt, 0, MessageLimit);
      && (forall k :: 0 <= k < |q| ==> Chosen(q[k], userId))
      && ((forall m :: m in messages ==> !Chosen(m, userId)) <==> q == [])
      && (var n := |Filter(messages, ChosenBy(userId))|; |q| == if n < MessageLimit then n else MessageLimit)
  {
    var keep := ChosenBy(userId);
    var q := Query(messages, keep, CreatedAt, 0, MessageLimit);
    FirstPageSize(messages, keep, CreatedAt, MessageLimit);
    forall k | 0 <= k < |q| ensures Chosen(q[k], userId) {
      assert keep(q[k]);
    }
    if exists m :: m in messages && Chosen(m, userId) {
      var m :| m in messages && Chosen(m, userId);
      assert m in Filter(messages, keep);
    }
  }

  /** The selection query leaves out no chosen row older than one it takes. */
  lemma SelectionOldest(messages: seq<Message>, userId: string)
    ensures var q := Query(messages, ChosenBy(userId), CreatedAt, 0, MessageLimit);
      forall m :: m in messages && Chosen(m, userId) && m !in q ==>
        forall k :: 0 <= k < |q| ==> q[k].createdAt <= m.createdAt
  {
    var keep := ChosenBy(userId);
    var q := Query(messages, keep, CreatedAt, 0, MessageLimit);
    forall m | m in messages && Chosen(m, userId) && m !in q
      ensures forall k :: 0 <= k < |q| ==> q[k].createdAt <= m.createdAt
    {
      assert keep(m);
      assert forall k :: 0 <= k < |q| ==> CreatedAt(q[k]) <= CreatedAt(m);
    }
  }

  /**
   * The query in `_get_user_messages_summary`: the user's messages with
   * non-empty content, oldest first, the first 1000 of them.  All of them
   * when they fit; otherwise none left out is older than a message taken.
   */
  function Selected(messages: seq<Message>, userId: string): (rows: seq<Message>)
    ensures |rows| <= MessageLimit
    ensures forall k :: 0 <= k < |rows| ==> Chosen(rows[k], userId)
    ensures SortedBy(rows, CreatedAt)
    ensures multiset(rows) <= multiset(messages)
    ensures (forall m :: m in messages ==> !Chosen(m, userId)) <==> rows == []
    ensures |Filter(messages, ChosenBy(userId))| <= MessageLimit ==>
      forall m :: m in messages && Chosen(m, userId) ==> m in rows
    ensures forall m :: m in messages && Chosen(m, userId) && m !in rows ==>
      forall k :: 0 <= k < |rows| ==> rows[k].createdAt <= m.createdAt
    ensures var n := |Filter(messages, ChosenBy(userId))|;
      |rows| == if n < MessageLimit then n else MessageLimit
    ensures PageOfKept(rows, messages, ChosenBy(userId), CreatedAt, 0, MessageLimit)
  {
    var keep := ChosenBy(userId);
    var rows := Query(messages, keep, CreatedAt, 0, MessageLimit);
    SelectionFacts(messages, userId);
    SelectionOldest(messages, userId);
    rows
  }

  /** Non-empty, with no whitespace at either end: what `strip` leaves of a non-blank string. */
  predicate Visible(s: string) {
    s != "" && !IsSpace(s[0]) && !IsSpace(s[|s| - 1])
  }

  predicate NonBlank(c: string) {
    !IsBlank(c)
  }

  /** Stripping a non-blank string leaves it visible. */
  lemma StripVisible(s: string)
    requires NonBlank(s)
    ensures Visible(Strip(s))
  {
    StripEmptyIffBlank(s);
    StripEnds(s, IsSpace);
  }

  /** The list of cleaned contents in `_get_user_messages_summary`: each non-blank content stripped, in order. */
  function CleanContents(contents: seq<string>): (r: seq<string>)
    ensures |r| == |Filter(contents, NonBlank)|
    ensures forall k :: 0 <= k < |r| ==> r[k] == Strip(Filter(contents, NonBlank)[k])
  {
    if |contents| == 0 then []
    else
      var rest := CleanContents(contents[1..]);
      FilterCons(contents, NonBlank);
      if IsBlank(contents[0]) then rest else [Strip(contents[0])] + rest
  }

  lemma AllVisibleCons(x: string, rest: seq<string>)
    requires Visible(x) && forall k :: 0 <= k < |rest| ==> Visible(rest[k])
    ensures forall k :: 0 <= k < |[x] + rest| ==> Visible(([x] + rest)[k])
  {
    var r := [x] + rest;
    forall k | 0 <= k < |r| ensures Visible(r[k]) {
      if k > 0 {
        assert r[k] == rest[k - 1];
      }
    }
  }

  /** Every cleaned piece is visible: non-empty, with no whitespace at either end. */
  lemma {:induction false} CleanVisible(contents: seq<string>)
    ensures forall k :: 0 <= k < |CleanContents(contents)| ==> Visible(CleanContents(contents)[k])
  {
    if |contents| > 0 {
      CleanVisible(contents[1..]);
      if NonBlank(contents[0]) {
        StripVisible(contents[0]);
        AllVisibleCons(Strip(contents[0]), CleanContents(contents[1..]));
      }
    }
  }

  /** Nothing is left exactly when every content is blank. */
  lemma {:induction false} CleanEmptyIffAllBlank(contents: seq<string>)
    ensures CleanContents(contents) == [] <==> forall k :: 0 <= k < |contents| ==> IsBlank(contents[k])
  {
    if |contents| > 0 {
      CleanEmptyIffAllBlank(contents[1..]);
      assert forall k :: 1 <= k < |contents| ==> contents[k] == contents[1..][k - 1];
    }
  }

  const Separator: string := "\n\n"

  /** Joined stripped, non-blank pieces are never blank: the summarizer's `ValueError` cannot happen here. */
  lemma JoinedNotBlank(parts: seq<string>)
    requires |parts| > 0
    requires forall k :: 0 <= k < |parts| ==> Visible(parts[k])
    ensures !IsBlank(Join(parts, Separator))
  {
    var first := parts[0];
    assert Visible(first);
    var joined := Join(parts, Separator);
    if |parts| > 1 {
      assert joined == first + Separator + Join(parts[1..], Separator);
    }
    assert joined[0] == first[0];
  }

  datatype SummaryResponse = SummaryResponse(summary: string, messageCount: nat)

  const NoMessages: string := "요약할 메시지가 없습니다"
  const NoValidContent: string := "유효한 메시지 내용이 없습니다"
  const FailurePrefix: string := "AI 요약 생성 실패: "

  /**
   * The summarizer's step of `_get_user_messages_summary`: the pieces are
   * joined and summarized; a summary is answered with the piece count, and
   * any failure is a 500 (the pieces are visible, so the joined text is
   * never the blank input the summarizer rejects).
   */
  function Summarized(parts: seq<string>, modelId: string,
                      invoke: (string, Bedrock.BedrockRequest) -> Bedrock.InvokeOutcome)
    : (r: Result<SummaryResponse, HttpError>)
    requires |parts| > 0 && forall k :: 0 <= k < |parts| ==> Visible(parts[k])
    ensures match Bedrock.Summarize(modelId, Join(parts, Separator), None, None, invoke)
      case Ok(summary) => r == Ok(SummaryResponse(summary, |parts|))
      case Err(e) => e.Failed? && r == Err(HttpError(500, Prefixed(FailurePrefix, e.detail)))
    ensures r.Ok? ==> r.value.summary != ""
  {
    JoinedNotBlank(parts);
    match Bedrock.Summarize(modelId, Join(parts, Separator), None, None, invoke)
    case Ok(summary) => Ok(SummaryResponse(summary, |parts|))
    case Err(e) =>
      if e.InvalidInput? then Err(HttpError(400, Literal(Bedrock.EmptyInput)))
      else Err(HttpError(500, Prefixed(FailurePrefix, e.detail)))
  }

  /** `_get_user_messages_summary` over the `messages` table. */
  function SummarizeUser(messages: seq<Message>, userId: string, modelId: string,
                         invoke: (string, Bedrock.BedrockRequest) -> Bedrock.InvokeOutcome)
    : (r: Result<SummaryResponse, HttpError>)
    ensures ValidateUserId(userId).Some? ==> r == Err(ValidateUserId(userId).value)
    ensures ValidateUserId(userId).None? && Selected(messages, userId) == [] ==>
      r == Err(HttpError(404, Literal(NoMessages)))
    ensures (ValidateUserId(userId).None? && Selected(messages, userId) != []
      && CleanContents(ContentsOf(Selected(messages, userId))) == []) ==>
      r == Err(HttpError(404, Literal(NoValidContent)))
    ensures r.Ok? ==>
      var parts := CleanContents(ContentsOf(Selected(messages, userId)));
      && r.value.messageCount == |parts| >= 1
      && Bedrock.Summarize(modelId, Join(parts, Separator), None, None, invoke) == Ok(r.value.summary)
      && r.value.summary != ""
    ensures ValidateUserId(userId).None? && CleanContents(ContentsOf(Selected(messages, userId))) != [] ==>
      var parts := CleanContents(ContentsOf(Selected(messages, userId)));
      match Bedrock.Summarize(modelId, Join(parts, Separator), None, None, invoke)
      case Ok(summary) => r == Ok(SummaryResponse(summary, |parts|))
      case Err(e) => e.Failed? && r == Err(HttpError(500, Prefixed(FailurePrefix, e.detail)))
    ensures r.Err? && r.error.status == 400 <==> ValidateUserId(userId).Some?
    ensures r.Err? ==> r.error.status in {400, 404, 500}
  {
    match ValidateUserId(userId)
    case Some(e) => Err(e)
    case None =>
      var rows := Selected(messages, userId);
      if rows == [] then Err(HttpError(404, Literal(NoMessages)))
      else
        var parts := CleanContents(ContentsOf(rows));
        if parts == [] then Err(HttpError(404, Literal(NoValidContent)))
        else
          CleanVisible(ContentsOf(rows));
          Summarized(parts, modelId, invoke)
  }

  /** The `check` response. */
  datatype SummaryExists = SummaryExists(found: bool, recordDate: Option<Dates.Date>, summary: Option<string>)

  /**
   * `check_today_summary_exists` over the `history` table, as evidently
   * intended: the owner compares with the table's `user_id` column.
   */
  function CheckToday(histories: seq<History>, userId: string, today: Dates.Date): (r: Result<SummaryExists, HttpError>)
    ensures ValidateUserId(userId).Some? ==> r == Err(ValidateUserId(userId).value)
    ensures ValidateUserId(userId).None? ==> r.Ok?
    ensures r.Ok? ==> (r.value.found <==>
      exists k :: 0 <= k < |histories| && histories[k].userId == userId && histories[k].recordDate == today)
    ensures r.Ok? && r.value.found ==>
      && r.value.recordDate == Some(today)
      && exists k :: 0 <= k < |histories| && histories[k].userId == userId
           && histories[k].recordDate == today && r.value.summary == Some(histories[k].content)
    ensures r.Ok? && !r.value.found ==> r.value.recordDate.None? && r.value.summary.None?
  {
    match ValidateUserId(userId)
    case Some(e) => Err(e)
    case None =>
      match FindUserDate(histories, userId, today)
      case Some(i) => Ok(SummaryExists(true, Some(histories[i].recordDate), Some(histories[i].content)))
      case None => Ok(SummaryExists(false, None, None))
  }

  /**
   * `check_today_summary_exists` as written: after the id check, the query
   * filters on `History.username`, which the table class does not define,
   * so every valid id gets a server error.
   */
  function CheckTodayAsWritten(histories: seq<History>, userId: string, today: Dates.Date)
    : (r: Result<SummaryExists, HttpError>)
    ensures r.Err?
    ensures ValidateUserId(userId).Some? ==> r == CheckToday(histories, userId, today)
    ensures ValidateUserId(userId).None? ==> r == Err(InternalServerError)
  {
    match ValidateUserId(userId)
    case Some(e) => Err(e)
    case None => Err(InternalServerError)
  }

  /** A stored summary for today is never reported: the check fails instead. */
  lemma StoredSummaryNotReported()
    ensures var today := Dates.Date(2024, 1, 1);
      var row := History(1, "alice", "summary", today, None, None);
      && CheckToday([row], "alice", today) == Ok(SummaryExists(true, Some(today), Some("summary")))
      && CheckTodayAsWritten([row], "alice", today) == Err(InternalServerError)
  {
    var today := Dates.Date(2024, 1, 1);
    var row := History(1, "alice", "summary", today, None, None);
    assert AllSatisfy("alice", IsWordChar) by {
      assert forall k :: 0 <= k < 5 ==> IsWordChar("alice"[k]);
    }
    assert [row][0] == row;
  }
}
