/**
 * `/history`: journal entries with an integer key.  Listing filters by
 * owner, a date range and overlapping tags, newest record date first with
 * offset and limit; entries are created, looked up, updated in place and
 * deleted by key.
 */
module HistoryRouter {
  import opened Wrappers
  import opened Text
  import opened Http
  import opened Dates
  import opened Tables
  import opened Ordering
  import opened AgentPayload

  /** `[tag.strip() for tag in tags.split(",")]`. */
  function TagList(tags: string): (r: seq<string>)
    ensures |r| == |Split(tags, ',')| && |r| >= 1
    ensures forall k :: 0 <= k < |r| ==> r[k] == Strip(Split(tags, ',')[k])
  {
    var parts := Split(tags, ',');
    seq(|parts|, k requires 0 <= k < |parts| => Strip(parts[k]))
  }

  /** Tags written as a comma-separated list come back as that list. */
  lemma TagListOfJoin(tags: seq<string>)
    requires |tags| >= 1
    requires forall k :: 0 <= k < |tags| ==> ',' !in tags[k] && Strip(tags[k]) == tags[k]
    ensures TagList(Join(tags, ",")) == tags
  {
    SplitJoin(tags, ',');
  }

  /**
   * PostgreSQL's `tags && wanted`: the arrays share an element.  A NULL
   * array makes the comparison NULL, which the WHERE clause treats as false.
   */
  predicate Overlaps(rowTags: Option<seq<string>>, wanted: seq<string>) {
    rowTags.Some? && exists i, j :: 0 <= i < |rowTags.value| && 0 <= j < |wanted| && rowTags.value[i] == wanted[j]
  }

  /** The query parameters of `get_history`; a date is always truthy, a string only when non-empty. */
  datatype HistoryFilter = HistoryFilter(
    userId: Option<string>,
    startDate: Option<Date>,
    endDate: Option<Date>,
    tags: Option<string>)

  /**
   * The WHERE clause of `get_history` as evidently intended: the owner
   * parameter compares with the table's `user_id` column.
   */
  predicate Admits(f: HistoryFilter, h: History) {
    && (Given(f.userId) ==> h.userId == f.userId.value)
    && (f.startDate.Some? ==> !Before(h.recordDate, f.startDate.value))
    && (f.endDate.Some? ==> !Before(f.endDate.value, h.recordDate))
    && (Given(f.tags) ==> Overlaps(h.tags, TagList(f.tags.value)))
  }

  function AdmittedBy(f: HistoryFilter): History -> bool {
    (h: History) => Admits(f, h)
  }

  /** `ORDER BY record_date DESC` as an ascending sort on the negated ordinal. */
  function NewestFirst(h: History): int {
    -Ordinal(h.recordDate)
  }

  /** Rows sorted on the negated ordinal of valid dates run newest first. */
  lemma NewestFirstDescends(r: seq<History>, histories: seq<History>)
    requires forall k :: 0 <= k < |histories| ==> Valid(histories[k].recordDate)
    requires multiset(r) <= multiset(histories)
    requires SortedBy(r, NewestFirst)
    ensures forall i, j :: 0 <= i < j < |r| ==> !Before(r[i].recordDate, r[j].recordDate)
  {
    forall i, j | 0 <= i < j < |r| ensures !Before(r[i].recordDate, r[j].recordDate) {
      assert r[i] in multiset(histories) && r[j] in multiset(histories);
      assert NewestFirst(r[i]) <= NewestFirst(r[j]);
      OrdinalOrder(r[i].recordDate, r[j].recordDate);
    }
  }

  /** An admitted row a first page leaves out is no newer than any row on it. */
  lemma FirstPageNewest(histories: seq<History>, f: HistoryFilter, r: seq<History>)
    requires forall k :: 0 <= k < |histories| ==> Valid(histories[k].recordDate)
    requires multiset(r) <= multiset(histories)
    requires forall h :: h in histories && Admits(f, h) && h !in r ==>
      forall k :: 0 <= k < |r| ==> NewestFirst(r[k]) <= NewestFirst(h)
    ensures forall h :: h in histories && Admits(f, h) && h !in r ==>
      forall k :: 0 <= k < |r| ==> !Before(r[k].recordDate, h.recordDate)
  {
    forall h, k | h in histories && Admits(f, h) && h !in r && 0 <= k < |r|
      ensures !Before(r[k].recordDate, h.recordDate)
    {
      assert r[k] in multiset(histories);
      assert NewestFirst(r[k]) <= NewestFirst(h);
      OrdinalOrder(r[k].recordDate, h.recordDate);
    }
  }

  /**
   * `get_history` as evidently intended: only admitted rows, newest record date first, the first
   * `offset` of them skipped and at most `limit` taken; a first page holds every admitted row when they fit, and otherwise no
   * admitted row it leaves out is newer than a row on it.
   */
  function ListHistory(histories: seq<History>, f: HistoryFilter, limit: nat, offset: nat): (r: seq<History>)
    requires forall k :: 0 <= k < |histories| ==> Valid(histories[k].recordDate)
    ensures |r| <= limit
    ensures multiset(r) <= multiset(histories)
    ensures forall k :: 0 <= k < |r| ==> Admits(f, r[k])
    ensures forall i, j :: 0 <= i < j < |r| ==> !Before(r[i].recordDate, r[j].recordDate)
    ensures offset == 0 && |Filter(histories, AdmittedBy(f))| <= limit ==>
      forall h :: h in histories && Admits(f, h) ==> h in r
    ensures offset == 0 ==> forall h :: h in histories && Admits(f, h) && h !in r ==>
      forall k :: 0 <= k < |r| ==> !Before(r[k].recordDate, h.recordDate)
    ensures var n := |Filter(histories, AdmittedBy(f))|;
      offset <= n ==> |r| == if n - offset < limit then n - offset else limit
    ensures PageOfKept(r, histories, AdmittedBy(f), NewestFirst, offset, limit)
  {
    var r := Query(histories, AdmittedBy(f), NewestFirst, offset, limit);
    NewestFirstDescends(r, histories);
    if offset == 0 then FirstPageNewest(histories, f, r); r else r
  }

  /**
   * `get_history` as written: a non-empty `username` builds a filter on
   * `History.username`, which the table class does not define, so the
   * request fails with a server error; without one the listing is the one
   * above.
   */
  function ListHistoryAsWritten(histories: seq<History>, f: HistoryFilter, limit: nat, offset: nat)
    : (r: Result<seq<History>, HttpError>)
    requires forall k :: 0 <= k < |histories| ==> Valid(histories[k].recordDate)
    ensures r.Err? <==> Given(f.userId)
    ensures r.Err? ==> r.error == InternalServerError
    ensures r.Ok? ==> r.value == ListHistory(histories, f, limit, offset)
  {
    if Given(f.userId) then Err(InternalServerError) else Ok(ListHistory(histories, f, limit, offset))
  }

  /** Asking for an owner's rows fails even when that owner has the only row. */
  lemma OwnerFilterFails()
    ensures var row := History(1, "alice", "diary", Date(2024, 1, 1), None, None);
      var f := HistoryFilter(Some("alice"), None, None, None);
      && ListHistory([row], f, 100, 0) == [row]
      && ListHistoryAsWritten([row], f, 100, 0) == Err(InternalServerError)
  {
    var row := History(1, "alice", "diary", Date(2024, 1, 1), None, None);
    var f := HistoryFilter(Some("alice"), None, None, None);
    assert Admits(f, row);
    var r := ListHistory([row], f, 100, 0);
    assert row in r;
    assert |r| <= 1 by {
      assert multiset(r) <= multiset([row]);
      assert |multiset(r)| <= |multiset([row])|;
    }
    assert r == [row];
  }

  const HistoryNotFound: string := "기록을 찾을 수 없습니다"
  const Deleted: string := "기록이 삭제되었습니다"

  /** `filter(History.id == history_id).first()` or 404; a negative id matches nothing. */
  function Locate(histories: seq<History>, historyId: int): (r: Result<nat, HttpError>)
    ensures r.Ok? ==> r.value < |histories| && histories[r.value].id == historyId
    ensures r.Err? <==> forall k :: 0 <= k < |histories| ==> histories[k].id != historyId
    ensures r.Err? ==> r.error == HttpError(404, Literal(HistoryNotFound))
  {
    if historyId < 0 then Err(HttpError(404, Literal(HistoryNotFound)))
    else match FindHistory(histories, historyId)
      case None => Err(HttpError(404, Literal(HistoryNotFound)))
      case Some(i) => Ok(i)
  }

  /** `get_history_by_id`. */
  function GetHistoryById(histories: seq<History>, historyId: int): (r: Result<History, HttpError>)
    ensures r.Ok? ==> r.value in histories && r.value.id == historyId
    ensures r.Err? <==> forall k :: 0 <= k < |histories| ==> histories[k].id != historyId
    ensures r.Err? ==> r.error == HttpError(404, Literal(HistoryNotFound))
  {
    match Locate(histories, historyId)
    case Err(e) => Err(e)
    case Ok(i) => Ok(histories[i])
  }

  /** With distinct keys, the row with a key is the one a lookup returns. */
  lemma GetFindsRow(histories: seq<History>, i: nat)
    requires DistinctHistoryIds(histories) && i < |histories|
    ensures GetHistoryById(histories, histories[i].id) == Ok(histories[i])
  {
    var r := Locate(histories, histories[i].id);
    assert r.Ok?;
    assert histories[r.value].id == histories[i].id;
  }

  /**
   * `create_history` as evidently intended: a new row under the next key
   * with the request's `user_id` as owner, its text, date and tags; the
   * request's `s3_key` is not copied.
   */
  method CreateHistory(db: Database, userId: string, content: string, date: Date, tags: Option<seq<string>>)
    returns (row: History)
    requires db.Valid() && Valid(date)
    modifies db
    ensures db.Valid()
    ensures row == History(old(db.nextHistoryId), userId, content, date, tags, None)
    ensures db.histories == old(db.histories) + [row]
    ensures db.messages == old(db.messages)
    ensures GetHistoryById(db.histories, row.id) == Ok(row)
  {
    row := db.AddHistory(userId, content, date, tags, None);
    GetFindsRow(db.histories, |db.histories| - 1);
  }

  /**
   * `create_history` as written: building the row reads `username` off the
   * request, which `HistoryCreate` does not define, so the handler raises
   * before anything is added and answers a server error.  The key the
   * intended create assigns finds nothing afterwards.
   */
  method CreateHistoryAsWritten(db: Database, userId: string, content: string, date: Date,
                                tags: Option<seq<string>>)
    returns (r: Result<History, HttpError>)
    requires db.Valid() && Valid(date)
    modifies db
    ensures db.Valid()
    ensures r == Err(InternalServerError)
    ensures db.histories == old(db.histories) && db.messages == old(db.messages)
    ensures db.nextHistoryId == old(db.nextHistoryId)
    ensures GetHistoryById(db.histories, db.nextHistoryId).Err?
  {
    r := Err(InternalServerError);
    assert Locate(db.histories, db.nextHistoryId).Err?;
  }

  /**
   * `update_history` as written: a missing row is the 404, and a found row
   * makes the handler read `username` off the request, which raises before
   * the commit, so the row keeps its old values and the reply is a server
   * error.
   */
  method UpdateHistoryAsWritten(db: Database, historyId: int, userId: string, content: string, date: Date,
                                tags: Option<seq<string>>)
    returns (r: Result<History, HttpError>)
    requires db.Valid() && Valid(date)
    modifies db
    ensures db.Valid()
    ensures db.histories == old(db.histories) && db.messages == old(db.messages)
    ensures db.nextHistoryId == old(db.nextHistoryId)
    ensures r == UpdateReplyAsWritten(old(db.histories), historyId)
  {
    r := UpdateReplyAsWritten(db.histories, historyId);
  }

  /** The reply of `update_history` as written: never a row. */
  function UpdateReplyAsWritten(histories: seq<History>, historyId: int): (r: Result<History, HttpError>)
    ensures r.Err?
    ensures r.error.status == 404 <==> forall k :: 0 <= k < |histories| ==> histories[k].id != historyId
    ensures r.error.status == 404 ==> r == GetHistoryById(histories, historyId)
    ensures r.error.status != 404 ==> r.error == InternalServerError
  {
    match Locate(histories, historyId)
    case Err(e) => Err(e)
    case Ok(_) => Err(InternalServerError)
  }

  /**
   * Updating the only row fails: the row is there to be found, and the
   * reply is a server error instead of the updated row.
   */
  lemma UpdateOfExistingRowFails()
    ensures var row := History(1, "alice", "old", Date(2024, 1, 1), None, None);
      && GetHistoryById([row], 1) == Ok(row)
      && UpdateReplyAsWritten([row], 1) == Err(InternalServerError)
  {
    var row := History(1, "alice", "old", Date(2024, 1, 1), None, None);
    assert [row][0].id == 1;
  }

  /**
   * `update_history` as evidently intended: owner (from the request's
   * `user_id`), text, date and tags of the looked-up row are replaced; its key and image key stay; other rows are untouched.
   */
  method UpdateHistory(db: Database, historyId: int, userId: string, content: string, date: Date,
                       tags: Option<seq<string>>)
    returns (r: Result<History, HttpError>)
    requires db.Valid() && Valid(date)
    modifies db
    ensures db.Valid()
    ensures db.messages == old(db.messages) && db.nextHistoryId == old(db.nextHistoryId)
    ensures match Locate(old(db.histories), historyId)
      case Err(e) => r == Err(e) && db.histories == old(db.histories)
      case Ok(i) =>
        var row := History(old(db.histories)[i].id, userId, content, date, tags, old(db.histories)[i].s3Key);
        r == Ok(row) && db.histories == old(db.histories)[i := row]
  {
    match Locate(db.histories, historyId)
    case Err(e) =>
      r := Err(e);
    case Ok(i) =>
      var row := History(db.histories[i].id, userId, content, date, tags, db.histories[i].s3Key);
      db.ReplaceHistoryAt(i, row);
      r := Ok(row);
  }

  /** After an update, a lookup of the same key returns the updated row. */
  lemma GetAfterUpdate(histories: seq<History>, i: nat, row: History)
    requires DistinctHistoryIds(histories) && i < |histories| && row.id == histories[i].id
    ensures GetHistoryById(histories[i := row], row.id) == Ok(row)
  {
    var updated := histories[i := row];
    assert DistinctHistoryIds(updated) by {
      forall a, b | 0 <= a < b < |updated| ensures updated[a].id != updated[b].id {
        assert updated[a].id == histories[a].id && updated[b].id == histories[b].id;
      }
    }
    GetFindsRow(updated, i);
  }

  /** `delete_history`: the looked-up row is deleted; a 404 leaves the table alone. */
  method DeleteHistory(db: Database, historyId: int) returns (r: Result<string, HttpError>)
    requires db.Valid()
    modifies db
    ensures db.Valid()
    ensures db.messages == old(db.messages) && db.nextHistoryId == old(db.nextHistoryId)
    ensures match Locate(old(db.histories), historyId)
      case Err(e) => r == Err(e) && db.histories == old(db.histories)
      case Ok(i) => r == Ok(Deleted) && db.histories == RemoveAt(old(db.histories), i)
  {
    match Locate(db.histories, historyId)
    case Err(e) =>
      r := Err(e);
    case Ok(i) =>
      db.DeleteHistoryAt(i);
      r := Ok(Deleted);
  }

  /**
   * With distinct keys, deleting the looked-up row removes exactly the row
   * with that key: every other row stays, and a second lookup is a 404.
   */
  lemma DeleteRemovesExactly(histories: seq<History>, historyId: int)
    requires DistinctHistoryIds(histories)
    requires Locate(histories, historyId).Ok?
    ensures var i := Locate(histories, historyId).value;
      var rest := RemoveAt(histories, i);
      && multiset(rest) + multiset{histories[i]} == multiset(histories)
      && GetHistoryById(rest, historyId) == Err(HttpError(404, Literal(HistoryNotFound)))
  {
    var i := Locate(histories, historyId).value;
    RemoveAtFacts(histories, i);
    var rest := RemoveAt(histories, i);
    forall k | 0 <= k < |rest| ensures rest[k].id != historyId {
      assert rest[k] == histories[if k < i then k else k + 1];
    }
  }
}
