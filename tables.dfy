/**
 * The two tables, `messages` and `history`, and the session operations the
 * routers perform on them (`db.add` + `commit`, assigning a loaded row's
 * fields + `commit`, `db.delete` + `commit`).  Clocks and key generators are
 * outside: `created_at` and new UUIDs are passed in, while the `history` key
 * comes from the table's own sequence.
 */
module Tables {
  import opened Wrappers
  import Dates
  import opened Uuids

  /** A `messages` row: UUID key, owner, text, `created_at` in microseconds. */
  datatype Message = Message(id: nat, userId: string, content: string, createdAt: int)

  /** The `created_at` ordering key. */
  function CreatedAt(m: Message): int {
    m.createdAt
  }

  /** The `content` column of the selected rows, in order. */
  function ContentsOf(rows: seq<Message>): (r: seq<string>)
    ensures |r| == |rows| && forall k :: 0 <= k < |rows| ==> r[k] == rows[k].content
  {
    seq(|rows|, k requires 0 <= k < |rows| => rows[k].content)
  }

  /** A `history` row: BIGINT key, owner, text, record date, optional tags and image key. */
  datatype History = History(
    id: nat,
    userId: string,
    content: string,
    recordDate: Dates.Date,
    tags: Option<seq<string>>,
    s3Key: Option<string>)

  predicate DistinctMessageIds(ms: seq<Message>) {
    forall i, j :: 0 <= i < j < |ms| ==> ms[i].id != ms[j].id
  }

  predicate DistinctHistoryIds(hs: seq<History>) {
    forall i, j :: 0 <= i < j < |hs| ==> hs[i].id != hs[j].id
  }

  /** At most one `history` row per (owner, record date). */
  predicate OnePerUserDate(hs: seq<History>) {
    forall i, j :: 0 <= i < j < |hs| ==>
      hs[i].userId != hs[j].userId || hs[i].recordDate != hs[j].recordDate
  }

  /** `filter(Message.id == id).first()`. */
  function FindMessage(ms: seq<Message>, id: nat): (r: Option<nat>)
    ensures r.Some? ==> r.value < |ms| && ms[r.value].id == id
    ensures r.None? ==> forall k :: 0 <= k < |ms| ==> ms[k].id != id
  {
    if |ms| == 0 then None
    else if ms[0].id == id then Some(0)
    else match FindMessage(ms[1..], id)
      case None => None
      case Some(k) => Some(k + 1)
  }

  /** `filter(History.id == id).first()`. */
  function FindHistory(hs: seq<History>, id: nat): (r: Option<nat>)
    ensures r.Some? ==> r.value < |hs| && hs[r.value].id == id
    ensures r.None? ==> forall k :: 0 <= k < |hs| ==> hs[k].id != id
  {
    if |hs| == 0 then None
    else if hs[0].id == id then Some(0)
    else match FindHistory(hs[1..], id)
      case None => None
      case Some(k) => Some(k + 1)
  }

  /** `filter(user_id == user, record_date == date).first()`, first in table order. */
  function FindUserDate(hs: seq<History>, user: string, date: Dates.Date): (r: Option<nat>)
    ensures r.Some? ==> r.value < |hs| && hs[r.value].userId == user && hs[r.value].recordDate == date
    ensures r.Some? ==> forall k :: 0 <= k < r.value ==> hs[k].userId != user || hs[k].recordDate != date
    ensures r.None? ==> forall k :: 0 <= k < |hs| ==> hs[k].userId != user || hs[k].recordDate != date
  {
    if |hs| == 0 then None
    else if hs[0].userId == user && hs[0].recordDate == date then Some(0)
    else match FindUserDate(hs[1..], user, date)
      case None => None
      case Some(k) => Some(k + 1)
  }

  function RemoveAt<T>(s: seq<T>, i: nat): (r: seq<T>)
    requires i < |s|
    ensures |r| == |s| - 1
  {
    s[..i] + s[i + 1..]
  }

  /** Removing one element keeps every other element, in order. */
  lemma RemoveAtFacts<T>(s: seq<T>, i: nat)
    requires i < |s|
    ensures multiset(RemoveAt(s, i)) + multiset{s[i]} == multiset(s)
    ensures forall k :: 0 <= k < |s| - 1 ==> RemoveAt(s, i)[k] == s[if k < i then k else k + 1]
  {
    assert s == s[..i] + [s[i]] + s[i + 1..];
  }

  class Database {
    var messages: seq<Message>
    var histories: seq<History>
    /** The next value of the `history.id` sequence. */
    var nextHistoryId: nat

    ghost predicate Valid()
      reads this
    {
      && nextHistoryId >= 1
      && DistinctMessageIds(messages)
      && (forall k :: 0 <= k < |messages| ==> IsUuid(messages[k].id))
      && DistinctHistoryIds(histories)
      && (forall k :: 0 <= k < |histories| ==> 1 <= histories[k].id < nextHistoryId)
      && (forall k :: 0 <= k < |histories| ==> Dates.Valid(histories[k].recordDate))
    }

    constructor ()
      ensures Valid()
      ensures messages == [] && histories == [] && nextHistoryId == 1
    {
      messages, histories, nextHistoryId := [], [], 1;
    }

    method AddMessage(m: Message)
      requires Valid() && IsUuid(m.id) && FindMessage(messages, m.id).None?
      modifies this
      ensures Valid()
      ensures messages == old(messages) + [m]
      ensures histories == old(histories) && nextHistoryId == old(nextHistoryId)
    {
      messages := messages + [m];
    }

    method AddHistory(userId: string, content: string, date: Dates.Date,
                      tags: Option<seq<string>>, s3Key: Option<string>) returns (row: History)
      requires Valid() && Dates.Valid(date)
      modifies this
      ensures Valid()
      ensures row == History(old(nextHistoryId), userId, content, date, tags, s3Key)
      ensures histories == old(histories) + [row]
      ensures messages == old(messages) && nextHistoryId == old(nextHistoryId) + 1
    {
      row := History(nextHistoryId, userId, content, date, tags, s3Key);
      histories := histories + [row];
      nextHistoryId := row.id + 1;
    }

    method ReplaceHistoryAt(i: nat, row: History)
      requires Valid() && i < |histories| && row.id == histories[i].id
      requires Dates.Valid(row.recordDate)
      modifies this
      ensures Valid()
      ensures histories == old(histories)[i := row]
      ensures messages == old(messages) && nextHistoryId == old(nextHistoryId)
    {
      histories := histories[i := row];
    }

    method DeleteMessageAt(i: nat)
      requires Valid() && i < |messages|
      modifies this
      ensures Valid()
      ensures messages == RemoveAt(old(messages), i)
      ensures histories == old(histories) && nextHistoryId == old(nextHistoryId)
    {
      messages := RemoveAt(messages, i);
      assert forall k :: 0 <= k < |messages| ==> messages[k] == old(messages)[if k < i then k else k + 1];
    }

    method DeleteHistoryAt(i: nat)
      requires Valid() && i < |histories|
      modifies this
      ensures Valid()
      ensures histories == RemoveAt(old(histories), i)
      ensures messages == old(messages) && nextHistoryId == old(nextHistoryId)
    {
      histories := RemoveAt(histories, i);
      assert forall k :: 0 <= k < |histories| ==> histories[k] == old(histories)[if k < i then k else k + 1];
    }
  }
}
