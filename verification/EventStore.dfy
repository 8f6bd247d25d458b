/** The durable event table of src/infra/store/sqlite-store.ts.

    Each SQL statement is one atomic step on a sequence of rows kept in `seq` order;
    the clock is a parameter. */
module EventStore {
  import opened Common

  datatype Direction = In | Out

  datatype Event = Event(
    eventId: string,
    deviceId: string,
    direction: Direction,
    occurredAt: int,
    terminalPersonId: Option<string>,
    rawPayload: Option<string>)

  /** The UNIQUE(device_id, event_id) constraint of the table. */
  datatype Key = Key(deviceId: string, eventId: string)

  datatype Row = Row(rowSeq: nat, event: Event, acked: bool, createdAt: int, expiresAt: int)

  datatype Table = Table(rows: seq<Row>, lastSeq: nat, cursors: map<string, Option<string>>)

  function KeyOf(e: Event): Key { Key(e.deviceId, e.eventId) }

  function RowKey(r: Row): Key { KeyOf(r.event) }

  // ---------------------------------------------------------------- table invariant

  ghost predicate SeqOrdered(rows: seq<Row>) {
    forall i, j :: 0 <= i < j < |rows| ==> rows[i].rowSeq < rows[j].rowSeq
  }

  ghost predicate UniqueKeys(rows: seq<Row>) {
    forall i, j :: 0 <= i < j < |rows| ==> RowKey(rows[i]) != RowKey(rows[j])
  }

  ghost predicate WellFormed(t: Table) {
    && SeqOrdered(t.rows)
    && UniqueKeys(t.rows)
    && forall i :: 0 <= i < |t.rows| ==> t.rows[i].rowSeq <= t.lastSeq
  }

  ghost predicate Stored(rows: seq<Row>, k: Key) {
    exists i :: 0 <= i < |rows| && RowKey(rows[i]) == k
  }

  // ---------------------------------------------------------------- SQL statements

  /** The WHERE clauses used by the store. */
  datatype Where = Unacked | ExpiresAfter(now: int) | DeviceAfter(deviceId: string, after: int)

  predicate Matches(w: Where, r: Row) {
    match w
    case Unacked => !r.acked
    case ExpiresAfter(now) => !(r.expiresAt <= now)
    case DeviceAfter(d, after) => r.event.deviceId == d && r.rowSeq > after
  }

  /** Rows satisfying a clause, ORDER BY seq ASC. */
  function Select(rows: seq<Row>, w: Where): seq<Row> {
    if rows == [] then []
    else if Matches(w, rows[0]) then [rows[0]] + Select(rows[1..], w)
    else Select(rows[1..], w)
  }

  /** LIMIT n; SQLite reads a negative bound as no bound. */
  function Limit<T>(s: seq<T>, n: int): seq<T> {
    if 0 <= n < |s| then s[..n] else s
  }

  function FindKey(rows: seq<Row>, k: Key): Option<nat>
  {
    if rows == [] then None
    else if RowKey(rows[0]) == k then Some(0)
    else match FindKey(rows[1..], k) case None => None case Some(i) => Some(i + 1)
  }

  function Upsert(t: Table, e: Event, retentionMs: int, now: int): Table {
    if FindKey(t.rows, KeyOf(e)).Some? then t
    else t.(rows := t.rows + [Row(t.lastSeq + 1, e, false, now, now + retentionMs)], lastSeq := t.lastSeq + 1)
  }

  function Ack(rows: seq<Row>, k: Key): seq<Row> {
    seq(|rows|, i requires 0 <= i < |rows| => if RowKey(rows[i]) == k then rows[i].(acked := true) else rows[i])
  }

  function AfterAck(t: Table, deviceId: string, eventId: string): Table {
    t.(rows := Ack(t.rows, Key(deviceId, eventId)), cursors := t.cursors[deviceId := Some(eventId)])
  }

  function SetCursor(t: Table, deviceId: string, eventId: Option<string>): Table {
    t.(cursors := t.cursors[deviceId := eventId])
  }

  function Purge(t: Table, now: int): Table {
    t.(rows := Select(t.rows, ExpiresAfter(now)))
  }

  /** Sequence number after which a backfill page starts: the cursor row's, or none when the cursor
      is null, empty, or not stored. */
  function StartAfter(rows: seq<Row>, deviceId: string, since: Option<string>): int {
    match since
    case None => -1
    case Some(id) =>
      if id == "" then -1
      else match FindKey(rows, Key(deviceId, id))
           case None => -1
           case Some(i) => if i < |rows| then rows[i].rowSeq else -1
  }

  function BackfillRows(t: Table, deviceId: string, since: Option<string>, limit: int): seq<Row> {
    Limit(Select(t.rows, DeviceAfter(deviceId, StartAfter(t.rows, deviceId, since))), limit)
  }

  function Events(rows: seq<Row>): seq<Event> {
    seq(|rows|, i requires 0 <= i < |rows| => rows[i].event)
  }

  // ---------------------------------------------------------------- what the statements mean

  lemma {:induction false} SelectMembers(rows: seq<Row>, w: Where)
    ensures forall r :: r in Select(rows, w) <==> r in rows && Matches(w, r)
    ensures |Select(rows, w)| <= |rows|
  {
    if rows != [] {
      SelectMembers(rows[1..], w);
      assert rows == [rows[0]] + rows[1..];
    }
  }

  /** Filtering keeps both table orders, so every result of a SELECT is again ordered and duplicate-free. */
  lemma {:induction false} SelectKeepsOrder(rows: seq<Row>, w: Where)
    requires SeqOrdered(rows) && UniqueKeys(rows)
    ensures SeqOrdered(Select(rows, w)) && UniqueKeys(Select(rows, w))
  {
    if rows != [] {
      SelectKeepsOrder(rows[1..], w);
      var rest := Select(rows[1..], w);
      SelectMembers(rows[1..], w);
      forall i | 0 <= i < |rest|
        ensures rows[0].rowSeq < rest[i].rowSeq && RowKey(rows[0]) != RowKey(rest[i])
      {
        assert rest[i] in rest;
        var j :| 0 <= j < |rows[1..]| && rows[1..][j] == rest[i];
        assert rows[j + 1] == rest[i];
      }
    }
  }

  lemma {:induction false} FindKeyMeaning(rows: seq<Row>, k: Key)
    ensures FindKey(rows, k).Some? <==> Stored(rows, k)
    ensures var f := FindKey(rows, k); f.Some? ==> f.value < |rows| && RowKey(rows[f.value]) == k
  {
    if rows != [] {
      FindKeyMeaning(rows[1..], k);
      if RowKey(rows[0]) != k {
        if Stored(rows, k) {
          var i :| 0 <= i < |rows| && RowKey(rows[i]) == k;
          assert RowKey(rows[1..][i - 1]) == k;
        }
        if Stored(rows[1..], k) {
          var i :| 0 <= i < |rows[1..]| && RowKey(rows[1..][i]) == k;
          assert RowKey(rows[i + 1]) == k;
        }
      }
    }
  }

  lemma UpsertKeepsWellFormed(t: Table, e: Event, retentionMs: int, now: int)
    requires WellFormed(t)
    ensures WellFormed(Upsert(t, e, retentionMs, now))
    ensures Stored(t.rows, KeyOf(e)) ==> Upsert(t, e, retentionMs, now) == t
    ensures !Stored(t.rows, KeyOf(e)) ==>
              Upsert(t, e, retentionMs, now).rows == t.rows + [Row(t.lastSeq + 1, e, false, now, now + retentionMs)]
  {
    FindKeyMeaning(t.rows, KeyOf(e));
    if !Stored(t.rows, KeyOf(e)) {
      forall i | 0 <= i < |t.rows| ensures RowKey(t.rows[i]) != KeyOf(e) {
        assert !Stored(t.rows, KeyOf(e));
      }
    }
  }

  lemma AckKeepsWellFormed(t: Table, d: string, id: string)
    requires WellFormed(t)
    ensures WellFormed(AfterAck(t, d, id))
  {
    var u := Ack(t.rows, Key(d, id));
    forall i | 0 <= i < |u| ensures u[i].rowSeq == t.rows[i].rowSeq && RowKey(u[i]) == RowKey(t.rows[i]) {}
  }

  lemma PurgeKeepsWellFormed(t: Table, now: int)
    requires WellFormed(t)
    ensures WellFormed(Purge(t, now))
  {
    SelectKeepsOrder(t.rows, ExpiresAfter(now));
    SelectMembers(t.rows, ExpiresAfter(now));
    var p := Purge(t, now).rows;
    forall i | 0 <= i < |p| ensures p[i].rowSeq <= t.lastSeq {
      assert p[i] in p;
    }
  }

  // ---------------------------------------------------------------- what a backfill page is

  function LastSeqOf(rows: seq<Row>): int {
    if rows == [] then -1 else rows[|rows| - 1].rowSeq
  }

  /** A page starts behind the cursor's row while that is stored, and otherwise at the beginning. */
  ghost predicate StartsBehind(rows: seq<Row>, d: string, since: Option<string>, after: int) {
    if since.Some? && since.value != "" && Stored(rows, Key(d, since.value))
    then exists r :: r in rows && RowKey(r) == Key(d, since.value) && r.rowSeq == after
    else after == -1
  }

  /** Rows of one device beyond a sequence number, in order and without a gap, at most `limit` of them
      unless that is negative; all of them when the page is not full. */
  ghost predicate IsPage(rows: seq<Row>, d: string, after: int, limit: int, page: seq<Row>) {
    && SeqOrdered(page) && (limit >= 0 ==> |page| <= limit)
    && (forall r :: r in page ==> r in rows && r.event.deviceId == d && r.rowSeq > after)
    && (forall r :: r in rows && r.event.deviceId == d && after < r.rowSeq <= LastSeqOf(page) ==> r in page)
    && (limit < 0 || |page| < limit ==>
          forall r :: r in rows && r.event.deviceId == d && after < r.rowSeq ==> r in page)
  }

  lemma StartMeaning(rows: seq<Row>, d: string, since: Option<string>)
    ensures StartsBehind(rows, d, since, StartAfter(rows, d, since))
  {
    if since.Some? {
      FindKeyMeaning(rows, Key(d, since.value));
    }
  }

  lemma PageMeaning(t: Table, d: string, after: int, limit: int)
    requires WellFormed(t)
    ensures IsPage(t.rows, d, after, limit, Limit(Select(t.rows, DeviceAfter(d, after)), limit))
  {
    var all := Select(t.rows, DeviceAfter(d, after));
    SelectMembers(t.rows, DeviceAfter(d, after));
    SelectKeepsOrder(t.rows, DeviceAfter(d, after));
    var page := Limit(all, limit);
    assert forall r :: r in page ==> r in all;
    forall r | r in t.rows && r.event.deviceId == d && after < r.rowSeq
      ensures r in page || r.rowSeq > LastSeqOf(page)
    {
      assert r in all;
      var i :| 0 <= i < |all| && all[i] == r;
      if |page| <= i && page != [] {
        assert all[|page| - 1].rowSeq < all[i].rowSeq;
      }
    }
  }

  // ---------------------------------------------------------------- the store object

  /** The adapter's database handle: `rows` and `lastSeq` are the events table with its AUTOINCREMENT
      counter, `cursors` the device_state table. */
  class SqliteStore {
    var rows: seq<Row>
    var lastSeq: nat
    var cursors: map<string, Option<string>>

    ghost function View(): Table
      reads this
    {
      Table(rows, lastSeq, cursors)
    }

    ghost predicate Valid()
      reads this
    {
      WellFormed(View())
    }

    constructor ()
      ensures Valid() && View() == Table([], 0, map[])
    {
      rows, lastSeq, cursors := [], 0, map[];
    }

    method UpsertEvent(event: Event, retentionMs: int, now: int)
      requires Valid()
      modifies this
      ensures Valid() && View() == Upsert(old(View()), event, retentionMs, now)
      ensures old(Stored(rows, KeyOf(event))) ==> View() == old(View())
      ensures !old(Stored(rows, KeyOf(event))) ==>
                rows == old(rows) + [Row(old(lastSeq) + 1, event, false, now, now + retentionMs)]
    {
      UpsertKeepsWellFormed(View(), event, retentionMs, now);
      FindKeyMeaning(rows, KeyOf(event));
      if FindKey(rows, KeyOf(event)).None? {
        lastSeq := lastSeq + 1;
        rows := rows + [Row(lastSeq, event, false, now, now + retentionMs)];
      }
    }

    method ListPending(limit: int) returns (pending: seq<Row>)
      requires Valid()
      ensures pending == Limit(Select(rows, Unacked), limit)
      ensures SeqOrdered(pending) && UniqueKeys(pending)
      ensures forall r :: r in pending ==> r in rows && !r.acked
    {
      pending := Limit(Select(rows, Unacked), limit);
      SelectKeepsOrder(rows, Unacked);
      SelectMembers(rows, Unacked);
      assert forall r :: r in pending ==> r in Select(rows, Unacked);
    }

    method MarkAcked(deviceId: string, eventId: string)
      requires Valid()
      modifies this
      ensures Valid() && View() == AfterAck(old(View()), deviceId, eventId)
    {
      AckKeepsWellFormed(View(), deviceId, eventId);
      rows := Ack(rows, Key(deviceId, eventId));
      cursors := cursors[deviceId := Some(eventId)];
    }

    method SetLastAckedEventId(deviceId: string, eventId: Option<string>)
      requires Valid()
      modifies this
      ensures Valid() && rows == old(rows) && lastSeq == old(lastSeq)
      ensures deviceId in cursors && cursors[deviceId] == eventId
      ensures forall d :: d != deviceId ==>
                (d in cursors <==> d in old(cursors)) && (d in cursors ==> cursors[d] == old(cursors)[d])
      ensures View() == SetCursor(old(View()), deviceId, eventId)
    {
      cursors := cursors[deviceId := eventId];
    }

    method GetBackfill(deviceId: string, since: Option<string>, limit: int) returns (events: seq<Event>)
      requires Valid()
      ensures StartsBehind(rows, deviceId, since, StartAfter(rows, deviceId, since))
      ensures IsPage(rows, deviceId, StartAfter(rows, deviceId, since), limit,
                BackfillRows(View(), deviceId, since, limit))
      ensures events == Events(BackfillRows(View(), deviceId, since, limit))
    {
      StartMeaning(rows, deviceId, since);
      var after := StartAfter(rows, deviceId, since);
      PageMeaning(View(), deviceId, after, limit);
      events := Events(Limit(Select(rows, DeviceAfter(deviceId, after)), limit));
    }

    method PurgeExpired(now: int) returns (deleted: nat)
      requires Valid()
      modifies this
      ensures Valid() && View() == Purge(old(View()), now)
      ensures deleted == |old(rows)| - |rows|
      ensures forall r :: r in old(rows) ==> (r !in rows <==> r.expiresAt <= now)
    {
      PurgeKeepsWellFormed(View(), now);
      SelectMembers(rows, ExpiresAfter(now));
      var kept := Select(rows, ExpiresAfter(now));
      deleted := |rows| - |kept|;
      rows := kept;
    }
  }

}
