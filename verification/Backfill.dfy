/** Serving a backfill page from the local table and the device's own records
    (src/domain/backfill/backfill-service.ts). */
module Backfill {
  import opened Common
  import opened Sorting
  import opened EventStore
  import opened Registry

  datatype Record = Record(
    recNo: int,
    createTimeUtcSec: Option<int>,
    userId: Option<string>,
    cardNo: Option<string>,
    raw: map<string, string>)

  datatype RecordSettings = RecordSettings(recordBackfillEnabled: bool, lookbackHours: int, queryLimit: int)

  /** What the model leaves open: hashing, decimal and JSON text, settings parsing, and the device, which
      answers a query for a time range and a count or fails. */
  datatype World = World(
    sha: string -> string,
    decimal: int -> string,
    payload: map<string, string> -> string,
    parse: Option<string> -> Option<RecordSettings>,
    query: (int, int, int) -> Option<seq<Record>>)

  // ---------------------------------------------------------------- event ids

  /** The first of the keys that is present. */
  function DataField(data: map<string, string>, keys: seq<string>): string {
    if keys == [] then ""
    else if keys[0] in data then data[keys[0]]
    else DataField(data, keys[1..])
  }

  function OccurredAt(r: Record, nowSec: int): int {
    (if r.createTimeUtcSec.Some? then r.createTimeUtcSec.value else nowSec) * 1000
  }

  function EventTs(w: World, occurredAt: int, data: map<string, string>): string {
    var ts := DataField(data, ["RealUTC", "UTC", "CreateTime"]);
    if ts != "" then ts else w.decimal(occurredAt / 1000)
  }

  /** `buildAccessEventId`: neither the device nor the record number takes part. */
  function AccessEventId(w: World, occurredAt: int, data: map<string, string>): string {
    "accesscontrol-hash-" + w.sha("AccessControl|" + EventTs(w, occurredAt, data) + "|" + DataField(data, ["UserID"]))
  }

  function ToEvent(w: World, a: Assignment, deviceId: string, nowSec: int, r: Record): Event {
    Event(AccessEventId(w, OccurredAt(r, nowSec), r.raw), deviceId, a.direction, OccurredAt(r, nowSec),
          if r.userId.Some? then r.userId else r.cardNo, Some(w.payload(r.raw)))
  }

  lemma BarInside(a: string, b: string, c: string, d: string)
    ensures a + "|" + b == c + "|" + d && |a| < |c| ==> '|' in c
  {
    if a + "|" + b == c + "|" + d && |a| < |c| {
      assert c[|a|] == (c + "|" + d)[|a|] == (a + "|" + b)[|a|] == '|';
    }
  }

  lemma SameParts(a: string, b: string, c: string, d: string)
    requires '|' !in a && '|' !in c
    ensures a + "|" + b == c + "|" + d <==> a == c && b == d
  {
    BarInside(a, b, c, d);
    BarInside(c, d, a, b);
    if a + "|" + b == c + "|" + d {
      assert a == (a + "|" + b)[..|a|] && c == (c + "|" + d)[..|c|];
      assert b == (a + "|" + b)[|a| + 1..] && d == (c + "|" + d)[|c| + 1..];
    }
  }

  /** A reading's time stamp: the first of three fields it has, or the whole seconds when that is empty or missing. */
  ghost function Stamp(w: World, occurredAt: int, data: map<string, string>): string {
    var own := if "RealUTC" in data then data["RealUTC"] else if "UTC" in data then data["UTC"]
               else if "CreateTime" in data then data["CreateTime"] else "";
    if own == "" then w.decimal(occurredAt / 1000) else own
  }

  ghost function UserOf(data: map<string, string>): string { if "UserID" in data then data["UserID"] else "" }

  lemma OneField(data: map<string, string>, key: string)
    ensures DataField(data, [key]) == if key in data then data[key] else ""
  {
    assert [key][1..] == [];
  }

  lemma MoreFields(data: map<string, string>, key: string, keys: seq<string>)
    ensures DataField(data, [key] + keys) == if key in data then data[key] else DataField(data, keys)
  {
    assert ([key] + keys)[1..] == keys;
  }

  lemma StampIsFirstField(w: World, occurredAt: int, data: map<string, string>)
    ensures EventTs(w, occurredAt, data) == Stamp(w, occurredAt, data) && DataField(data, ["UserID"]) == UserOf(data)
  {
    OneField(data, "UserID");
    OneField(data, "CreateTime");
    MoreFields(data, "UTC", ["CreateTime"]);
    MoreFields(data, "RealUTC", ["UTC"] + ["CreateTime"]);
    assert ["RealUTC"] + (["UTC"] + ["CreateTime"]) == ["RealUTC", "UTC", "CreateTime"];
  }

  /** With a collision-free hash and clean timestamps two readings share an id exactly when their
      timestamps and users agree, so different cards or record numbers do not tell them apart. */
  lemma SameEventId(w: World, at1: int, data1: map<string, string>, at2: int, data2: map<string, string>)
    requires forall a, b :: w.sha(a) == w.sha(b) ==> a == b
    requires '|' !in Stamp(w, at1, data1) && '|' !in Stamp(w, at2, data2)
    ensures AccessEventId(w, at1, data1) == AccessEventId(w, at2, data2) <==>
            Stamp(w, at1, data1) == Stamp(w, at2, data2) && UserOf(data1) == UserOf(data2)
  {
    StampIsFirstField(w, at1, data1);
    StampIsFirstField(w, at2, data2);
    SameIdentity(w.sha, Stamp(w, at1, data1), UserOf(data1), Stamp(w, at2, data2), UserOf(data2));
  }

  lemma SameIdentity(sha: string -> string, ts1: string, u1: string, ts2: string, u2: string)
    requires (forall a, b :: sha(a) == sha(b) ==> a == b) && '|' !in ts1 && '|' !in ts2
    ensures ("accesscontrol-hash-" + sha("AccessControl|" + ts1 + "|" + u1) ==
             "accesscontrol-hash-" + sha("AccessControl|" + ts2 + "|" + u2)) <==> ts1 == ts2 && u1 == u2
  {
    SameParts(ts1, u1, ts2, u2);
    var i1, i2 := "AccessControl|" + ts1 + "|" + u1, "AccessControl|" + ts2 + "|" + u2;
    assert i1[14..] == ts1 + "|" + u1 && i2[14..] == ts2 + "|" + u2;
    var h1, h2 := sha(i1), sha(i2);
    assert ("accesscontrol-hash-" + h1)[19..] == h1 && ("accesscontrol-hash-" + h2)[19..] == h2;
  }

  // ---------------------------------------------------------------- dropping repeated keys

  function DedupeKey(e: Event): string { e.deviceId + ":" + e.eventId }

  /** Events whose key is not in `seen` and did not occur before. */
  function Unseen(events: seq<Event>, seen: set<string>): seq<Event> {
    if events == [] then []
    else if DedupeKey(events[0]) in seen then Unseen(events[1..], seen)
    else [events[0]] + Unseen(events[1..], seen + {DedupeKey(events[0])})
  }

  method DedupeByEventId(events: seq<Event>) returns (out: seq<Event>)
    ensures out == Unseen(events, {})
  {
    var seen: set<string> := {};
    out := [];
    for i := 0 to |events|
      invariant Unseen(events, {}) == out + Unseen(events[i..], seen)
    {
      var key := DedupeKey(events[i]);
      assert events[i..][1..] == events[i + 1..];
      if key in seen {
        continue;
      }
      seen := seen + {key};
      assert out + ([events[i]] + Unseen(events[i + 1..], seen)) == out + [events[i]] + Unseen(events[i + 1..], seen);
      out := out + [events[i]];
    }
    assert out + [] == out;
  }

  ghost function KeysOf(events: seq<Event>): set<string> { set e | e in events :: DedupeKey(e) }

  ghost predicate DistinctKeys(events: seq<Event>) {
    forall i, j :: 0 <= i < j < |events| ==> DedupeKey(events[i]) != DedupeKey(events[j])
  }

  lemma KeysSplit(a: seq<Event>)
    requires a != [] && DistinctKeys(a)
    ensures KeysOf(a) == {DedupeKey(a[0])} + KeysOf(a[1..]) && DedupeKey(a[0]) !in KeysOf(a[1..])
    ensures DistinctKeys(a[1..])
  {
    assert a == [a[0]] + a[1..];
    assert forall i :: 0 <= i < |a[1..]| ==> a[1..][i] == a[i + 1];
  }

  /** Distinct events go through unchanged, and what follows them is judged against their keys. */
  lemma {:induction false} DistinctGoThrough(a: seq<Event>, b: seq<Event>, seen: set<string>)
    requires DistinctKeys(a) && KeysOf(a) !! seen
    ensures Unseen(a + b, seen) == a + Unseen(b, seen + KeysOf(a))
  {
    if a == [] {
      assert a + b == b && seen + KeysOf(a) == seen;
    } else {
      KeysSplit(a);
      DistinctGoThrough(a[1..], b, seen + {DedupeKey(a[0])});
      UnseenOfMore(a, b, seen);
      OneInFront(a, Unseen(b, seen + KeysOf(a)));
    }
  }

  lemma OneInFront(a: seq<Event>, rest: seq<Event>)
    requires a != []
    ensures [a[0]] + (a[1..] + rest) == a + rest
  {}

  lemma UnseenOfMore(a: seq<Event>, b: seq<Event>, seen: set<string>)
    requires a != [] && DedupeKey(a[0]) !in seen && KeysOf(a) == {DedupeKey(a[0])} + KeysOf(a[1..])
    ensures Unseen(a + b, seen) == [a[0]] + Unseen(a[1..] + b, seen + {DedupeKey(a[0])})
    ensures seen + {DedupeKey(a[0])} + KeysOf(a[1..]) == seen + KeysOf(a)
  {
    assert (a + b)[1..] == a[1..] + b;
  }

  /** Kept keys are those not seen before, once each. */
  lemma {:induction false} UnseenMeaning(events: seq<Event>, seen: set<string>)
    ensures DistinctKeys(Unseen(events, seen)) && KeysOf(Unseen(events, seen)) == KeysOf(events) - seen
    ensures forall e :: e in Unseen(events, seen) ==> e in events
  {
    if events != [] {
      var key, rest := DedupeKey(events[0]), events[1..];
      assert events == [events[0]] + rest;
      assert KeysOf(events) == {key} + KeysOf(rest);
      if key in seen {
        UnseenMeaning(rest, seen);
      } else {
        UnseenMeaning(rest, seen + {key});
        var more := Unseen(rest, seen + {key});
        assert KeysOf([events[0]] + more) == {key} + KeysOf(more);
        forall j | 0 <= j < |more| ensures DedupeKey(more[j]) != key {
          assert DedupeKey(more[j]) in KeysOf(more);
        }
      }
    }
  }

  /** Position of the first event with a key. */
  function FirstAt(events: seq<Event>, key: string): nat {
    if events == [] || DedupeKey(events[0]) == key then 0 else 1 + FirstAt(events[1..], key)
  }

  /** Each kept event is the first with its key, and the kept events stay in order. */
  lemma {:induction false} UnseenInOrder(events: seq<Event>, seen: set<string>, k: nat)
    requires k < |Unseen(events, seen)|
    ensures var out := Unseen(events, seen);
            && FirstAt(events, DedupeKey(out[k])) < |events| && events[FirstAt(events, DedupeKey(out[k]))] == out[k]
            && (k > 0 ==> FirstAt(events, DedupeKey(out[k - 1])) < FirstAt(events, DedupeKey(out[k])))
  {
    var key, rest := DedupeKey(events[0]), events[1..];
    if key in seen {
      UnseenNotSeen(rest, seen, k);
      UnseenInOrder(rest, seen, k);
      if k > 0 { UnseenNotSeen(rest, seen, k - 1); }
    } else if k > 0 {
      var out := Unseen(rest, seen + {key});
      UnseenNotSeen(rest, seen + {key}, k - 1);
      UnseenInOrder(rest, seen + {key}, k - 1);
      if k > 1 { UnseenNotSeen(rest, seen + {key}, k - 2); }
    }
  }

  lemma UnseenNotSeen(events: seq<Event>, seen: set<string>, k: nat)
    requires k < |Unseen(events, seen)|
    ensures DedupeKey(Unseen(events, seen)[k]) !in seen
  {
    UnseenMeaning(events, seen);
    assert DedupeKey(Unseen(events, seen)[k]) in KeysOf(Unseen(events, seen));
  }

  // ---------------------------------------------------------------- the page

  /** Device records in record-number order; `sort` is stable. */
  function Ascending(rows: seq<Record>): seq<Record> { SortDescending(RecordOrder, rows) }

  function RecordOrder(r: Record): int { -r.recNo }

  function RemoteEvents(w: World, a: Assignment, deviceId: string, nowSec: int, rows: seq<Record>): seq<Event> {
    var sorted := Ascending(rows);
    seq(|sorted|, i requires 0 <= i < |sorted| => ToEvent(w, a, deviceId, nowSec, sorted[i]))
  }

  function Local(t: Table, deviceId: string, since: Option<string>, limit: int): seq<Event> {
    Events(BackfillRows(t, deviceId, since, limit))
  }

  /** Records the device gives for a page that the local rows do not fill; None when it is not asked or fails. */
  function Remote(w: World, a: Option<Assignment>, limit: int, nowSec: int): Option<seq<Record>> {
    if a.None? || w.parse(a.value.settingsJson).None? then None
    else
      var st := w.parse(a.value.settingsJson).value;
      if !st.recordBackfillEnabled then None
      else w.query(nowSec - st.lookbackHours * 3600, nowSec, Min(st.queryLimit, Max(limit * 4, limit)))
  }

  function PageFor(t: Table, w: World, a: Option<Assignment>, deviceId: string, since: Option<string>, limit: int,
                   nowSec: int)
    : Option<seq<Event>>
  {
    Filled(w, a, deviceId, Local(t, deviceId, since, limit), limit, nowSec)
  }

  /** The local rows, with the device's records behind them when there is room. */
  function Filled(w: World, a: Option<Assignment>, deviceId: string, local: seq<Event>, limit: int, nowSec: int)
    : Option<seq<Event>>
  {
    if |local| >= limit || a.None? then Some(local)
    else if w.parse(a.value.settingsJson).None? then None
    else
      match Remote(w, a, limit, nowSec)
      case None => Some(local)
      case Some(rows) => Some(Merged(local, RemoteEvents(w, a.value, deviceId, nowSec, rows), limit))
  }

  function Merged(local: seq<Event>, remote: seq<Event>, limit: nat): seq<Event> {
    Take(Unseen(local + remote, {}), limit)
  }

  class BackfillService {
    const store: SqliteStore
    const assignments: AssignmentRegistry

    constructor (store: SqliteStore, assignments: AssignmentRegistry)
      ensures this.store == store && this.assignments == assignments
    {
      this.store, this.assignments := store, assignments;
    }

    /** `fetch`; it is rejected only when the settings cannot be parsed. */
    method Fetch(w: World, deviceId: string, since: Option<string>, limit: int, nowSec: int)
      returns (r: Option<seq<Event>>)
      requires store.Valid()
      ensures r == PageFor(store.View(), w, assignments.assignments.Get(deviceId), deviceId, since, limit, nowSec)
    {
      var local := store.GetBackfill(deviceId, since, limit);
      if |local| >= limit {
        return Some(local);
      }
      var assignment := assignments.assignments.Get(deviceId);
      if assignment.None? {
        return Some(local);
      }
      var settings := w.parse(assignment.value.settingsJson);
      if settings.None? {
        return None;
      }
      if !settings.value.recordBackfillEnabled {
        return Some(local);
      }
      var startSec := nowSec - settings.value.lookbackHours * 3600;
      var rows := w.query(startSec, nowSec, Min(settings.value.queryLimit, Max(limit * 4, limit)));
      if rows.None? {
        return Some(local);
      }
      var remote := RemoteEvents(w, assignment.value, deviceId, nowSec, rows.value);
      var merged := DedupeByEventId(local + remote);
      r := Some(Take(merged, limit));
    }
  }

  /** Local rows of one device: the table's unique keys carry over to the keys of the page. */
  lemma LocalIsDistinct(t: Table, deviceId: string, since: Option<string>, limit: int)
    requires WellFormed(t)
    ensures DistinctKeys(Local(t, deviceId, since, limit))
    ensures (limit >= 0 ==> |Local(t, deviceId, since, limit)| <= limit)
    ensures forall e :: e in Local(t, deviceId, since, limit) ==> e.deviceId == deviceId
  {
    var w := DeviceAfter(deviceId, StartAfter(t.rows, deviceId, since));
    var rows := Select(t.rows, w);
    SelectKeepsOrder(t.rows, w);
    SelectMembers(t.rows, w);
    var local := Local(t, deviceId, since, limit);
    forall i | 0 <= i < |local| ensures local[i] == rows[i].event && local[i].deviceId == deviceId {
      assert rows[i] in rows;
    }
    forall i, j | 0 <= i < j < |local| ensures DedupeKey(local[i]) != DedupeKey(local[j]) {
      assert RowKey(rows[i]) != RowKey(rows[j]);
      SameRest(deviceId + ":", local[i].eventId, local[j].eventId);
    }
  }

  /** Main result about merging: the local rows come first and complete; then, up to the limit, the device's
      events whose keys are not among them, each once, in record-number order. */
  lemma MergedPage(t: Table, deviceId: string, since: Option<string>, limit: int, remote: seq<Event>)
    requires WellFormed(t) && |Local(t, deviceId, since, limit)| < limit
    ensures var local := Local(t, deviceId, since, limit);
            var page := Merged(local, remote, limit);
            var unseen := Unseen(remote, KeysOf(local));
            && page == local + Take(unseen, limit - |local|)
            && |page| <= limit && DistinctKeys(page)
            && KeysOf(unseen) == KeysOf(remote) - KeysOf(local)
  {
    var local := Local(t, deviceId, since, limit);
    LocalIsDistinct(t, deviceId, since, limit);
    DistinctGoThrough(local, remote, {});
    assert {} + KeysOf(local) == KeysOf(local);
    UnseenMeaning(local + remote, {});
    UnseenMeaning(remote, KeysOf(local));
    var merged, unseen := Unseen(local + remote, {}), Unseen(remote, KeysOf(local));
    assert merged == local + unseen;
    assert forall i :: 0 <= i < |Take(merged, limit)| ==> Take(merged, limit)[i] == merged[i];
  }

  /** Record numbers rise along the device's events, and equal ones keep the device's order. */
  lemma RemoteInRecordOrder(w: World, a: Assignment, deviceId: string, nowSec: int, rows: seq<Record>)
    ensures var sorted := Ascending(rows);
            && multiset(sorted) == multiset(rows) && |RemoteEvents(w, a, deviceId, nowSec, rows)| == |sorted|
            && (forall i, j :: 0 <= i < j < |sorted| ==> sorted[i].recNo <= sorted[j].recNo)
            && (forall n :: WithKey(RecordOrder, n, sorted) == WithKey(RecordOrder, n, rows))
            && forall i :: 0 <= i < |sorted| ==>
                 RemoteEvents(w, a, deviceId, nowSec, rows)[i] == ToEvent(w, a, deviceId, nowSec, sorted[i])
  {
    SortMeaning(RecordOrder, rows);
    var sorted := Ascending(rows);
    forall i, j | 0 <= i < j < |sorted| ensures sorted[i].recNo <= sorted[j].recNo {
      assert RecordOrder(sorted[i]) >= RecordOrder(sorted[j]);
    }
    forall n ensures WithKey(RecordOrder, n, sorted) == WithKey(RecordOrder, n, rows) {
      SortIsStable(RecordOrder, n, rows);
    }
  }

  /** The cursor is not applied to the device's records: a merged page that is not full holds every one of
      them, also those the reader has passed. */
  lemma CursorDoesNotFilterRecords(t: Table, deviceId: string, since: Option<string>, limit: int, remote: seq<Event>)
    requires WellFormed(t) && |Local(t, deviceId, since, limit)| < limit
    requires |Merged(Local(t, deviceId, since, limit), remote, limit)| < limit
    ensures KeysOf(remote) <= KeysOf(Merged(Local(t, deviceId, since, limit), remote, limit))
  {
    var all := Local(t, deviceId, since, limit) + remote;
    UnseenMeaning(all, {});
    forall e | e in remote ensures DedupeKey(e) in KeysOf(all) {
      assert e in all;
    }
  }

  /** What an event made of a device record says. */
  ghost predicate MadeOf(w: World, a: Assignment, deviceId: string, nowSec: int, r: Record, e: Event) {
    && e.deviceId == deviceId && e.direction == a.direction
    && e.occurredAt == 1000 * (match r.createTimeUtcSec case Some(sec) => sec case None => nowSec)
    && e.terminalPersonId == (match r.userId case Some(user) => Some(user) case None => r.cardNo)
    && e.rawPayload == Some(w.payload(r.raw))
    && e.eventId ==
         "accesscontrol-hash-" + w.sha("AccessControl|" + Stamp(w, e.occurredAt, r.raw) + "|" + UserOf(r.raw))
  }

  lemma RemoteIsMadeOf(w: World, a: Assignment, deviceId: string, nowSec: int, rows: seq<Record>, e: Event)
    requires e in RemoteEvents(w, a, deviceId, nowSec, rows)
    ensures exists r :: r in rows && MadeOf(w, a, deviceId, nowSec, r, e)
  {
    RemoteInRecordOrder(w, a, deviceId, nowSec, rows);
    var sorted := Ascending(rows);
    var i :| 0 <= i < |sorted| && RemoteEvents(w, a, deviceId, nowSec, rows)[i] == e;
    assert sorted[i] in multiset(rows);
    StampIsFirstField(w, OccurredAt(sorted[i], nowSec), sorted[i].raw);
    assert MadeOf(w, a, deviceId, nowSec, sorted[i], e);
  }

  lemma BehindPrefix(local: seq<Event>, unseen: seq<Event>, room: nat, k: nat)
    requires |local| <= k < |local + Take(unseen, room)|
    ensures (local + Take(unseen, room))[k] in unseen
  {
    assert (local + Take(unseen, room))[k] == unseen[k - |local|];
  }

  lemma BehindLocalIsRemote(t: Table, deviceId: string, since: Option<string>, limit: int, remote: seq<Event>, k: nat)
    requires WellFormed(t) && |Local(t, deviceId, since, limit)| < limit
    requires |Local(t, deviceId, since, limit)| <= k < |Merged(Local(t, deviceId, since, limit), remote, limit)|
    ensures Merged(Local(t, deviceId, since, limit), remote, limit)[k] in remote
  {
    var local := Local(t, deviceId, since, limit);
    MergedPage(t, deviceId, since, limit, remote);
    BehindPrefix(local, Unseen(remote, KeysOf(local)), limit - |local|, k);
    UnseenMeaning(remote, KeysOf(local));
  }

  /** Where the events of a page come from: behind the local rows each is made of a record that the device gave for the
      look-back window ending now, in the number asked for, and it was asked only when that is enabled. */
  lemma PageIsMadeOf(t: Table, w: World, a: Option<Assignment>, deviceId: string, since: Option<string>, limit: int,
                     nowSec: int, k: nat)
    requires WellFormed(t) && PageFor(t, w, a, deviceId, since, limit, nowSec).Some?
    requires |Local(t, deviceId, since, limit)| <= k < |PageFor(t, w, a, deviceId, since, limit, nowSec).value|
    ensures a.Some? && w.parse(a.value.settingsJson).Some?
    ensures var st, page := w.parse(a.value.settingsJson).value, PageFor(t, w, a, deviceId, since, limit, nowSec).value;
            && st.recordBackfillEnabled
            && var rows := w.query(nowSec - st.lookbackHours * 3600, nowSec, Min(st.queryLimit, Max(limit * 4, limit)));
               rows.Some? && exists r :: r in rows.value && MadeOf(w, a.value, deviceId, nowSec, r, page[k])
  {
    var local := Local(t, deviceId, since, limit);
    FilledMeaning(w, a, deviceId, local, limit, nowSec);
    var rows := Remote(w, a, limit, nowSec).value;
    var remote := RemoteEvents(w, a.value, deviceId, nowSec, rows);
    BehindLocalIsRemote(t, deviceId, since, limit, remote, k);
    RemoteIsMadeOf(w, a.value, deviceId, nowSec, rows, Merged(local, remote, limit)[k]);
  }

  // ---------------------------------------------------------------- rows the reader has passed

  /** Some event is the one stored in a row. */
  ghost predicate Repeats(events: seq<Event>, r: Row) {
    exists e :: e in events && KeyOf(e) == RowKey(r)
  }

  /** A stored row at or before the place where the page starts. */
  ghost predicate Passed(t: Table, deviceId: string, since: Option<string>, r: Row) {
    r in t.rows && r.event.deviceId == deviceId && r.rowSeq <= StartAfter(t.rows, deviceId, since)
  }

  lemma LocalRepeatsNothing(t: Table, deviceId: string, since: Option<string>, limit: int, r: Row)
    requires WellFormed(t) && Passed(t, deviceId, since, r)
    ensures !Repeats(Local(t, deviceId, since, limit), r)
  {
    var after := StartAfter(t.rows, deviceId, since);
    var page := BackfillRows(t, deviceId, since, limit);
    PageMeaning(t, deviceId, after, limit);
    forall e | e in Local(t, deviceId, since, limit) ensures KeyOf(e) != RowKey(r) {
      var k :| 0 <= k < |page| && page[k].event == e;
      assert page[k] in page;
      OtherRowOtherKey(t, page[k], r);
    }
  }

  lemma OtherRowOtherKey(t: Table, a: Row, b: Row)
    requires WellFormed(t) && a in t.rows && b in t.rows && a.rowSeq != b.rowSeq
    ensures RowKey(a) != RowKey(b)
  {
    var i :| 0 <= i < |t.rows| && t.rows[i] == a;
    var j :| 0 <= j < |t.rows| && t.rows[j] == b;
    assert i != j;
  }

  lemma RepeatsJoin(a: seq<Event>, b: seq<Event>, r: Row)
    ensures Repeats(a + b, r) <==> Repeats(a, r) || Repeats(b, r)
  {}

  /** The device is assigned, its settings can be read and enable record backfill, and it answers. */
  ghost predicate Answers(w: World, a: Option<Assignment>, limit: int, nowSec: int) {
    && a.Some? && w.parse(a.value.settingsJson).Some?
    && var st := w.parse(a.value.settingsJson).value;
       && st.recordBackfillEnabled
       && w.query(nowSec - st.lookbackHours * 3600, nowSec, Min(st.queryLimit, Max(limit * 4, limit))).Some?
  }

  /** Main result about the cursor: a page hands a passed row out again exactly when the local rows leave room,
      the device answers, and its unseen events reach that row's key before the page is full. */
  lemma PassedRowComesBackExactly(t: Table, w: World, a: Option<Assignment>, deviceId: string, since: Option<string>,
                                  limit: int, nowSec: int, r: Row)
    requires WellFormed(t) && Passed(t, deviceId, since, r)
    ensures var page, local := PageFor(t, w, a, deviceId, since, limit, nowSec), Local(t, deviceId, since, limit);
            page.Some? && Repeats(page.value, r) <==>
              && |local| < limit && Answers(w, a, limit, nowSec)
              && var remote := RemoteEvents(w, a.value, deviceId, nowSec, Remote(w, a, limit, nowSec).value);
                 Repeats(Take(Unseen(remote, KeysOf(local)), limit - |local|), r)
  {
    var local := Local(t, deviceId, since, limit);
    FilledMeaning(w, a, deviceId, local, limit, nowSec);
    if |local| < limit && Answers(w, a, limit, nowSec) {
      var remote := RemoteEvents(w, a.value, deviceId, nowSec, Remote(w, a, limit, nowSec).value);
      MergedRepeats(t, deviceId, since, limit, remote, r);
    } else {
      LocalRepeatsNothing(t, deviceId, since, limit, r);
    }
  }

  lemma FilledMeaning(w: World, a: Option<Assignment>, deviceId: string, local: seq<Event>, limit: int, nowSec: int)
    ensures Answers(w, a, limit, nowSec) <==> Remote(w, a, limit, nowSec).Some?
    ensures var page := Filled(w, a, deviceId, local, limit, nowSec);
            if |local| < limit && Answers(w, a, limit, nowSec)
            then var rows := Remote(w, a, limit, nowSec).value;
                 page == Some(Merged(local, RemoteEvents(w, a.value, deviceId, nowSec, rows), limit))
            else page.None? || page.value == local
  {}

  lemma MergedRepeats(t: Table, deviceId: string, since: Option<string>, limit: int, remote: seq<Event>, r: Row)
    requires WellFormed(t) && Passed(t, deviceId, since, r) && |Local(t, deviceId, since, limit)| < limit
    ensures var local := Local(t, deviceId, since, limit);
            Repeats(Merged(local, remote, limit), r) <==>
                Repeats(Take(Unseen(remote, KeysOf(local)), limit - |local|), r)
  {
    var local := Local(t, deviceId, since, limit);
    LocalRepeatsNothing(t, deviceId, since, limit, r);
    MergedPage(t, deviceId, since, limit, remote);
    RepeatsJoin(local, Take(Unseen(remote, KeysOf(local)), limit - |local|), r);
  }

  /** A world whose settings enable record backfill and whose device answers with one record; hashing and
      texts are as they may be. */
  function OneRecordWorld(sha: string -> string, decimal: int -> string, payload: map<string, string> -> string,
                          rec: Record): World
  {
    World(sha, decimal, payload, _ => Some(RecordSettings(true, 1, 10)), (_, _, _) => Some([rec]))
  }

  lemma OneRecord(w: World, a: Assignment, deviceId: string, nowSec: int, rec: Record)
    ensures RemoteEvents(w, a, deviceId, nowSec, [rec]) == [ToEvent(w, a, deviceId, nowSec, rec)]
    ensures ToEvent(w, a, deviceId, nowSec, rec).eventId != ""
  {
    assert [rec][1..] == [] && Ascending([rec]) == Insert(RecordOrder, rec, SortDescending(RecordOrder, [])) == [rec];
  }

  /** It does happen, for every record and whatever the hash: the reader's cursor is the only row, that row is
      the record's own event, and the page after it is that event again. */
  lemma PassedRowComesBack(sha: string -> string, decimal: int -> string, payload: map<string, string> -> string,
                           a: Assignment, deviceId: string, nowSec: int, rec: Record)
    ensures var w := OneRecordWorld(sha, decimal, payload, rec);
            var e := ToEvent(w, a, deviceId, nowSec, rec);
            var r := Row(1, e, true, 0, 9);
            var t := Table([r], 1, map[deviceId := Some(e.eventId)]);
            && WellFormed(t) && Passed(t, deviceId, Some(e.eventId), r)
            && PageFor(t, w, Some(a), deviceId, Some(e.eventId), 1, nowSec) == Some([e])
  {
    var w := OneRecordWorld(sha, decimal, payload, rec);
    var e := ToEvent(w, a, deviceId, nowSec, rec);
    var r := Row(1, e, true, 0, 9);
    var t := Table([r], 1, map[deviceId := Some(e.eventId)]);
    OneRecord(w, a, deviceId, nowSec, rec);
    OnlyRowIsPassed(t, r, deviceId, e.eventId);
    assert Unseen([] + [e], {}) == [e];
  }

  lemma OnlyRowIsPassed(t: Table, r: Row, deviceId: string, id: string)
    requires t.rows == [r] && RowKey(r) == Key(deviceId, id) && id != ""
    ensures StartAfter(t.rows, deviceId, Some(id)) == r.rowSeq
    ensures Local(t, deviceId, Some(id), 1) == []
  {
    assert FindKey(t.rows, Key(deviceId, id)) == Some(0);
    assert Select(t.rows, DeviceAfter(deviceId, r.rowSeq)) == [];
  }

  /** A request is rejected exactly when the local rows leave room and the device is assigned with settings that cannot
      be read; when it is not, or the device is not asked or fails, the page is the local rows. */
  lemma RejectedExactly(t: Table, w: World, a: Option<Assignment>, deviceId: string, since: Option<string>, limit: int,
                        nowSec: int)
    ensures var local := Local(t, deviceId, since, limit);
            var page := PageFor(t, w, a, deviceId, since, limit, nowSec);
            && (page.None? <==> |local| < limit && a.Some? && w.parse(a.value.settingsJson).None?)
            && (page.Some? && (|local| >= limit || !Answers(w, a, limit, nowSec)) ==> page.value == local)
  {
    FilledMeaning(w, a, deviceId, Local(t, deviceId, since, limit), limit, nowSec);
  }

  /** On every normal return the local page comes first, no key repeats, and a limit that is not negative
      is respected. */
  lemma EveryPage(t: Table, w: World, a: Option<Assignment>, deviceId: string, since: Option<string>, limit: int,
                  nowSec: int)
    requires WellFormed(t) && PageFor(t, w, a, deviceId, since, limit, nowSec).Some?
    ensures var page := PageFor(t, w, a, deviceId, since, limit, nowSec).value;
            && Local(t, deviceId, since, limit) <= page && DistinctKeys(page)
            && (limit >= 0 ==> |page| <= limit)
  {
    var local := Local(t, deviceId, since, limit);
    LocalIsDistinct(t, deviceId, since, limit);
    var rows := Remote(w, a, limit, nowSec);
    if |local| < limit && rows.Some? {
      MergedPage(t, deviceId, since, limit, RemoteEvents(w, a.value, deviceId, nowSec, rows.value));
    }
  }
}
