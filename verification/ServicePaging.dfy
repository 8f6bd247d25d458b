/** Reading a device's history through `BackfillService.fetch` (src/domain/backfill/backfill-service.ts): every
    request continues from the last event of the page before, which may be one of the device's own records. */
module ServicePaging {
  import opened Common
  import opened EventStore
  import opened BackfillPaging
  import opened Registry
  import opened Backfill

  /** What one request finds. */
  datatype Visit = Visit(t: Table, w: World, a: Option<Assignment>, nowSec: int)

  /** The table rows handed out so far and the id to continue from. */
  datatype Reading = Reading(rows: seq<Row>, cursor: Option<string>)

  function PageOf(v: Visit, d: string, limit: int, since: Option<string>): Option<seq<Event>> {
    PageFor(v.t, v.w, v.a, d, since, limit, v.nowSec)
  }

  /** The reader after one more request; a rejected request changes nothing. */
  ghost function Next(v: Visit, d: string, limit: int, before: Reading): Reading {
    match PageOf(v, d, limit, before.cursor)
    case None => before
    case Some(page) =>
      Reading(before.rows + BackfillRows(v.t, d, before.cursor, limit),
              if page == [] then before.cursor else Some(page[|page| - 1].eventId))
  }

  ghost function Read(vs: seq<Visit>, d: string, limit: int): Reading {
    if vs == [] then Reading([], None) else Next(vs[|vs| - 1], d, limit, Read(vs[..|vs| - 1], d, limit))
  }

  // ---------------------------------------------------------------- one request

  /** The rows handed out are faithful to the table, and a page the table did not fill ends the history. */
  ghost predicate ExactStep(v: Visit, d: string, limit: int, before: Reading) {
    var out := Next(v, d, limit, before).rows;
    && Faithful(v.t, d, out)
    && (PageOf(v, d, limit, before.cursor).Some? && (limit < 0 || |out| - |before.rows| < limit) ==>
          ReturnedUpTo(v.t, d, v.t.lastSeq, out))
  }

  /** The same stored rows of the device lie behind the place where the page starts and behind the last row
      handed out. */
  ghost predicate InPlace(t: Table, d: string, start: int, out: seq<Row>) {
    forall r :: r in t.rows && r.event.deviceId == d ==> (r.rowSeq > start <==> r.rowSeq > LastSeqOf(out))
  }

  ghost predicate StepInPlace(v: Visit, d: string, limit: int, before: Reading) {
    PageOf(v, d, limit, before.cursor).Some? ==>
      InPlace(v.t, d, StartAfter(v.t.rows, d, before.cursor), before.rows)
  }

  /** One request keeps the reading exact exactly when its page starts in place. */
  lemma StepIsExactly(v: Visit, d: string, limit: int, before: Reading)
    requires WellFormed(v.t) && Faithful(v.t, d, before.rows) && limit != 0
    ensures ExactStep(v, d, limit, before) <==> StepInPlace(v, d, limit, before)
  {
    if PageOf(v, d, limit, before.cursor).Some? {
      var start := StartAfter(v.t.rows, d, before.cursor);
      var page := BackfillRows(v.t, d, before.cursor, limit);
      PageMeaning(v.t, d, start, limit);
      if InPlace(v.t, d, start, before.rows) {
        ExactFromPlace(v.t, d, limit, start, before.rows, page);
      } else {
        NotExactElsewhere(v.t, d, limit, start, before.rows, page);
      }
    }
  }

  lemma ExactFromPlace(t: Table, d: string, limit: int, start: int, out: seq<Row>, page: seq<Row>)
    requires WellFormed(t) && Faithful(t, d, out) && InPlace(t, d, start, out) && IsPage(t.rows, d, start, limit, page)
    ensures Faithful(t, d, out + page)
    ensures limit < 0 || |page| < limit ==> ReturnedUpTo(t, d, t.lastSeq, out + page)
  {
    Joined(out, page, t, d);
    if limit < 0 || |page| < limit {
      AllJoined(out, page, t, d);
    }
  }

  /** A row on one side only is handed out again or left out. */
  lemma NotExactElsewhere(t: Table, d: string, limit: int, start: int, out: seq<Row>, page: seq<Row>)
    requires WellFormed(t) && Faithful(t, d, out) && !InPlace(t, d, start, out) && limit != 0
    requires IsPage(t.rows, d, start, limit, page)
    ensures !(Faithful(t, d, out + page) &&
              (limit < 0 || |page| < limit ==> ReturnedUpTo(t, d, t.lastSeq, out + page)))
  {
    var r :| r in t.rows && r.event.deviceId == d && !(r.rowSeq > start <==> r.rowSeq > LastSeqOf(out));
    if r.rowSeq > start {
      RepeatedRow(t, d, limit, start, out, page, r);
    } else {
      SkippedRow(t, d, limit, start, out, page, r);
    }
  }

  lemma RepeatedRow(t: Table, d: string, limit: int, start: int, out: seq<Row>, page: seq<Row>, r: Row)
    requires WellFormed(t) && IsPage(t.rows, d, start, limit, page) && limit != 0
    requires r in t.rows && r.event.deviceId == d && start < r.rowSeq <= LastSeqOf(out)
    ensures !SeqOrdered(out + page)
  {
    assert page != [];
    assert page[0].rowSeq <= r.rowSeq by {
      if r in page {
        var i :| 0 <= i < |page| && page[i] == r;
      }
    }
    var all := out + page;
    assert all[|out| - 1] == out[|out| - 1] && all[|out|] == page[0];
  }

  lemma SkippedRow(t: Table, d: string, limit: int, start: int, out: seq<Row>, page: seq<Row>, r: Row)
    requires WellFormed(t) && SeqOrdered(out) && IsPage(t.rows, d, start, limit, page) && limit != 0
    requires r in t.rows && r.event.deviceId == d && LastSeqOf(out) < r.rowSeq <= start
    ensures !Holds(out + page, r.rowSeq, r.event)
    ensures page == [] || r.rowSeq <= LastSeqOf(out + page)
  {
    forall o | o in out + page ensures o.rowSeq != r.rowSeq {
      if o in out {
        var i :| 0 <= i < |out| && out[i] == o;
      } else {
        assert o in page;
      }
    }
    if page != [] {
      assert page[|page| - 1] in page && (out + page)[|out + page| - 1] == page[|page| - 1];
    }
  }

  // ---------------------------------------------------------------- a whole reading session

  ghost predicate ServedSession(vs: seq<Visit>) {
    && (forall i :: 0 <= i < |vs| ==> WellFormed(vs[i].t))
    && (forall i, j :: 0 <= i && j == i + 1 < |vs| ==> Evolves(vs[i].t, vs[j].t))
  }

  ghost predicate ExactThroughout(vs: seq<Visit>, d: string, limit: int) {
    forall n :: 0 <= n < |vs| ==> ExactStep(vs[n], d, limit, Read(vs[..n], d, limit))
  }

  ghost predicate InPlaceThroughout(vs: seq<Visit>, d: string, limit: int) {
    forall n :: 0 <= n < |vs| ==> StepInPlace(vs[n], d, limit, Read(vs[..n], d, limit))
  }

  /** What was handed out before a request is faithful to the table it finds. */
  lemma BeforeStep(vs: seq<Visit>, d: string, limit: int, n: nat)
    requires ServedSession(vs) && n < |vs|
    requires n == 0 || ExactStep(vs[n - 1], d, limit, Read(vs[..n - 1], d, limit))
    ensures Faithful(vs[n].t, d, Read(vs[..n], d, limit).rows)
  {
    if n > 0 {
      assert vs[..n][..n - 1] == vs[..n - 1] && vs[..n][n - 1] == vs[n - 1];
      assert Read(vs[..n], d, limit) == Next(vs[n - 1], d, limit, Read(vs[..n - 1], d, limit));
      CarriedForward(vs[n - 1].t, vs[n].t, d, Read(vs[..n], d, limit).rows);
    }
  }

  /** Main result: whatever statements run between the requests and whatever the device answers, the reading is
      exact all along exactly when every page starts in place. */
  lemma ServedPagingIsExactly(vs: seq<Visit>, d: string, limit: int)
    requires ServedSession(vs) && limit != 0
    ensures ExactThroughout(vs, d, limit) <==> InPlaceThroughout(vs, d, limit)
  {
    if ExactThroughout(vs, d, limit) {
      forall n | 0 <= n < |vs| ensures StepInPlace(vs[n], d, limit, Read(vs[..n], d, limit)) {
        BeforeStep(vs, d, limit, n);
        StepIsExactly(vs[n], d, limit, Read(vs[..n], d, limit));
      }
    }
    if InPlaceThroughout(vs, d, limit) {
      forall n | 0 <= n < |vs| ensures ExactStep(vs[n], d, limit, Read(vs[..n], d, limit)) {
        StepsInPlaceAreExact(vs, d, limit, n);
      }
    }
  }

  lemma {:induction false} StepsInPlaceAreExact(vs: seq<Visit>, d: string, limit: int, n: nat)
    requires ServedSession(vs) && limit != 0 && n < |vs| && InPlaceThroughout(vs, d, limit)
    ensures ExactStep(vs[n], d, limit, Read(vs[..n], d, limit))
  {
    if n > 0 {
      StepsInPlaceAreExact(vs, d, limit, n - 1);
    }
    BeforeStep(vs, d, limit, n);
    StepIsExactly(vs[n], d, limit, Read(vs[..n], d, limit));
  }

  // ---------------------------------------------------------------- the last event of a page

  /** No row of the device handed out so far is stored any more. */
  ghost predicate NothingToRepeat(t: Table, d: string, out: seq<Row>) {
    forall r :: r in t.rows && r.event.deviceId == d ==> r.rowSeq > LastSeqOf(out)
  }

  /** The last event of a page decides about the next one. When it is not stored, or without an id, the next page
      starts again from the beginning; when it is stored in row `r`, the next page starts behind `r`. */
  lemma NextPageIsExactly(v: Visit, d: string, limit: int, before: Reading, id: string)
    requires WellFormed(v.t) && Faithful(v.t, d, before.rows) && limit != 0
    requires before.cursor == Some(id) && PageOf(v, d, limit, before.cursor).Some?
    ensures id == "" || !Stored(v.t.rows, Key(d, id)) ==>
              (ExactStep(v, d, limit, before) <==> NothingToRepeat(v.t, d, before.rows))
    ensures forall r :: r in v.t.rows && RowKey(r) == Key(d, id) && id != "" ==>
              (ExactStep(v, d, limit, before) <==> InPlace(v.t, d, r.rowSeq, before.rows))
  {
    StepIsExactly(v, d, limit, before);
    RestartsExactlyWhenCursorLost(v.t, d, id);
    forall r | r in v.t.rows && RowKey(r) == Key(d, id) && id != ""
      ensures StartAfter(v.t.rows, d, Some(id)) == r.rowSeq
    {
      CursorFound(v.t, d, r);
    }
  }

  /** So a page that ends with a table row is continued exactly while that row is stored. */
  lemma RowIsContinued(v: Visit, d: string, limit: int, before: Reading)
    requires WellFormed(v.t) && Faithful(v.t, d, before.rows) && limit != 0 && CursorStored(v.t, before.rows)
    requires before.rows != [] && before.cursor == CursorOf(before.rows)
    ensures ExactStep(v, d, limit, before)
  {
    StepIsExactly(v, d, limit, before);
    CursorFound(v.t, d, before.rows[|before.rows| - 1]);
  }

  // ---------------------------------------------------------------- pages that end with a device's record

  /** The device answers a page of two with one record, another event than the row `x`. */
  ghost predicate EndsWithRecord(v: Visit, d: string, x: Row, e: Event) {
    && v.a.Some? && Answers(v.w, v.a, 2, v.nowSec)
    && RemoteEvents(v.w, v.a.value, d, v.nowSec, Remote(v.w, v.a, 2, v.nowSec).value) == [e]
    && x.event.deviceId == d == e.deviceId && x.event.eventId != e.eventId
  }

  /** There are such devices, for every record and whatever the hash. */
  lemma OneRecordEndsPage(sha: string -> string, decimal: int -> string, payload: map<string, string> -> string,
                          a: Assignment, d: string, nowSec: int, rec: Record, t: Table, x: Row)
    requires var w := OneRecordWorld(sha, decimal, payload, rec);
             x.event.deviceId == d && x.event.eventId != ToEvent(w, a, d, nowSec, rec).eventId
    ensures var w := OneRecordWorld(sha, decimal, payload, rec);
            EndsWithRecord(Visit(t, w, Some(a), nowSec), d, x, ToEvent(w, a, d, nowSec, rec))
  {
    OneRecord(OneRecordWorld(sha, decimal, payload, rec), a, d, nowSec, rec);
  }

  lemma BothUnseen(a: Event, b: Event)
    requires a.deviceId == b.deviceId && a.eventId != b.eventId
    ensures Unseen([a, b], {}) == [a, b] && Unseen([b], {}) == [b]
  {
    SameRest(a.deviceId + ":", a.eventId, b.eventId);
    assert DedupeKey(a) != DedupeKey(b);
    assert [a, b][1..] == [b] && [b][1..] == [] && Unseen([b], {} + {DedupeKey(a)}) == [b];
  }

  lemma RowThenRecord(v: Visit, d: string, since: Option<string>, x: Row, e: Event)
    requires EndsWithRecord(v, d, x, e) && BackfillRows(v.t, d, since, 2) == [x]
    ensures PageOf(v, d, 2, since) == Some([x.event, e])
  {
    FilledMeaning(v.w, v.a, d, Local(v.t, d, since, 2), 2, v.nowSec);
    BothUnseen(x.event, e);
    assert Local(v.t, d, since, 2) == [x.event] && [x.event] + [e] == [x.event, e];
  }

  lemma RecordAlone(v: Visit, d: string, since: Option<string>, x: Row, e: Event)
    requires EndsWithRecord(v, d, x, e) && BackfillRows(v.t, d, since, 2) == []
    ensures PageOf(v, d, 2, since) == Some([e])
  {
    FilledMeaning(v.w, v.a, d, Local(v.t, d, since, 2), 2, v.nowSec);
    BothUnseen(x.event, e);
    assert Local(v.t, d, since, 2) == [] && [] + [e] == [e];
  }

  lemma OnlyRow(x: Row, d: string, since: Option<string>)
    requires x.event.deviceId == d && since != Some(x.event.eventId)
    ensures StartAfter([x], d, since) == -1
    ensures Select([x], DeviceAfter(d, -1)) == [x]
  {
    assert [x][1..] == [];
  }

  lemma TwoRequests(v1: Visit, v2: Visit, d: string, first: Reading, second: Reading)
    requires Next(v1, d, 2, Reading([], None)) == first && Next(v2, d, 2, first) == second
    ensures Read([v1], d, 2) == first && Read([v1, v2], d, 2) == second
  {
    assert [v1, v2][..1] == [v1] && [v1][..0] == [];
    assert Read([], d, 2) == Reading([], None) && Read([v1], d, 2) == Next(v1, d, 2, Read([], d, 2));
  }

  lemma ServedTwice(v1: Visit, v2: Visit)
    requires WellFormed(v1.t) && WellFormed(v2.t) && Evolves(v1.t, v2.t)
    ensures ServedSession([v1, v2])
  {
    var vs := [v1, v2];
    assert vs[0] == v1 && vs[1] == v2;
  }

  lemma Served(v: Visit, d: string, before: Reading, rows: seq<Row>, page: seq<Event>)
    requires PageOf(v, d, 2, before.cursor) == Some(page) && page != []
    requires BackfillRows(v.t, d, before.cursor, 2) == rows
    ensures Next(v, d, 2, before) == Reading(before.rows + rows, Some(page[|page| - 1].eventId))
  {}

  /** Unless the cursor is the row's id, the page is the row and then the record. */
  lemma OnlyRowIsServed(v: Visit, d: string, x: Row, e: Event, before: Reading)
    requires v.t.rows == [x] && EndsWithRecord(v, d, x, e) && before.cursor != Some(x.event.eventId)
    ensures Next(v, d, 2, before) == Reading(before.rows + [x], Some(e.eventId))
  {
    OnlyRow(x, d, before.cursor);
    RowThenRecord(v, d, before.cursor, x, e);
    Served(v, d, before, [x], [x.event, e]);
  }

  lemma SingleRow(v: Visit, x: Row)
    requires v.t.rows == [x] && x.rowSeq <= v.t.lastSeq
    ensures WellFormed(v.t) && ServedSession([v, v])
  {
    assert Holds(v.t.rows, x.rowSeq, x.event);
    ServedTwice(v, v);
  }

  /** The record is not in the table: the second page hands the row out again. */
  lemma RecordRepeatsRow(v: Visit, d: string, x: Row, e: Event)
    requires v.t.rows == [x] && x.rowSeq <= v.t.lastSeq && EndsWithRecord(v, d, x, e)
    ensures ServedSession([v, v]) && Read([v, v], d, 2).rows == [x, x]
  {
    var first, second := Reading([] + [x], Some(e.eventId)), Reading([] + [x] + [x], Some(e.eventId));
    SingleRow(v, x);
    OnlyRowIsServed(v, d, x, e, Reading([], None));
    OnlyRowIsServed(v, d, x, e, first);
    TwoRequests(v, v, d, first, second);
  }

  /** Events that arrive between two pages: first another one, then the record of the first page. */
  function Arrivals(y: Event, e: Event): seq<Statement> {
    [Insert(y, 0, 0), Insert(e, 0, 0)]
  }

  ghost predicate Unused(t: Table, id: string) { forall r :: r in t.rows ==> r.event.eventId != id }

  lemma OneArrival(t: Table, u: Table, d: string, y: Event)
    requires WellFormed(t) && u == Upsert(t, y, 0, 0) && y.deviceId == d
    requires Unused(t, y.eventId)
    ensures WellFormed(u) && u.lastSeq == t.lastSeq + 1 && u.rows == t.rows + [Row(t.lastSeq + 1, y, false, 0, 0)]
    ensures forall id :: Unused(t, id) && id != y.eventId ==> Unused(u, id)
  {
    FindKeyMeaning(t.rows, Key(d, y.eventId));
    UpsertKeepsWellFormed(t, y, 0, 0);
  }

  lemma FirstIsMember<T>(s: seq<T>)
    ensures s != [] ==> s[0] in s
  {}

  lemma NothingBehindLast(t: Table, d: string, r: Row)
    requires WellFormed(t) && t.rows != [] && r == t.rows[|t.rows| - 1] && RowKey(r).deviceId == d
    requires RowKey(r).eventId != ""
    ensures BackfillRows(t, d, Some(RowKey(r).eventId), 2) == []
  {
    CursorFound(t, d, r);
    PageMeaning(t, d, r.rowSeq, 2);
    forall o | o in t.rows ensures o.rowSeq <= r.rowSeq {
      var i :| 0 <= i < |t.rows| && t.rows[i] == o;
      assert i < |t.rows| - 1 || o == r;
    }
    FirstIsMember(BackfillRows(t, d, Some(RowKey(r).eventId), 2));
  }

  lemma OneByOne(t: Table, y: Event, e: Event)
    ensures ExecuteAll(t, Arrivals(y, e)) == Upsert(Upsert(t, y, 0, 0), e, 0, 0)
  {
    var ss := Arrivals(y, e);
    assert ss[..1] == [ss[0]] && [ss[0]][..0] == [];
    assert ExecuteAll(t, [ss[0]]) == Execute(ExecuteAll(t, []), ss[0]);
  }

  /** Both events are stored behind the earlier rows, the record last. */
  lemma BothArrive(t: Table, t': Table, d: string, y: Event, e: Event)
    requires WellFormed(t) && y.deviceId == e.deviceId == d && Unused(t, y.eventId) && Unused(t, e.eventId)
    requires y.eventId != e.eventId && t' == Upsert(Upsert(t, y, 0, 0), e, 0, 0)
    ensures WellFormed(t')
    ensures t'.rows == t.rows + [Row(t.lastSeq + 1, y, false, 0, 0)] + [Row(t.lastSeq + 2, e, false, 0, 0)]
  {
    var u := Upsert(t, y, 0, 0);
    OneArrival(t, u, d, y);
    OneArrival(u, t', d, e);
  }

  lemma AfterArrivals(t: Table, d: string, y: Event, e: Event)
    requires WellFormed(t) && y.deviceId == e.deviceId == d && Unused(t, y.eventId) && Unused(t, e.eventId)
    requires y.eventId != e.eventId && e.eventId != ""
    ensures var t' := ExecuteAll(t, Arrivals(y, e));
            Holds(t'.rows, t.lastSeq + 1, y) && BackfillRows(t', d, Some(e.eventId), 2) == []
  {
    var t' := ExecuteAll(t, Arrivals(y, e));
    OneByOne(t, y, e);
    BothArrive(t, t', d, y, e);
    assert t'.rows[|t.rows|] in t'.rows;
    NothingBehindLast(t', d, t'.rows[|t.rows| + 1]);
  }

  /** The record reaches the table behind another event: the second page starts behind both, so the other event
      is never handed out although that page is short. */
  lemma RecordSkipsRow(v1: Visit, v2: Visit, d: string, x: Row, y: Event, e: Event)
    requires v1.t.rows == [x] && x.rowSeq <= v1.t.lastSeq && EndsWithRecord(v1, d, x, e) && EndsWithRecord(v2, d, x, e)
    requires v2.t == ExecuteAll(v1.t, Arrivals(y, e)) && e.eventId != ""
    requires y.deviceId == d && y.eventId !in {x.event.eventId, e.eventId}
    ensures ServedSession([v1, v2]) && Read([v1, v2], d, 2).rows == [x]
    ensures Holds(v2.t.rows, v1.t.lastSeq + 1, y) && PageOf(v2, d, 2, Read([v1], d, 2).cursor) == Some([e])
  {
    var first := Reading([] + [x], Some(e.eventId));
    SingleRow(v1, x);
    StatementRunsEvolve(v1.t, Arrivals(y, e));
    OnlyRowIsServed(v1, d, x, e, Reading([], None));
    AfterArrivals(v1.t, d, y, e);
    RecordAlone(v2, d, first.cursor, x, e);
    Served(v2, d, first, [], [e]);
    TwoRequests(v1, v2, d, first, Reading(first.rows + [], Some(e.eventId)));
    ServedTwice(v1, v2);
  }
}
