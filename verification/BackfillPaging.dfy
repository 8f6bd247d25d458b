/** Reading a device's history page by page through `getBackfill`
    (src/infra/store/sqlite-store.ts), while other statements run between the pages. */
module BackfillPaging {
  import opened Common
  import opened EventStore

  /** Between two reads rows may be added with fresh sequence numbers, removed, or acked; no old
      sequence number is ever given to another event. */
  ghost predicate Evolves(t: Table, t': Table) {
    && t.lastSeq <= t'.lastSeq
    && forall r' :: r' in t'.rows && r'.rowSeq <= t.lastSeq ==> Holds(t.rows, r'.rowSeq, r'.event)
  }

  /** Some row carries this sequence number and event (its acked flag is not fixed). */
  ghost predicate Holds(rows: seq<Row>, n: nat, e: Event) {
    exists r :: r in rows && r.rowSeq == n && r.event == e
  }

  lemma StatementsEvolve(t: Table, e: Event, retentionMs: int, now: int, d: string, id: string, c: Option<string>)
    requires WellFormed(t)
    ensures Evolves(t, Upsert(t, e, retentionMs, now))
    ensures Evolves(t, AfterAck(t, d, id))
    ensures Evolves(t, SetCursor(t, d, c))
    ensures Evolves(t, Purge(t, now))
  {
    UpsertKeepsWellFormed(t, e, retentionMs, now);
    SelectMembers(t.rows, ExpiresAfter(now));
    var acked := AfterAck(t, d, id).rows;
    forall r' | r' in acked && r'.rowSeq <= t.lastSeq ensures Holds(t.rows, r'.rowSeq, r'.event) {
      var i :| 0 <= i < |acked| && acked[i] == r';
      assert t.rows[i] in t.rows;
    }
  }

  lemma EvolvesTransitive(a: Table, b: Table, c: Table)
    requires Evolves(a, b) && Evolves(b, c)
    ensures Evolves(a, c)
  {
    forall r' | r' in c.rows && r'.rowSeq <= a.lastSeq ensures Holds(a.rows, r'.rowSeq, r'.event) {
      assert Holds(b.rows, r'.rowSeq, r'.event);
      var r :| r in b.rows && r.rowSeq == r'.rowSeq && r.event == r'.event;
    }
  }

  /** The statements that may run between two reads. */
  datatype Statement =
    | Insert(event: Event, retentionMs: int, now: int)
    | MarkAcked(deviceId: string, eventId: string)
    | MoveCursor(device: string, cursor: Option<string>)
    | PurgeAt(time: int)

  function Execute(t: Table, s: Statement): Table {
    match s
    case Insert(e, retentionMs, now) => Upsert(t, e, retentionMs, now)
    case MarkAcked(d, id) => AfterAck(t, d, id)
    case MoveCursor(d, cursor) => SetCursor(t, d, cursor)
    case PurgeAt(now) => Purge(t, now)
  }

  function ExecuteAll(t: Table, ss: seq<Statement>): Table {
    if ss == [] then t else Execute(ExecuteAll(t, ss[..|ss| - 1]), ss[|ss| - 1])
  }

  /** Whatever statements run between two reads, the table only evolves. */
  lemma {:induction false} StatementRunsEvolve(t: Table, ss: seq<Statement>)
    requires WellFormed(t)
    ensures WellFormed(ExecuteAll(t, ss)) && Evolves(t, ExecuteAll(t, ss))
  {
    if ss == [] {
      assert forall r :: r in t.rows ==> Holds(t.rows, r.rowSeq, r.event);
    } else {
      var u := ExecuteAll(t, ss[..|ss| - 1]);
      StatementRunsEvolve(t, ss[..|ss| - 1]);
      OneStatementEvolves(u, ss[|ss| - 1]);
      EvolvesTransitive(t, u, ExecuteAll(t, ss));
    }
  }

  lemma OneStatementEvolves(t: Table, s: Statement)
    requires WellFormed(t)
    ensures WellFormed(Execute(t, s)) && Evolves(t, Execute(t, s))
  {
    match s
    case Insert(e, retentionMs, now) =>
      UpsertKeepsWellFormed(t, e, retentionMs, now);
      StatementsEvolve(t, e, retentionMs, now, e.deviceId, e.eventId, None);
    case MarkAcked(d, id) =>
      AckKeepsWellFormed(t, d, id);
      StatementsEvolve(t, Event(id, d, In, 0, None, None), 0, 0, d, id, None);
    case MoveCursor(d, cursor) =>
      StatementsEvolve(t, Event("", d, In, 0, None, None), 0, 0, d, "", cursor);
    case PurgeAt(now) =>
      PurgeKeepsWellFormed(t, now);
      StatementsEvolve(t, Event("", "", In, 0, None, None), 0, now, "", "", None);
  }

  // ---------------------------------------------------------------- one page

  function CursorOf(returned: seq<Row>): Option<string> {
    if returned == [] then None else Some(returned[|returned| - 1].event.eventId)
  }

  /** The cursor row, while it stays stored, is found again by its event id. */
  lemma CursorFound(t: Table, d: string, last: Row)
    requires WellFormed(t) && Holds(t.rows, last.rowSeq, last.event)
    requires last.event.deviceId == d && last.event.eventId != ""
    ensures StartAfter(t.rows, d, Some(last.event.eventId)) == last.rowSeq
  {
    var r :| r in t.rows && r.rowSeq == last.rowSeq && r.event == last.event;
    var k := Key(d, last.event.eventId);
    var j :| 0 <= j < |t.rows| && t.rows[j] == r;
    assert RowKey(t.rows[j]) == k;
    FindKeyMeaning(t.rows, k);
    assert Stored(t.rows, k);
    var i := FindKey(t.rows, k).value;
    assert RowKey(t.rows[i]) == RowKey(t.rows[j]);
  }

  /** A cursor sends the reader back to the beginning exactly when it is empty or its row is gone. */
  lemma RestartsExactlyWhenCursorLost(t: Table, d: string, id: string)
    ensures StartAfter(t.rows, d, Some(id)) == -1 <==> id == "" || !Stored(t.rows, Key(d, id))
  {
    FindKeyMeaning(t.rows, Key(d, id));
  }

  // ---------------------------------------------------------------- a whole reading session

  /** Rows handed out by one request per table in `ts`, each continuing from the last event id returned. */
  ghost function Pages(ts: seq<Table>, d: string, limit: int): seq<Row> {
    if ts == [] then []
    else
      var before := Pages(ts[..|ts| - 1], d, limit);
      before + BackfillRows(ts[|ts| - 1], d, CursorOf(before), limit)
  }

  /** The row the cursor names is still stored, under a usable id. */
  ghost predicate CursorStored(t: Table, returned: seq<Row>) {
    returned != [] ==>
      var last := returned[|returned| - 1];
      last.event.eventId != "" && Holds(t.rows, last.rowSeq, last.event)
  }

  /** So it is whenever the next page is asked for. */
  ghost predicate CursorKept(ts: seq<Table>, d: string, limit: int) {
    forall i :: 0 < i < |ts| ==> CursorStored(ts[i], Pages(ts[..i], d, limit))
  }

  ghost predicate Session(ts: seq<Table>) {
    && (forall i :: 0 <= i < |ts| ==> WellFormed(ts[i]))
    && (forall i, j :: 0 <= i && j == i + 1 < |ts| ==> Evolves(ts[i], ts[j]))
  }

  /** Every stored row of the device up to sequence number `bound` has been handed out. */
  ghost predicate ReturnedUpTo(t: Table, d: string, bound: int, out: seq<Row>) {
    forall r :: r in t.rows && r.event.deviceId == d && r.rowSeq <= bound ==> Holds(out, r.rowSeq, r.event)
  }

  /** `out` is in strictly increasing order (so nothing is repeated), belongs to the device, and skips
      no row still stored. */
  ghost predicate Faithful(t: Table, d: string, out: seq<Row>) {
    && SeqOrdered(out)
    && (forall i :: 0 <= i < |out| ==> out[i].event.deviceId == d)
    && LastSeqOf(out) <= t.lastSeq
    && ReturnedUpTo(t, d, LastSeqOf(out), out)
  }

  /** Main result: however the table evolved between the pages, what was returned is faithful to the
      table now; and a page shorter than the limit means the whole stored history has been returned. */
  lemma {:induction false} PagingIsExact(ts: seq<Table>, d: string, limit: int)
    requires ts != [] && Session(ts) && CursorKept(ts, d, limit)
    ensures Faithful(ts[|ts| - 1], d, Pages(ts, d, limit))
    ensures limit < 0 || |Pages(ts, d, limit)| - |Pages(ts[..|ts| - 1], d, limit)| < limit ==>
              ReturnedUpTo(ts[|ts| - 1], d, ts[|ts| - 1].lastSeq, Pages(ts, d, limit))
  {
    var n := |ts| - 1;
    if n == 0 {
      assert ts[..n] == [] && Pages([], d, limit) == [];
    } else {
      SessionPrefix(ts, d, limit);
      PagingIsExact(ts[..n], d, limit);
      assert ts[..n][n - 1] == ts[n - 1];
      CarriedForward(ts[n - 1], ts[n], d, Pages(ts[..n], d, limit));
      assert CursorStored(ts[n], Pages(ts[..n], d, limit));
    }
    LastPage(ts, d, limit);
  }

  lemma LastPage(ts: seq<Table>, d: string, limit: int)
    requires ts != []
    requires var t, before := ts[|ts| - 1], Pages(ts[..|ts| - 1], d, limit);
             WellFormed(t) && Faithful(t, d, before) && CursorStored(t, before)
    ensures Faithful(ts[|ts| - 1], d, Pages(ts, d, limit))
    ensures limit < 0 || |Pages(ts, d, limit)| - |Pages(ts[..|ts| - 1], d, limit)| < limit ==>
              ReturnedUpTo(ts[|ts| - 1], d, ts[|ts| - 1].lastSeq, Pages(ts, d, limit))
  {
    NextPage(ts[|ts| - 1], d, Pages(ts[..|ts| - 1], d, limit), limit);
  }

  lemma NextPage(t: Table, d: string, before: seq<Row>, limit: int)
    requires WellFormed(t) && Faithful(t, d, before) && CursorStored(t, before)
    ensures var page := BackfillRows(t, d, CursorOf(before), limit);
            && Faithful(t, d, before + page)
            && (limit < 0 || |page| < limit ==> ReturnedUpTo(t, d, t.lastSeq, before + page))
  {
    var after := StartAfter(t.rows, d, CursorOf(before));
    var page := BackfillRows(t, d, CursorOf(before), limit);
    if before != [] {
      CursorFound(t, d, before[|before| - 1]);
    }
    PageMeaning(t, d, after, limit);
    Joined(before, page, t, d);
    if limit < 0 || |page| < limit {
      AllJoined(before, page, t, d);
    }
  }

  lemma ShorterSession(ts: seq<Table>)
    requires |ts| > 1 && Session(ts)
    ensures Session(ts[..|ts| - 1]) && Evolves(ts[|ts| - 2], ts[|ts| - 1])
  {
    var prior := ts[..|ts| - 1];
    forall i, j | 0 <= i && j == i + 1 < |prior| ensures Evolves(prior[i], prior[j]) {
      assert prior[i] == ts[i] && prior[j] == ts[j];
    }
  }

  lemma ShorterCursorKept(ts: seq<Table>, d: string, limit: int)
    requires |ts| > 1 && CursorKept(ts, d, limit)
    ensures CursorKept(ts[..|ts| - 1], d, limit)
  {
    var prior := ts[..|ts| - 1];
    forall i | 0 < i < |prior| ensures CursorStored(prior[i], Pages(prior[..i], d, limit)) {
      assert prior[..i] == ts[..i] && prior[i] == ts[i];
      assert CursorStored(ts[i], Pages(ts[..i], d, limit));
    }
  }

  lemma SessionPrefix(ts: seq<Table>, d: string, limit: int)
    requires |ts| > 1 && Session(ts) && CursorKept(ts, d, limit)
    ensures var prior := ts[..|ts| - 1];
            Session(prior) && CursorKept(prior, d, limit) && Evolves(ts[|ts| - 2], ts[|ts| - 1])
  {
    ShorterSession(ts);
    ShorterCursorKept(ts, d, limit);
  }

  /** What was faithful to the table before still is after it evolved. */
  lemma CarriedForward(t: Table, t': Table, d: string, out: seq<Row>)
    requires Faithful(t, d, out) && Evolves(t, t')
    ensures Faithful(t', d, out)
  {
    forall r | r in t'.rows && r.event.deviceId == d && r.rowSeq <= LastSeqOf(out)
      ensures Holds(out, r.rowSeq, r.event)
    {
      assert Holds(t.rows, r.rowSeq, r.event);
      var o :| o in t.rows && o.rowSeq == r.rowSeq && o.event == r.event;
    }
  }

  lemma Joined(before: seq<Row>, page: seq<Row>, t: Table, d: string)
    requires WellFormed(t) && Faithful(t, d, before) && SeqOrdered(page)
    requires forall r :: r in page ==> r in t.rows && r.event.deviceId == d && r.rowSeq > LastSeqOf(before)
    requires forall r :: r in t.rows && r.event.deviceId == d && LastSeqOf(before) < r.rowSeq <= LastSeqOf(page) ==>
                           r in page
    ensures Faithful(t, d, before + page)
  {
    var out := before + page;
    assert forall i :: 0 <= i < |before| ==> before[i].rowSeq <= LastSeqOf(before);
    forall i | 0 <= i < |page|
      ensures page[i].rowSeq > LastSeqOf(before) && page[i].event.deviceId == d && page[i].rowSeq <= t.lastSeq
    {
      assert page[i] in page;
    }
    if page == [] {
      assert out == before;
    } else {
      forall r | r in t.rows && r.event.deviceId == d && r.rowSeq <= LastSeqOf(out)
        ensures Holds(out, r.rowSeq, r.event)
      {
        if r.rowSeq <= LastSeqOf(before) {
          KeptOnExtension(before, page, r.rowSeq, r.event);
        } else {
          assert r in page && r in out;
        }
      }
    }
  }

  lemma AllJoined(before: seq<Row>, page: seq<Row>, t: Table, d: string)
    requires Faithful(t, d, before)
    requires forall r :: r in t.rows && r.event.deviceId == d && LastSeqOf(before) < r.rowSeq ==> r in page
    ensures ReturnedUpTo(t, d, t.lastSeq, before + page)
  {
    forall r | r in t.rows && r.event.deviceId == d && r.rowSeq <= t.lastSeq
      ensures Holds(before + page, r.rowSeq, r.event)
    {
      if r.rowSeq <= LastSeqOf(before) {
        KeptOnExtension(before, page, r.rowSeq, r.event);
      } else {
        assert r in page && r in before + page;
      }
    }
  }

  lemma KeptOnExtension(a: seq<Row>, b: seq<Row>, n: nat, e: Event)
    requires Holds(a, n, e)
    ensures Holds(a + b, n, e)
  {
    var r :| r in a && r.rowSeq == n && r.event == e;
    assert r in a + b;
  }
}
