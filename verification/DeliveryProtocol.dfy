/** The queue, the network and the Device Service as one state machine: ingestion, delivery, purging,
    leases, time and process crashes interleave freely. */
module DeliveryProtocol {
  import opened Common
  import opened EventStore
  import opened Delivery

  /** `deliverPending` has at most one call in flight; it is numbered by its position in `sent`. */
  datatype Phase = Idle | Awaiting(req: nat)

  /** `sent` keeps every batch ever put on the wire, so the Device Service may read an old request
      arbitrarily late and any number of times. `ingested` and `expired` are history. */
  datatype Sys = Sys(
    table: Table,
    now: int,
    phase: Phase,
    sent: seq<seq<Row>>,
    dsLog: seq<Event>,
    ingested: set<Event>,
    expired: set<Key>)

  datatype Action =
    | Ingest(event: Event, retentionMs: int)
    | Tick(to: int)
    | SendBatch(limit: int)
    | DsReads(req: nat, index: nat)        // records one event of a request it has received
    | ReplyArrives(results: seq<AckResult>)
    | CrashInReply(results: seq<AckResult>, applied: nat)
    | GiveUp                               // lost request, lost reply, timeout, error or restart
    | RunPurge
    | LeaseApplied(devices: seq<(string, Option<string>)>)

  ghost function DsKeys(log: seq<Event>): set<Key> {
    set i | 0 <= i < |log| :: KeyOf(log[i])
  }

  /** The Device Service inserts an event unless it already holds its (device, event) key. */
  function Record(log: seq<Event>, e: Event): seq<Event> {
    if exists i :: 0 <= i < |log| && KeyOf(log[i]) == KeyOf(e) then log else log + [e]
  }

  /** A positive result for an id of the batch means that some row of the batch with that id is recorded. */
  ghost predicate Truthful(batch: seq<Row>, results: seq<AckResult>, recorded: set<Key>) {
    forall r :: r in results && (r.kind == Inserted || r.kind == Duplicate) && FindEvent(batch, r.eventId).Some? ==>
      HasRecorded(batch, r.eventId, recorded)
  }

  ghost predicate HasRecorded(batch: seq<Row>, id: string, recorded: set<Key>) {
    exists i :: 0 <= i < |batch| && batch[i].event.eventId == id && RowKey(batch[i]) in recorded
  }

  /** The first row of the batch with an id, which is the one a result for that id acks, is recorded or gone
      from the table. */
  ghost predicate FirstIsFine(rows: seq<Row>, batch: seq<Row>, id: string, recorded: set<Key>) {
    FindEvent(batch, id).Some? ==>
      var k := RowKey(FindEvent(batch, id).value);
      k in recorded || !Stored(rows, k)
  }

  /** For every recorded row of the batch, the first row with the same id is recorded or gone. */
  ghost predicate FirstsAreFine(rows: seq<Row>, batch: seq<Row>, recorded: set<Key>) {
    forall i :: 0 <= i < |batch| && RowKey(batch[i]) in recorded ==>
      FirstIsFine(rows, batch, batch[i].event.eventId, recorded)
  }

  /** What is expected of the Device Service when it answers: results are truthful, and it has not recorded a
      row while an earlier one of the batch with the same id is open. It need not have recorded the whole batch. */
  ghost predicate Answerable(s: Sys, batch: seq<Row>, results: seq<AckResult>) {
    Truthful(batch, results, DsKeys(s.dsLog)) && FirstsAreFine(s.table.rows, batch, DsKeys(s.dsLog))
  }

  function SetCursors(t: Table, devices: seq<(string, Option<string>)>): Table
    decreases |devices|
  {
    if devices == [] then t
    else
      var last := devices[|devices| - 1];
      SetCursor(SetCursors(t, devices[..|devices| - 1]), last.0, last.1)
  }

  ghost predicate PendingKey(t: Table, k: Key) {
    exists i :: 0 <= i < |t.rows| && RowKey(t.rows[i]) == k && !t.rows[i].acked
  }

  ghost predicate ExpiredKey(t: Table, k: Key, now: int) {
    exists i :: 0 <= i < |t.rows| && RowKey(t.rows[i]) == k && !t.rows[i].acked && t.rows[i].expiresAt <= now
  }

  ghost predicate Enabled(s: Sys, a: Action) {
    match a
    case Ingest(_, _) => true
    case Tick(to) => s.now <= to
    case SendBatch(limit) => s.phase == Idle && Batch(s.table, limit) != []
    case DsReads(req, index) => req < |s.sent| && index < |s.sent[req]|
    case ReplyArrives(results) =>
      s.phase.Awaiting? && s.phase.req < |s.sent| && Answerable(s, s.sent[s.phase.req], results)
    case CrashInReply(results, applied) =>
      && s.phase.Awaiting? && s.phase.req < |s.sent| && Answerable(s, s.sent[s.phase.req], results)
      && applied <= |results|
    case GiveUp => s.phase.Awaiting?
    case RunPurge => true
    case LeaseApplied(_) => true
  }

  ghost function Apply(s: Sys, a: Action): Sys
    requires Enabled(s, a)
  {
    match a
    case Ingest(e, retentionMs) =>
      s.(table := Upsert(s.table, e, retentionMs, s.now), ingested := s.ingested + {e})
    case Tick(to) => s.(now := to)
    case SendBatch(limit) => s.(phase := Awaiting(|s.sent|), sent := s.sent + [Batch(s.table, limit)])
    case DsReads(req, index) => s.(dsLog := Record(s.dsLog, s.sent[req][index].event))
    case ReplyArrives(results) => s.(table := ApplyAll(s.table, s.sent[s.phase.req], results), phase := Idle)
    case CrashInReply(results, applied) =>
      s.(table := ApplyAll(s.table, s.sent[s.phase.req], results[..applied]), phase := Idle)
    case GiveUp => s.(phase := Idle)
    case RunPurge =>
      s.(table := Purge(s.table, s.now),
         expired := s.expired + set i | 0 <= i < |s.table.rows| && !s.table.rows[i].acked &&
                                        s.table.rows[i].expiresAt <= s.now :: RowKey(s.table.rows[i]))
    case LeaseApplied(devices) => s.(table := SetCursors(s.table, devices))
  }

  ghost predicate Init(s: Sys) {
    s.table.rows == [] && s.phase == Idle && s.sent == [] && s.dsLog == [] && s.ingested == {} && s.expired == {}
  }

  ghost predicate Run(states: seq<Sys>, actions: seq<Action>) {
    && |states| == |actions| + 1
    && Init(states[0])
    && forall i :: 0 <= i < |actions| ==>
         Enabled(states[i], actions[i]) && states[i + 1] == Apply(states[i], actions[i])
  }

  // ---------------------------------------------------------------- invariants

  /** Every acked row has its key recorded by the Device Service. */
  ghost predicate AcksAreRecorded(s: Sys) {
    forall i :: 0 <= i < |s.table.rows| && s.table.rows[i].acked ==> RowKey(s.table.rows[i]) in DsKeys(s.dsLog)
  }

  /** Rows, requests and the Device Service hold only events that were ingested. */
  ghost predicate OnlyIngested(s: Sys) {
    && (forall i :: 0 <= i < |s.table.rows| ==> s.table.rows[i].event in s.ingested)
    && (forall r, i :: 0 <= r < |s.sent| && 0 <= i < |s.sent[r]| ==> s.sent[r][i].event in s.ingested)
    && (forall i :: 0 <= i < |s.dsLog| ==> s.dsLog[i] in s.ingested)
  }

  /** The Device Service inserts each key at most once. */
  ghost predicate InsertedOnce(s: Sys) {
    forall i, j :: 0 <= i < j < |s.dsLog| ==> KeyOf(s.dsLog[i]) != KeyOf(s.dsLog[j])
  }

  ghost predicate Accounted(s: Sys, k: Key) {
    k in DsKeys(s.dsLog) || PendingKey(s.table, k) || k in s.expired
  }

  /** Every ingested event is delivered, still queued, or was dropped after expiring. */
  ghost predicate NothingLost(s: Sys) {
    forall e :: e in s.ingested ==> Accounted(s, KeyOf(e))
  }

  ghost predicate Inv(s: Sys) {
    WellFormed(s.table) && AcksAreRecorded(s) && OnlyIngested(s) && InsertedOnce(s) && NothingLost(s)
  }

  // ---------------------------------------------------------------- acks by event id alone

  ghost predicate AckedWithin(rows: seq<Row>, recorded: set<Key>) {
    forall i :: 0 <= i < |rows| && rows[i].acked ==> RowKey(rows[i]) in recorded
  }

  /** Applying a reply is sound exactly when every row it selects, by first match on the event id, and
      that is still stored, has been recorded. */
  lemma ReplySoundExactlyWhenSelectedRecorded(t: Table, batch: seq<Row>, results: seq<AckResult>, recorded: set<Key>)
    requires AckedWithin(t.rows, recorded)
    ensures AckedWithin(ApplyAll(t, batch, results).rows, recorded) <==>
            forall k :: k in AckedKeys(batch, results) && Stored(t.rows, k) ==> k in recorded
  {
    ReplyAcksExactly(t, batch, results);
    var ks := AckedKeys(batch, results);
    var rows := AckSet(t.rows, ks);
    if AckedWithin(rows, recorded) {
      forall k | k in ks && Stored(t.rows, k) ensures k in recorded {
        var i :| 0 <= i < |t.rows| && RowKey(t.rows[i]) == k;
        assert rows[i].acked;
      }
    } else {
      var i :| 0 <= i < |rows| && rows[i].acked && RowKey(rows[i]) !in recorded;
      assert RowKey(t.rows[i]) in ks && Stored(t.rows, RowKey(t.rows[i]));
    }
  }

  /** Main result about acks by event id alone, read off the batch: every truthful reply acks only recorded
      rows exactly when, for each recorded row of the batch, the first row with its id is recorded or gone. */
  lemma TruthfulRepliesAckSoundlyExactly(t: Table, batch: seq<Row>, recorded: set<Key>)
    requires AckedWithin(t.rows, recorded)
    ensures (forall results :: Truthful(batch, results, recorded) ==>
               AckedWithin(ApplyAll(t, batch, results).rows, recorded))
            <==> FirstsAreFine(t.rows, batch, recorded)
  {
    if FirstsAreFine(t.rows, batch, recorded) {
      forall results | Truthful(batch, results, recorded)
        ensures AckedWithin(ApplyAll(t, batch, results).rows, recorded)
      {
        FineFirstsAckSoundly(t, batch, results, recorded);
      }
    } else {
      var i :| 0 <= i < |batch| && RowKey(batch[i]) in recorded &&
               !FirstIsFine(t.rows, batch, batch[i].event.eventId, recorded);
      BadFirstAcksUnrecorded(t, batch, i, recorded);
    }
  }

  lemma FineFirstsAckSoundly(t: Table, batch: seq<Row>, results: seq<AckResult>, recorded: set<Key>)
    requires AckedWithin(t.rows, recorded)
    requires FirstsAreFine(t.rows, batch, recorded) && Truthful(batch, results, recorded)
    ensures AckedWithin(ApplyAll(t, batch, results).rows, recorded)
  {
    forall k | k in AckedKeys(batch, results) && Stored(t.rows, k) ensures k in recorded {
      var r :| r in results && ShouldAck(r) && FindEvent(batch, r.eventId).Some? &&
               RowKey(FindEvent(batch, r.eventId).value) == k;
      assert HasRecorded(batch, r.eventId, recorded);
      assert FirstIsFine(t.rows, batch, r.eventId, recorded);
    }
    ReplySoundExactlyWhenSelectedRecorded(t, batch, results, recorded);
  }

  /** A single positive result about a recorded row acks the unrecorded row in front of it. */
  lemma BadFirstAcksUnrecorded(t: Table, batch: seq<Row>, i: nat, recorded: set<Key>)
    requires AckedWithin(t.rows, recorded) && i < |batch| && RowKey(batch[i]) in recorded
    requires !FirstIsFine(t.rows, batch, batch[i].event.eventId, recorded)
    ensures exists results :: Truthful(batch, results, recorded) &&
                              !AckedWithin(ApplyAll(t, batch, results).rows, recorded)
  {
    var id := batch[i].event.eventId;
    var r := AckResult(id, Inserted);
    var k := RowKey(FindEvent(batch, id).value);
    RecordedRowIsTruthful(batch, i, [r], recorded);
    assert r in [r];
    assert k in AckedKeys(batch, [r]);
    ReplySoundExactlyWhenSelectedRecorded(t, batch, [r], recorded);
  }

  /** With distinct event ids in the batch there is nothing to check. */
  lemma DistinctIdsAckSoundly(t: Table, batch: seq<Row>, results: seq<AckResult>, recorded: set<Key>)
    requires forall i, j :: 0 <= i < j < |batch| ==> batch[i].event.eventId != batch[j].event.eventId
    requires AckedWithin(t.rows, recorded) && Truthful(batch, results, recorded)
    ensures AckedWithin(ApplyAll(t, batch, results).rows, recorded)
  {
    forall i | 0 <= i < |batch| && RowKey(batch[i]) in recorded
      ensures FirstIsFine(t.rows, batch, batch[i].event.eventId, recorded)
    {
      var id := batch[i].event.eventId;
      FindEventMeaning(batch, id);
      if FindEvent(batch, id).Some? {
        var j :| 0 <= j < |batch| && batch[j] == FindEvent(batch, id).value && batch[j].event.eventId == id &&
                 FirstOfId(batch, j);
        assert i == j;
      }
    }
    FineFirstsAckSoundly(t, batch, results, recorded);
  }

  /** The condition can fail, and the lookup by event id alone then acks an undelivered row: devices "a" and "b"
      share id "e", only b's event was recorded, the reply says so truthfully, and a's row is acked. */
  lemma SharedIdAcksWrongDevice()
    ensures exists t: Table, batch: seq<Row>, results: seq<AckResult>, recorded: set<Key> ::
              WellFormed(t) && batch == Batch(t, 2) && AckedWithin(t.rows, recorded) &&
              recorded == {Key("b", "e")} && results == [AckResult("e", Inserted)] &&
              Truthful(batch, results, recorded) &&
              !AckedWithin(ApplyAll(t, batch, results).rows, recorded)
  {
    var ra := Row(1, Event("e", "a", In, 0, None, None), false, 0, 10);
    var rb := Row(2, Event("e", "b", In, 0, None, None), false, 0, 10);
    var t := Table([ra, rb], 2, map[]);
    var results := [AckResult("e", Inserted)];
    assert t.rows[1..] == [rb] && [rb][1..] == [];
    assert Select([rb], Unacked) == [rb];
    assert Pending(t) == [ra, rb];
    assert results[..0] == [];
    var after := ApplyAll(t, [ra, rb], results);
    assert FindEvent([ra, rb], "e") == Some(ra);
    assert ApplyAll(t, [ra, rb], results[..0]) == t;
    assert after == ApplyOne(t, [ra, rb], results[0]);
    assert after == AfterAck(t, "a", "e");
    assert after.rows[0].acked && RowKey(after.rows[0]) == Key("a", "e");
    assert "a" != "b" && Key("a", "e") !in {Key("b", "e")};
    assert !AckedWithin(after.rows, {Key("b", "e")});
    assert WellFormed(t);
    RecordedRowIsTruthful([ra, rb], 1, results, {Key("b", "e")});
  }

  /** A single result about a recorded row of the batch is truthful. */
  lemma RecordedRowIsTruthful(batch: seq<Row>, i: nat, results: seq<AckResult>, recorded: set<Key>)
    requires i < |batch| && RowKey(batch[i]) in recorded
    requires forall r :: r in results ==> r.eventId == batch[i].event.eventId
    ensures Truthful(batch, results, recorded)
  {
    assert HasRecorded(batch, batch[i].event.eventId, recorded);
  }

  // ---------------------------------------------------------------- every step keeps the invariants

  lemma RecordKeeps(log: seq<Event>, e: Event)
    ensures DsKeys(log) <= DsKeys(Record(log, e)) && KeyOf(e) in DsKeys(Record(log, e))
    ensures forall x :: x in Record(log, e) ==> x in log || x == e
    ensures (forall i, j :: 0 <= i < j < |log| ==> KeyOf(log[i]) != KeyOf(log[j])) ==>
              (forall i, j :: 0 <= i < j < |Record(log, e)| ==> KeyOf(Record(log, e)[i]) != KeyOf(Record(log, e)[j]))
  {
    var out := Record(log, e);
    assert forall i :: 0 <= i < |log| ==> out[i] == log[i];
    if out != log {
      assert out[|log|] == e;
    }
  }

  lemma IngestKeeps(s: Sys, e: Event, retentionMs: int)
    requires Inv(s)
    ensures Inv(Apply(s, Ingest(e, retentionMs)))
    ensures forall k :: PendingKey(s.table, k) ==> PendingKey(Apply(s, Ingest(e, retentionMs)).table, k)
  {
    var s' := Apply(s, Ingest(e, retentionMs));
    UpsertKeepsWellFormed(s.table, e, retentionMs, s.now);
    assert forall i :: 0 <= i < |s.table.rows| ==> s'.table.rows[i] == s.table.rows[i];
    forall x | x in s'.ingested ensures Accounted(s', KeyOf(x)) {
      if Stored(s.table.rows, KeyOf(x)) {
        var i :| 0 <= i < |s.table.rows| && RowKey(s.table.rows[i]) == KeyOf(x);
        assert s'.table.rows[i] == s.table.rows[i];
      } else if x in s.ingested {
        assert Accounted(s, KeyOf(x));
      } else {
        assert RowKey(s'.table.rows[|s.table.rows|]) == KeyOf(x);
      }
    }
  }

  lemma SendKeeps(s: Sys, limit: int)
    requires Inv(s) && Enabled(s, SendBatch(limit))
    ensures Inv(Apply(s, SendBatch(limit)))
  {
    var batch := Batch(s.table, limit);
    SelectMembers(s.table.rows, Unacked);
    forall i | 0 <= i < |batch| ensures batch[i].event in s.ingested {
      assert batch[i] == Pending(s.table)[i];
      assert batch[i] in Pending(s.table);
      assert batch[i] in s.table.rows;
    }
  }

  lemma DsReadsKeeps(s: Sys, req: nat, index: nat)
    requires Inv(s) && Enabled(s, DsReads(req, index))
    ensures Inv(Apply(s, DsReads(req, index)))
  {
    RecordKeeps(s.dsLog, s.sent[req][index].event);
    var s' := Apply(s, DsReads(req, index));
    forall x | x in s'.ingested ensures Accounted(s', KeyOf(x)) {
      assert Accounted(s, KeyOf(x));
    }
    forall i | 0 <= i < |s'.dsLog| ensures s'.dsLog[i] in s'.ingested {
      assert s'.dsLog[i] in s'.dsLog;
    }
  }

  /** Acking what a reply selects: shared by a complete reply and a crash in the middle of one. */
  lemma AckingKeeps(s: Sys, batch: seq<Row>, results: seq<AckResult>, s': Sys)
    requires Inv(s) && Answerable(s, batch, results)
    requires s' == s.(table := ApplyAll(s.table, batch, results), phase := Idle)
    ensures Inv(s')
    ensures forall k :: PendingKey(s.table, k) && !PendingKey(s'.table, k) ==> k in DsKeys(s.dsLog)
  {
    ApplyAllKeepsWellFormed(s.table, batch, results);
    FineFirstsAckSoundly(s.table, batch, results, DsKeys(s.dsLog));
    ReplyAcksExactly(s.table, batch, results);
    var rows, rows' := s.table.rows, s'.table.rows;
    assert forall i :: 0 <= i < |rows| ==> rows'[i].event == rows[i].event;
    forall k | PendingKey(s.table, k) && !PendingKey(s'.table, k) ensures k in DsKeys(s.dsLog) {
      var i :| 0 <= i < |rows| && RowKey(rows[i]) == k && !rows[i].acked;
      assert RowKey(rows'[i]) == k;
    }
    forall x | x in s'.ingested ensures Accounted(s', KeyOf(x)) {
      assert Accounted(s, KeyOf(x));
    }
  }

  /** Results cut off by a crash are as good as the whole reply. */
  lemma CutIsAnswerable(s: Sys, batch: seq<Row>, results: seq<AckResult>, applied: nat)
    requires Answerable(s, batch, results) && applied <= |results|
    ensures Answerable(s, batch, results[..applied])
  {
    assert forall r :: r in results[..applied] ==> r in results;
  }

  /** A Device Service that records a whole request before it answers meets the expectation with any results. */
  lemma RecordedBatchIsAnswerable(s: Sys, batch: seq<Row>, results: seq<AckResult>)
    requires forall i :: 0 <= i < |batch| ==> RowKey(batch[i]) in DsKeys(s.dsLog)
    ensures Answerable(s, batch, results)
  {
    forall id | FindEvent(batch, id).Some?
      ensures HasRecorded(batch, id, DsKeys(s.dsLog)) && FirstIsFine(s.table.rows, batch, id, DsKeys(s.dsLog))
    {
      FindEventMeaning(batch, id);
    }
  }

  /** A purge takes exactly the expired keys off the queue, and exactly those become expired. */
  lemma PurgeExpiresExactly(s: Sys, k: Key)
    requires WellFormed(s.table)
    ensures PendingKey(Purge(s.table, s.now), k) <==> PendingKey(s.table, k) && !ExpiredKey(s.table, k, s.now)
    ensures PendingKey(Apply(s, RunPurge).table, k) <==> PendingKey(s.table, k) && !ExpiredKey(s.table, k, s.now)
    ensures k in Apply(s, RunPurge).expired <==> k in s.expired || ExpiredKey(s.table, k, s.now)
  {
    var rows, rows' := s.table.rows, Purge(s.table, s.now).rows;
    SelectMembers(rows, ExpiresAfter(s.now));
    if PendingKey(Purge(s.table, s.now), k) {
      var j :| 0 <= j < |rows'| && RowKey(rows'[j]) == k && !rows'[j].acked;
      assert rows'[j] in rows';
      var i :| 0 <= i < |rows| && rows[i] == rows'[j];
      assert forall n :: 0 <= n < |rows| && RowKey(rows[n]) == k ==> n == i;
    }
    if PendingKey(s.table, k) && !ExpiredKey(s.table, k, s.now) {
      var i :| 0 <= i < |rows| && RowKey(rows[i]) == k && !rows[i].acked;
      assert rows[i] in rows';
      var j :| 0 <= j < |rows'| && rows'[j] == rows[i];
    }
  }

  lemma PurgeKeeps(s: Sys)
    requires Inv(s)
    ensures Inv(Apply(s, RunPurge))
    ensures forall k :: PendingKey(s.table, k) && !PendingKey(Apply(s, RunPurge).table, k) ==>
                          ExpiredKey(s.table, k, s.now)
  {
    var s' := Apply(s, RunPurge);
    var rows, rows' := s.table.rows, s'.table.rows;
    PurgeKeepsWellFormed(s.table, s.now);
    SelectMembers(rows, ExpiresAfter(s.now));
    forall i | 0 <= i < |rows'| ensures exists j :: 0 <= j < |rows| && rows[j] == rows'[i] {
      assert rows'[i] in rows';
    }
    forall k | PendingKey(s.table, k) ensures PendingKey(s'.table, k) || ExpiredKey(s.table, k, s.now) {
      PurgeExpiresExactly(s, k);
    }
    forall x | x in s'.ingested ensures Accounted(s', KeyOf(x)) {
      assert Accounted(s, KeyOf(x));
      PurgeExpiresExactly(s, KeyOf(x));
    }
  }

  lemma {:induction false} CursorsLeaveRows(t: Table, devices: seq<(string, Option<string>)>)
    ensures SetCursors(t, devices).rows == t.rows && SetCursors(t, devices).lastSeq == t.lastSeq
    decreases |devices|
  {
    if devices != [] {
      CursorsLeaveRows(t, devices[..|devices| - 1]);
    }
  }

  lemma StepKeeps(s: Sys, a: Action)
    requires Inv(s) && Enabled(s, a)
    ensures Inv(Apply(s, a))
  {
    match a
    case Ingest(e, retentionMs) => IngestKeeps(s, e, retentionMs);
    case SendBatch(limit) => SendKeeps(s, limit);
    case DsReads(req, index) => DsReadsKeeps(s, req, index);
    case ReplyArrives(results) => AckingKeeps(s, s.sent[s.phase.req], results, Apply(s, a));
    case CrashInReply(results, applied) =>
      CutIsAnswerable(s, s.sent[s.phase.req], results, applied);
      AckingKeeps(s, s.sent[s.phase.req], results[..applied], Apply(s, a));
    case RunPurge => PurgeKeeps(s);
    case LeaseApplied(devices) =>
      CursorsLeaveRows(s.table, devices);
      SameRowsKeep(s, Apply(s, a));
    case Tick(_) => SameRowsKeep(s, Apply(s, a));
    case GiveUp => SameRowsKeep(s, Apply(s, a));
  }

  lemma SameRowsKeep(s: Sys, s': Sys)
    requires Inv(s)
    requires s'.table.rows == s.table.rows && s'.table.lastSeq == s.table.lastSeq
    requires s'.sent == s.sent && s'.dsLog == s.dsLog && s'.ingested == s.ingested && s'.expired == s.expired
    ensures Inv(s')
  {
    forall x | x in s'.ingested ensures Accounted(s', KeyOf(x)) {
      assert Accounted(s, KeyOf(x));
    }
  }

  lemma EarlierRun(states: seq<Sys>, actions: seq<Action>)
    requires Run(states, actions) && actions != []
    ensures Run(states[..|actions|], actions[..|actions| - 1])
  {
    var states', actions' := states[..|actions|], actions[..|actions| - 1];
    forall i | 0 <= i < |actions'|
      ensures Enabled(states'[i], actions'[i]) && states'[i + 1] == Apply(states'[i], actions'[i])
    {
      assert actions'[i] == actions[i] && states'[i] == states[i] && states'[i + 1] == states[i + 1];
    }
  }

  /** Main result, over every run: acked rows are recorded, nothing ingested is lost except by expiry, and
      the Device Service holds each key once and only if it was ingested. */
  lemma {:induction false} RunsKeepInvariant(states: seq<Sys>, actions: seq<Action>)
    requires Run(states, actions)
    ensures forall i :: 0 <= i < |states| ==> Inv(states[i])
  {
    if actions != [] {
      var n := |actions| - 1;
      var states', actions' := states[..n + 1], actions[..n];
      EarlierRun(states, actions);
      RunsKeepInvariant(states', actions');
      assert Inv(states'[n]);
      StepKeeps(states[n], actions[n]);
    }
  }

  /** A key stops being pending in one step only because the Device Service has it, or because a purge
      ran at or after its expiry time. */
  lemma LeavesQueueDeliveredOrExpired(s: Sys, a: Action, k: Key)
    requires Inv(s) && Enabled(s, a)
    requires PendingKey(s.table, k) && !PendingKey(Apply(s, a).table, k)
    ensures k in DsKeys(Apply(s, a).dsLog) || (a == RunPurge && ExpiredKey(s.table, k, s.now))
  {
    match a
    case Ingest(e, retentionMs) => IngestKeeps(s, e, retentionMs);
    case ReplyArrives(results) => AckingKeeps(s, s.sent[s.phase.req], results, Apply(s, a));
    case CrashInReply(results, applied) =>
      CutIsAnswerable(s, s.sent[s.phase.req], results, applied);
      AckingKeeps(s, s.sent[s.phase.req], results[..applied], Apply(s, a));
    case RunPurge => PurgeKeeps(s);
    case LeaseApplied(devices) => CursorsLeaveRows(s.table, devices);
    case Tick(_) =>
    case GiveUp =>
    case SendBatch(_) =>
    case DsReads(_, _) =>
  }

  // ---------------------------------------------------------------- expiry

  /** In every run only ingested events expire. */
  ghost predicate OnlyIngestedExpire(s: Sys) {
    forall k :: k in s.expired ==> exists e :: e in s.ingested && KeyOf(e) == k
  }

  lemma StepKeepsExpired(s: Sys, a: Action)
    requires Inv(s) && OnlyIngestedExpire(s) && Enabled(s, a)
    ensures OnlyIngestedExpire(Apply(s, a))
  {
    var s' := Apply(s, a);
    forall k | k in s'.expired ensures exists e :: e in s'.ingested && KeyOf(e) == k {
      if k in s.expired {
        var e :| e in s.ingested && KeyOf(e) == k;
        assert e in s'.ingested;
      } else {
        var i :| 0 <= i < |s.table.rows| && RowKey(s.table.rows[i]) == k;
        assert s.table.rows[i].event in s'.ingested;
      }
    }
  }

  lemma {:induction false} ExpiredWereIngested(states: seq<Sys>, actions: seq<Action>)
    requires Run(states, actions)
    ensures OnlyIngestedExpire(states[|actions|])
  {
    if actions != [] {
      var n := |actions| - 1;
      EarlierRun(states, actions);
      ExpiredWereIngested(states[..n + 1], actions[..n]);
      RunsKeepInvariant(states, actions);
      assert Inv(states[n]);
      StepKeepsExpired(states[n], actions[n]);
    }
  }

  // ---------------------------------------------------------------- a reply that was lost

  /** Duplicates are all the reply consists of, and it speaks for every row of the batch. */
  ghost predicate AllDuplicates(batch: seq<Row>, results: seq<AckResult>) {
    && (forall r :: r in results ==> r.kind == Duplicate)
    && forall i :: 0 <= i < |batch| ==> exists r :: r in results && r.eventId == batch[i].event.eventId
  }

  lemma DuplicatesAckDistinctBatch(t: Table, batch: seq<Row>, results: seq<AckResult>, k: Key)
    requires forall i, j :: 0 <= i < j < |batch| ==> batch[i].event.eventId != batch[j].event.eventId
    requires AllDuplicates(batch, results) && exists i :: 0 <= i < |batch| && RowKey(batch[i]) == k
    ensures !PendingKey(ApplyAll(t, batch, results), k)
  {
    var n :| 0 <= n < |batch| && RowKey(batch[n]) == k;
    assert FirstWithId(batch, k);
    var r :| r in results && r.eventId == batch[n].event.eventId;
    assert Answers(results, k.eventId);
    var rows := ApplyAll(t, batch, results).rows;
    ReplyAcksExactly(t, batch, results);
    forall i | 0 <= i < |rows| ensures RowKey(rows[i]) == k ==> rows[i].acked {
      AckedByReplyExactly(t, batch, results, i);
    }
  }

  /** Redelivery repairs a lost reply: a batch the Device Service has recorded, with distinct event ids, leaves the
      queue when it is sent again and answered with nothing but duplicates. */
  lemma RedeliveryRepairsLostReply(s: Sys, limit: int, results: seq<AckResult>)
    requires s.phase.Awaiting? && Batch(s.table, limit) != [] && AllDuplicates(Batch(s.table, limit), results)
    requires var batch := Batch(s.table, limit);
             && (forall i, j :: 0 <= i < j < |batch| ==> batch[i].event.eventId != batch[j].event.eventId)
             && forall i :: 0 <= i < |batch| ==> RowKey(batch[i]) in DsKeys(s.dsLog)
    ensures var batch, idle := Batch(s.table, limit), Apply(s, GiveUp);
            && Enabled(idle, SendBatch(limit))
            && var sent := Apply(idle, SendBatch(limit));
               && Enabled(sent, ReplyArrives(results))
               && var after := Apply(sent, ReplyArrives(results));
                  after.phase == Idle && forall i :: 0 <= i < |batch| ==> !PendingKey(after.table, RowKey(batch[i]))
  {
    var batch := Batch(s.table, limit);
    var sent := Apply(Apply(s, GiveUp), SendBatch(limit));
    RecordedBatchIsAnswerable(sent, batch, results);
    assert sent.sent[sent.phase.req] == batch;
    forall i | 0 <= i < |batch| ensures !PendingKey(ApplyAll(s.table, batch, results), RowKey(batch[i])) {
      DuplicatesAckDistinctBatch(s.table, batch, results, RowKey(batch[i]));
    }
  }
}
