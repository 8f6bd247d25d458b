/** Batch delivery of src/app/delivery/delivery-service.ts: the oldest unacked rows are sent, and the
    reply acks rows looked up by event id alone. */
module Delivery {
  import opened Common
  import opened EventStore

  datatype AckKind = Inserted | Duplicate | OtherKind

  datatype AckResult = AckResult(eventId: string, kind: AckKind)

  predicate ShouldAck(r: AckResult) { r.kind == Inserted || r.kind == Duplicate }

  function Pending(t: Table): seq<Row> { Select(t.rows, Unacked) }

  function Batch(t: Table, limit: int): seq<Row> { Limit(Pending(t), limit) }

  /** First row of the batch with this event id, whatever its device. */
  function FindEvent(batch: seq<Row>, id: string): Option<Row> {
    if batch == [] then None
    else if batch[0].event.eventId == id then Some(batch[0])
    else FindEvent(batch[1..], id)
  }

  function ApplyOne(t: Table, batch: seq<Row>, r: AckResult): Table {
    if !ShouldAck(r) then t
    else match FindEvent(batch, r.eventId)
         case None => t
         case Some(row) => AfterAck(t, row.event.deviceId, row.event.eventId)
  }

  function ApplyAll(t: Table, batch: seq<Row>, results: seq<AckResult>): Table {
    if results == [] then t
    else ApplyOne(ApplyAll(t, batch, results[..|results| - 1]), batch, results[|results| - 1])
  }

  /** How the call to the Device Service ended. */
  datatype Outcome = Replied(results: seq<AckResult>) | Permanent(leaseInvalid: bool) | Temporary

  class DeliveryService {
    const store: SqliteStore

    constructor (store: SqliteStore)
      ensures this.store == store
    {
      this.store := store;
    }

    method ApplyAckResults(pending: seq<Row>, results: seq<AckResult>)
      requires store.Valid()
      modifies store
      ensures store.Valid()
      ensures store.View() == ApplyAll(old(store.View()), pending, results)
    {
      for i := 0 to |results|
        invariant store.Valid()
        invariant store.View() == ApplyAll(old(store.View()), pending, results[..i])
      {
        assert results[..i + 1][..i] == results[..i];
        var result := results[i];
        if !ShouldAck(result) {
          continue;
        }
        var event := FindEvent(pending, result.eventId);
        if event.None? {
          continue;
        }
        store.MarkAcked(event.value.event.deviceId, event.value.event.eventId);
      }
      assert results[..|results|] == results;
    }

    /** `deliverPending` up to its await: what is sent, if anything. */
    method StartDelivery(running: bool, adapterId: Option<string>, batchLimit: int) returns (sent: Option<seq<Row>>)
      requires store.Valid()
      ensures sent.Some? <==> running && adapterId.Some? && adapterId.value != "" &&
                              Batch(store.View(), batchLimit) != []
      ensures sent.Some? ==> sent.value == Batch(store.View(), batchLimit)
    {
      if !running || adapterId.None? || adapterId.value == "" {
        return None;
      }
      var pending := store.ListPending(batchLimit);
      sent := if pending == [] then None else Some(pending);
    }

    /** `deliverPending` after its await; other statements may have changed the store meanwhile. */
    method FinishDelivery(pending: seq<Row>, outcome: Outcome) returns (reRegister: bool)
      requires store.Valid()
      modifies store
      ensures store.Valid()
      ensures outcome.Replied? ==> store.View() == ApplyAll(old(store.View()), pending, outcome.results)
      ensures !outcome.Replied? ==> store.View() == old(store.View())
      ensures reRegister <==> outcome == Permanent(true)
    {
      match outcome
      case Replied(results) =>
        ApplyAckResults(pending, results);
        reRegister := false;
      case Permanent(leaseInvalid) =>
        reRegister := leaseInvalid;
      case Temporary =>
        reRegister := false;
    }
  }

  // ---------------------------------------------------------------- which rows a reply acks

  /** Keys acked by a reply: for each positive result, the first batch row with that event id. */
  ghost function AckedKeys(batch: seq<Row>, results: seq<AckResult>): set<Key> {
    set r | r in results && ShouldAck(r) && FindEvent(batch, r.eventId).Some? ::
      RowKey(FindEvent(batch, r.eventId).value)
  }

  ghost function AckSet(rows: seq<Row>, ks: set<Key>): seq<Row> {
    seq(|rows|, i requires 0 <= i < |rows| => rows[i].(acked := rows[i].acked || RowKey(rows[i]) in ks))
  }

  lemma {:induction false} ReplyAcksExactly(t: Table, batch: seq<Row>, results: seq<AckResult>)
    ensures ApplyAll(t, batch, results).rows == AckSet(t.rows, AckedKeys(batch, results))
    ensures ApplyAll(t, batch, results).lastSeq == t.lastSeq
  {
    if results == [] {
      assert AckSet(t.rows, {}) == t.rows;
    } else {
      var init, last := results[..|results| - 1], results[|results| - 1];
      ReplyAcksExactly(t, batch, init);
      assert results == init + [last];
      var ks := AckedKeys(batch, init);
      if ShouldAck(last) && FindEvent(batch, last.eventId).Some? {
        var k := RowKey(FindEvent(batch, last.eventId).value);
        assert AckedKeys(batch, results) == ks + {k};
        assert Ack(AckSet(t.rows, ks), k) == AckSet(t.rows, ks + {k});
      } else {
        assert AckedKeys(batch, results) == ks;
      }
    }
  }

  lemma ApplyAllKeepsWellFormed(t: Table, batch: seq<Row>, results: seq<AckResult>)
    requires WellFormed(t)
    ensures WellFormed(ApplyAll(t, batch, results))
  {
    if results != [] {
      ApplyAllKeepsWellFormed(t, batch, results[..|results| - 1]);
      var last := results[|results| - 1];
      var f := FindEvent(batch, last.eventId);
      if f.Some? {
        AckKeepsWellFormed(ApplyAll(t, batch, results[..|results| - 1]), f.value.event.deviceId, f.value.event.eventId);
      }
    }
  }

  ghost predicate FirstOfId(batch: seq<Row>, i: nat)
    requires i < |batch|
  {
    forall j :: 0 <= j < i ==> batch[j].event.eventId != batch[i].event.eventId
  }

  /** Some result calls the event id inserted or a duplicate. */
  ghost predicate Answers(results: seq<AckResult>, id: string) {
    exists r :: r in results && r.eventId == id && (r.kind == Inserted || r.kind == Duplicate)
  }

  /** The reply mentions every event of the batch, with a result that acks. */
  ghost predicate Covers(batch: seq<Row>, results: seq<AckResult>) {
    forall i :: 0 <= i < |batch| ==> Answers(results, batch[i].event.eventId)
  }

  lemma {:induction false} FindEventMeaning(batch: seq<Row>, id: string)
    ensures FindEvent(batch, id).None? <==> forall i :: 0 <= i < |batch| ==> batch[i].event.eventId != id
    ensures FindEvent(batch, id).Some? ==>
              exists i :: 0 <= i < |batch| && batch[i] == FindEvent(batch, id).value &&
                          batch[i].event.eventId == id && FirstOfId(batch, i)
  {
    if batch != [] {
      var rest := batch[1..];
      FindEventMeaning(rest, id);
      if batch[0].event.eventId == id {
        assert FirstOfId(batch, 0);
      } else if FindEvent(rest, id).Some? {
        var i :| 0 <= i < |rest| && rest[i] == FindEvent(rest, id).value && rest[i].event.eventId == id &&
                 FirstOfId(rest, i);
        assert batch[i + 1] == rest[i];
        assert forall j :: 0 < j < i + 1 ==> batch[j] == rest[j - 1];
        assert FirstOfId(batch, i + 1);
      } else {
        assert forall i :: 0 < i < |batch| ==> batch[i] == rest[i - 1];
      }
    }
  }

  lemma FirstIsAcked(batch: seq<Row>, results: seq<AckResult>, i: nat)
    requires i < |batch| && FirstOfId(batch, i) && Answers(results, batch[i].event.eventId)
    ensures RowKey(batch[i]) in AckedKeys(batch, results)
  {
    var id := batch[i].event.eventId;
    var r :| r in results && r.eventId == id && (r.kind == Inserted || r.kind == Duplicate);
    assert ShouldAck(r);
    FindEventMeaning(batch, id);
    var j :| 0 <= j < |batch| && batch[j] == FindEvent(batch, id).value && batch[j].event.eventId == id &&
             FirstOfId(batch, j);
    assert i == j;
  }

  /** A reply covering the batch acks exactly the first row of every distinct event id in it. */
  lemma CoveringReplyAcksFirsts(batch: seq<Row>, results: seq<AckResult>)
    requires Covers(batch, results)
    ensures AckedKeys(batch, results) == set i | 0 <= i < |batch| && FirstOfId(batch, i) :: RowKey(batch[i])
  {
    forall i | 0 <= i < |batch| && FirstOfId(batch, i)
      ensures RowKey(batch[i]) in AckedKeys(batch, results)
    {
      assert Answers(results, batch[i].event.eventId);
      FirstIsAcked(batch, results, i);
    }
    forall k | k in AckedKeys(batch, results)
      ensures exists i :: 0 <= i < |batch| && FirstOfId(batch, i) && RowKey(batch[i]) == k
    {
      var r :| r in results && ShouldAck(r) && FindEvent(batch, r.eventId).Some? &&
               RowKey(FindEvent(batch, r.eventId).value) == k;
      FindEventMeaning(batch, r.eventId);
    }
  }

  /** The key is that of the first row of the batch with its event id. */
  ghost predicate FirstWithId(batch: seq<Row>, k: Key) {
    exists i :: 0 <= i < |batch| && RowKey(batch[i]) == k &&
                forall j :: 0 <= j < i ==> batch[j].event.eventId != k.eventId
  }

  lemma SelectedExactly(batch: seq<Row>, results: seq<AckResult>, k: Key)
    ensures k in AckedKeys(batch, results) <==> FirstWithId(batch, k) && Answers(results, k.eventId)
  {
    if k in AckedKeys(batch, results) {
      var r :| r in results && ShouldAck(r) && FindEvent(batch, r.eventId).Some? &&
               RowKey(FindEvent(batch, r.eventId).value) == k;
      FindEventMeaning(batch, r.eventId);
    }
    if FirstWithId(batch, k) && Answers(results, k.eventId) {
      var i :| 0 <= i < |batch| && RowKey(batch[i]) == k &&
               forall j :: 0 <= j < i ==> batch[j].event.eventId != k.eventId;
      FirstIsAcked(batch, results, i);
    }
  }

  /** Main result about a reply, row by row: a stored row is acked afterwards exactly when it was before, or when it
      has the key of the first row of the batch with its event id and some result calls that id inserted or a
      duplicate; nothing else about it changes. */
  lemma AckedByReplyExactly(t: Table, batch: seq<Row>, results: seq<AckResult>, i: nat)
    requires i < |t.rows|
    ensures |ApplyAll(t, batch, results).rows| == |t.rows|
    ensures var k := RowKey(t.rows[i]);
            ApplyAll(t, batch, results).rows[i] ==
            t.rows[i].(acked := t.rows[i].acked || (FirstWithId(batch, k) && Answers(results, k.eventId)))
  {
    ReplyAcksExactly(t, batch, results);
    SelectedExactly(batch, results, RowKey(t.rows[i]));
  }

  /** The result acks a row of the device. */
  ghost predicate ActsOn(batch: seq<Row>, r: AckResult, d: string) {
    && (r.kind == Inserted || r.kind == Duplicate)
    && FirstWithId(batch, Key(d, r.eventId))
  }

  lemma OneResultMovesCursor(t: Table, batch: seq<Row>, r: AckResult, d: string)
    ensures var cursors := ApplyOne(t, batch, r).cursors;
            if ActsOn(batch, r, d) then d in cursors && cursors[d] == Some(r.eventId)
            else (d in cursors <==> d in t.cursors) && (d in cursors ==> cursors[d] == t.cursors[d])
  {
    FindEventMeaning(batch, r.eventId);
    if FindEvent(batch, r.eventId).Some? {
      var i :| 0 <= i < |batch| && batch[i] == FindEvent(batch, r.eventId).value &&
               batch[i].event.eventId == r.eventId && FirstOfId(batch, i);
      assert FirstWithId(batch, RowKey(batch[i]));
    }
  }

  /** Result `n` is the last that acks a row of the device. */
  ghost predicate LastActs(batch: seq<Row>, results: seq<AckResult>, d: string, n: nat) {
    && n < |results| && ActsOn(batch, results[n], d)
    && forall m :: n < m < |results| ==> !ActsOn(batch, results[m], d)
  }

  /** A device's cursor ends at the event of the last result that acks one of its rows. */
  lemma {:induction false} CursorFollowsReply(t: Table, batch: seq<Row>, results: seq<AckResult>, d: string, n: nat)
    requires LastActs(batch, results, d, n)
    ensures d in ApplyAll(t, batch, results).cursors
    ensures ApplyAll(t, batch, results).cursors[d] == Some(results[n].eventId)
  {
    var init, last := results[..|results| - 1], results[|results| - 1];
    OneResultMovesCursor(ApplyAll(t, batch, init), batch, last, d);
    if n < |init| {
      assert forall m :: n < m < |init| ==> init[m] == results[m];
      CursorFollowsReply(t, batch, init, d, n);
    }
  }

  /** It stays where it was when no result does. */
  lemma {:induction false} CursorStays(t: Table, batch: seq<Row>, results: seq<AckResult>, d: string)
    requires forall r :: r in results ==> !ActsOn(batch, r, d)
    ensures var cursors := ApplyAll(t, batch, results).cursors;
            (d in cursors <==> d in t.cursors) && (d in cursors ==> cursors[d] == t.cursors[d])
  {
    if results != [] {
      var init, last := results[..|results| - 1], results[|results| - 1];
      assert results == init + [last];
      CursorStays(t, batch, init, d);
      OneResultMovesCursor(ApplyAll(t, batch, init), batch, last, d);
    }
  }
}
