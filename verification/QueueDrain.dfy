/** How fast the queue drains when nothing is ingested or purged and every reply covers its batch. */
module QueueDrain {
  import opened Common
  import opened EventStore
  import opened Delivery

  function Round(t: Table, limit: int, results: seq<AckResult>): Table {
    ApplyAll(t, Batch(t, limit), results)
  }

  /** The table after one delivery round per reply. */
  function AfterRounds(t: Table, limit: int, replies: seq<seq<AckResult>>): Table {
    if replies == [] then t
    else Round(AfterRounds(t, limit, replies[..|replies| - 1]), limit, replies[|replies| - 1])
  }

  ghost predicate RepliesCover(t: Table, limit: int, replies: seq<seq<AckResult>>) {
    forall i :: 0 <= i < |replies| ==> Covers(Batch(AfterRounds(t, limit, replies[..i]), limit), replies[i])
  }

  ghost function EventIds(rows: seq<Row>): set<string> {
    set i | 0 <= i < |rows| :: rows[i].event.eventId
  }

  ghost function Keys(rows: seq<Row>): set<Key> {
    set i | 0 <= i < |rows| :: RowKey(rows[i])
  }

  ghost predicate DistinctIds(rows: seq<Row>) {
    forall i, j :: 0 <= i < j < |rows| ==> rows[i].event.eventId != rows[j].event.eventId
  }

  // ---------------------------------------------------------------- removing acked keys from the pending list

  ghost function Without(rows: seq<Row>, ks: set<Key>): seq<Row> {
    if rows == [] then []
    else if RowKey(rows[0]) in ks then Without(rows[1..], ks)
    else [rows[0]] + Without(rows[1..], ks)
  }

  lemma {:induction false} PendingAfterAck(rows: seq<Row>, ks: set<Key>)
    ensures Select(AckSet(rows, ks), Unacked) == Without(Select(rows, Unacked), ks)
  {
    if rows != [] {
      assert AckSet(rows, ks)[1..] == AckSet(rows[1..], ks);
      PendingAfterAck(rows[1..], ks);
      if !rows[0].acked {
        var rest := Select(rows[1..], Unacked);
        assert Select(rows, Unacked)[1..] == rest;
        if RowKey(rows[0]) !in ks {
          assert AckSet(rows, ks)[0] == rows[0];
        }
      }
    }
  }

  lemma {:induction false} WithoutMembers(rows: seq<Row>, ks: set<Key>)
    ensures forall r :: r in Without(rows, ks) <==> r in rows && RowKey(r) !in ks
  {
    if rows != [] {
      WithoutMembers(rows[1..], ks);
      assert rows == [rows[0]] + rows[1..];
    }
  }

  lemma {:induction false} WithoutKeepsUnique(rows: seq<Row>, ks: set<Key>)
    requires UniqueKeys(rows)
    ensures UniqueKeys(Without(rows, ks))
  {
    if rows != [] {
      var rest := rows[1..];
      assert forall i :: 0 <= i < |rest| ==> rest[i] == rows[i + 1];
      WithoutKeepsUnique(rest, ks);
      WithoutMembers(rest, ks);
      assert forall r :: r in rest ==> RowKey(rows[0]) != RowKey(r);
    }
  }

  lemma {:induction false} WithoutKeepsIds(rows: seq<Row>, ks: set<Key>)
    requires DistinctIds(rows)
    ensures DistinctIds(Without(rows, ks))
  {
    if rows != [] {
      var rest := rows[1..];
      assert forall i :: 0 <= i < |rest| ==> rest[i] == rows[i + 1];
      WithoutKeepsIds(rest, ks);
      WithoutMembers(rest, ks);
      assert forall r :: r in rest ==> rows[0].event.eventId != r.event.eventId;
    }
  }

  lemma WithoutMeaning(rows: seq<Row>, ks: set<Key>)
    ensures forall r :: r in Without(rows, ks) <==> r in rows && RowKey(r) !in ks
    ensures UniqueKeys(rows) ==> UniqueKeys(Without(rows, ks))
    ensures DistinctIds(rows) ==> DistinctIds(Without(rows, ks))
  {
    WithoutMembers(rows, ks);
    if UniqueKeys(rows) {
      WithoutKeepsUnique(rows, ks);
    }
    if DistinctIds(rows) {
      WithoutKeepsIds(rows, ks);
    }
  }

  lemma KeysCardinality(rows: seq<Row>)
    requires UniqueKeys(rows)
    ensures |Keys(rows)| == |rows|
  {
    var ks := seq(|rows|, i requires 0 <= i < |rows| => RowKey(rows[i]));
    DistinctCardinality(ks);
    assert forall i :: 0 <= i < |rows| ==> ks[i] == RowKey(rows[i]);
    assert Elements(ks) == Keys(rows);
  }

  lemma WithoutCount(rows: seq<Row>, ks: set<Key>)
    requires UniqueKeys(rows) && ks <= Keys(rows)
    ensures |Without(rows, ks)| == |rows| - |ks|
  {
    WithoutMeaning(rows, ks);
    var out := Without(rows, ks);
    KeysCardinality(rows);
    KeysCardinality(out);
    forall k | k in Keys(rows) - ks ensures k in Keys(out) {
      var i :| 0 <= i < |rows| && RowKey(rows[i]) == k;
      assert rows[i] in out;
    }
    forall k | k in Keys(out) ensures k in Keys(rows) - ks {
      var i :| 0 <= i < |out| && RowKey(out[i]) == k;
      assert out[i] in out;
    }
    assert Keys(out) == Keys(rows) - ks;
  }

  // ---------------------------------------------------------------- one acked key per distinct event id

  lemma {:induction false} ImageCardinality(ks: set<Key>)
    requires forall a, b :: a in ks && b in ks && a.eventId == b.eventId ==> a == b
    ensures |set k | k in ks :: k.eventId| == |ks|
  {
    if ks != {} {
      var k :| k in ks;
      ImageCardinality(ks - {k});
      assert (set x | x in ks :: x.eventId) == (set x | x in ks - {k} :: x.eventId) + {k.eventId};
    }
  }

  lemma AckedKeysCount(batch: seq<Row>, results: seq<AckResult>)
    requires Covers(batch, results)
    ensures AckedKeys(batch, results) <= Keys(batch)
    ensures |AckedKeys(batch, results)| == |EventIds(batch)|
  {
    CoveringReplyAcksFirsts(batch, results);
    var ks := AckedKeys(batch, results);
    forall a, b | a in ks && b in ks && a.eventId == b.eventId ensures a == b {
      var i :| 0 <= i < |batch| && FirstOfId(batch, i) && RowKey(batch[i]) == a;
      var j :| 0 <= j < |batch| && FirstOfId(batch, j) && RowKey(batch[j]) == b;
    }
    ImageCardinality(ks);
    var ids := set k | k in ks :: k.eventId;
    forall id | id in EventIds(batch) ensures id in ids {
      FindEventMeaning(batch, id);
      var i :| 0 <= i < |batch| && batch[i].event.eventId == id && FirstOfId(batch, i);
      assert RowKey(batch[i]) in ks;
    }
    assert ids == EventIds(batch);
  }

  // ---------------------------------------------------------------- rounds

  /** One covered round removes from the queue exactly as many rows as its batch has event ids. */
  lemma RoundRemovesDistinctIds(t: Table, limit: int, results: seq<AckResult>)
    requires WellFormed(t) && Covers(Batch(t, limit), results)
    ensures WellFormed(Round(t, limit, results))
    ensures Pending(Round(t, limit, results)) == Without(Pending(t), AckedKeys(Batch(t, limit), results))
    ensures |Pending(Round(t, limit, results))| == |Pending(t)| - |EventIds(Batch(t, limit))|
  {
    var batch := Batch(t, limit);
    var ks := AckedKeys(batch, results);
    ApplyAllKeepsWellFormed(t, batch, results);
    ReplyAcksExactly(t, batch, results);
    PendingAfterAck(t.rows, ks);
    AckedKeysCount(batch, results);
    forall k | k in Keys(batch) ensures k in Keys(Pending(t)) {
      var i :| 0 <= i < |batch| && RowKey(batch[i]) == k;
      assert Pending(t)[i] == batch[i];
    }
    SelectKeepsOrder(t.rows, Unacked);
    WithoutCount(Pending(t), ks);
  }

  /** The pending list gets strictly shorter exactly when there is something to send and the limit is not zero. */
  lemma RoundProgress(t: Table, limit: int, results: seq<AckResult>)
    requires WellFormed(t) && Covers(Batch(t, limit), results)
    ensures |Pending(Round(t, limit, results))| < |Pending(t)| <==> Pending(t) != [] && limit != 0
  {
    RoundRemovesDistinctIds(t, limit, results);
    var batch := Batch(t, limit);
    if batch != [] {
      assert batch[0].event.eventId in EventIds(batch);
    } else {
      assert EventIds(batch) == {};
    }
  }

  lemma PrefixCovers(t: Table, limit: int, replies: seq<seq<AckResult>>)
    requires replies != [] && RepliesCover(t, limit, replies)
    ensures RepliesCover(t, limit, replies[..|replies| - 1])
    ensures Covers(Batch(AfterRounds(t, limit, replies[..|replies| - 1]), limit), replies[|replies| - 1])
  {
    var init := replies[..|replies| - 1];
    assert forall i :: 0 <= i < |init| ==> init[..i] == replies[..i] && init[i] == replies[i];
  }

  /** Drain bound: n pending rows are gone after at most n rounds, even when devices share event ids. */
  lemma {:induction false} DrainsWithinPendingRounds(t: Table, limit: int, replies: seq<seq<AckResult>>)
    requires WellFormed(t) && limit != 0 && RepliesCover(t, limit, replies)
    ensures WellFormed(AfterRounds(t, limit, replies))
    ensures |Pending(AfterRounds(t, limit, replies))| <= Max(0, |Pending(t)| - |replies|)
  {
    if replies != [] {
      var init, last := replies[..|replies| - 1], replies[|replies| - 1];
      PrefixCovers(t, limit, replies);
      DrainsWithinPendingRounds(t, limit, init);
      RoundRemovesDistinctIds(AfterRounds(t, limit, init), limit, last);
      RoundProgress(AfterRounds(t, limit, init), limit, last);
    }
  }

  lemma DistinctIdsCount(rows: seq<Row>)
    requires DistinctIds(rows)
    ensures |EventIds(rows)| == |rows|
  {
    var ids := seq(|rows|, i requires 0 <= i < |rows| => rows[i].event.eventId);
    assert forall i :: 0 <= i < |rows| ==> ids[i] == rows[i].event.eventId;
    DistinctCardinality(ids);
    assert Elements(ids) == EventIds(rows);
  }

  lemma FullBatchRound(t: Table, limit: int, results: seq<AckResult>)
    requires WellFormed(t) && limit > 0 && DistinctIds(Pending(t)) && Covers(Batch(t, limit), results)
    ensures |Pending(Round(t, limit, results))| == Max(0, |Pending(t)| - limit)
    ensures DistinctIds(Pending(Round(t, limit, results)))
  {
    RoundRemovesDistinctIds(t, limit, results);
    WithoutMeaning(Pending(t), AckedKeys(Batch(t, limit), results));
    DistinctIdsCount(Batch(t, limit));
  }

  /** With pairwise distinct event ids every round removes a full batch, so the queue is empty after
      exactly the rounds that cover it: k rounds empty it if and only if k * limit reaches n. */
  lemma {:induction false} DrainsInFullBatches(t: Table, limit: int, replies: seq<seq<AckResult>>)
    requires WellFormed(t) && limit > 0 && DistinctIds(Pending(t)) && RepliesCover(t, limit, replies)
    ensures |Pending(AfterRounds(t, limit, replies))| == Max(0, |Pending(t)| - |replies| * limit)
    ensures DistinctIds(Pending(AfterRounds(t, limit, replies)))
    ensures Pending(AfterRounds(t, limit, replies)) == [] <==> |replies| * limit >= |Pending(t)|
  {
    if replies != [] {
      var init, last := replies[..|replies| - 1], replies[|replies| - 1];
      var u := AfterRounds(t, limit, init);
      PrefixCovers(t, limit, replies);
      DrainsInFullBatches(t, limit, init);
      assert WellFormed(u) by { DrainsWithinPendingRounds(t, limit, init); }
      FullBatchRound(u, limit, last);
      OneMoreBatch(|Pending(t)|, |init|, limit);
    }
  }

  lemma OneMoreBatch(n: nat, k: nat, limit: nat)
    ensures Max(0, Max(0, n - k * limit) - limit) == Max(0, n - (k + 1) * limit)
  {
    assert (k + 1) * limit == k * limit + limit;
  }
}
