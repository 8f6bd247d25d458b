/** `applyLease` of src/app/adapter-runtime.ts: one synchronous update of four objects. */
module LeaseApplication {
  import opened Common
  import opened EventStore
  import opened Registry
  import opened PushAuth
  import DeliveryProtocol
  import Runtime

  function CursorsOf(current: seq<Assignment>): seq<(string, Option<string>)> {
    seq(|current|, i requires 0 <= i < |current| => (current[i].deviceId, current[i].lastAckedEventId))
  }

  class AdapterRuntime {
    const store: SqliteStore
    const assignments: AssignmentRegistry
    const pushAuth: PushAuthRegistry
    var adapterId: Option<string>
    var batchLimit: int
    var heartbeatIntervalMs: int

    constructor (store: SqliteStore, assignments: AssignmentRegistry, pushAuth: PushAuthRegistry, heartbeatMs: int)
      ensures this.store == store && this.assignments == assignments && this.pushAuth == pushAuth
      ensures adapterId == None && batchLimit == 100 && heartbeatIntervalMs == heartbeatMs
    {
      this.store, this.assignments, this.pushAuth := store, assignments, pushAuth;
      adapterId, batchLimit, heartbeatIntervalMs := None, 100, heartbeatMs;
    }

    /** The state of the objects afterwards is the one the state machine reaches in one atomic step. */
    method ApplyLease(lease: Runtime.Lease) returns (failures: seq<string>)
      requires store.Valid() && assignments.Valid()
      modifies this, store, assignments, pushAuth
      ensures store.Valid() && assignments.Valid()
      ensures forall s: Runtime.Rt ::
                var s' := Runtime.ApplyLease(pushAuth.parse, s, lease);
                && adapterId == s'.adapterId && batchLimit == s'.batchLimit
                && assignments.assignments == s'.registry && pushAuth.Current() == s'.push
      ensures heartbeatIntervalMs == lease.heartbeatMs
      ensures store.View() ==
              DeliveryProtocol.SetCursors(old(store.View()), CursorsOf(assignments.assignments.Values()))
      ensures failures == Unparsed(pushAuth.parse, assignments.assignments.Values())
    {
      adapterId := Some(lease.adapterId);
      batchLimit := lease.batchLimit;
      heartbeatIntervalMs := lease.heartbeatMs;
      var diff := assignments.Apply(lease.devices);
      WriteCursors(diff.current);
      failures := pushAuth.RebuildFrom(diff.current);
    }

    method WriteCursors(current: seq<Assignment>)
      requires store.Valid()
      modifies store
      ensures store.Valid()
      ensures store.View() == DeliveryProtocol.SetCursors(old(store.View()), CursorsOf(current))
    {
      ghost var pairs := CursorsOf(current);
      for i := 0 to |current|
        invariant store.Valid()
        invariant store.View() == DeliveryProtocol.SetCursors(old(store.View()), pairs[..i])
      {
        assert pairs[..i + 1][..i] == pairs[..i];
        store.SetLastAckedEventId(current[i].deviceId, current[i].lastAckedEventId);
      }
      assert pairs[..|pairs|] == pairs;
    }
  }

  /** A lease overwrites the delivery cursor of every assigned device, also with an older id or none,
      and touches no other device and no event row. */
  lemma {:induction false} LeaseOverwritesCursors(t: Table, list: seq<Assignment>, d: string)
    requires DistinctDevices(list)
    ensures var t' := DeliveryProtocol.SetCursors(t, CursorsOf(list));
            && t'.rows == t.rows && t'.lastSeq == t.lastSeq
            && (forall i :: 0 <= i < |list| && list[i].deviceId == d ==>
                  d in t'.cursors && t'.cursors[d] == list[i].lastAckedEventId)
            && ((forall i :: 0 <= i < |list| ==> list[i].deviceId != d) ==>
                  (d in t'.cursors <==> d in t.cursors) && (d in t.cursors ==> t'.cursors[d] == t.cursors[d]))
  {
    if list != [] {
      var init := list[..|list| - 1];
      assert CursorsOf(list)[..|list| - 1] == CursorsOf(init);
      LeaseOverwritesCursors(t, init, d);
      forall i | 0 <= i < |init| && list[i].deviceId == d ensures init[i].deviceId == d {}
    }
  }
}
