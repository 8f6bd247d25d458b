/** The device assignments of the current lease and the indexes derived from them
    (src/app/assignment-registry.ts, src/app/push-auth-registry.ts). */
module Registry {
  import opened Common
  import opened EventStore
  import opened InsertionMap

  datatype Assignment = Assignment(
    deviceId: string,
    direction: Direction,
    settingsJson: Option<string>,
    lastAckedEventId: Option<string>)

  datatype Diff = Diff(
    added: seq<Assignment>,
    updated: seq<Assignment>,
    removed: seq<Assignment>,
    current: seq<Assignment>)

  type Assigned = OMap<string, Assignment>

  /** `new Map(list.map(item => [item.deviceId, item]))`. */
  function ByDevice(list: seq<Assignment>): Assigned {
    if list == [] then Empty()
    else var last := list[|list| - 1]; ByDevice(list[..|list| - 1]).Set(last.deviceId, last)
  }

  // ---------------------------------------------------------------- what the map holds

  /** The last assignment given for a device. */
  function LastFor(list: seq<Assignment>, d: string): Option<Assignment> {
    if list == [] then None
    else if list[|list| - 1].deviceId == d then Some(list[|list| - 1])
    else LastFor(list[..|list| - 1], d)
  }

  predicate Mentions(list: seq<Assignment>, d: string) {
    exists i :: 0 <= i < |list| && list[i].deviceId == d
  }

  function DeviceIds(list: seq<Assignment>): seq<string> {
    seq(|list|, i requires 0 <= i < |list| => list[i].deviceId)
  }

  lemma {:induction false} ByDeviceOrder(list: seq<Assignment>)
    ensures ByDevice(list).Valid() && ByDevice(list).order == FirstSeen(DeviceIds(list))
  {
    if list != [] {
      var init, last := list[..|list| - 1], list[|list| - 1];
      ByDeviceOrder(init);
      OneKeyMore(ByDevice(init), DeviceIds(init), last.deviceId, last);
      assert DeviceIds(list) == DeviceIds(init) + [last.deviceId];
    }
  }

  lemma {:induction false} ByDeviceHolds(list: seq<Assignment>)
    ensures forall d :: ByDevice(list).Get(d) == LastFor(list, d)
    ensures forall d :: d in ByDevice(list).at ==> ByDevice(list).at[d].deviceId == d
  {
    if list != [] {
      ByDeviceHolds(list[..|list| - 1]);
    }
  }

  lemma MentionsMeaning(list: seq<Assignment>, d: string)
    ensures Mentions(list, d) <==> d in DeviceIds(list)
  {
    if d in DeviceIds(list) {
      var i :| 0 <= i < |list| && DeviceIds(list)[i] == d;
      assert list[i].deviceId == d;
    }
    if Mentions(list, d) {
      var i :| 0 <= i < |list| && list[i].deviceId == d;
      assert DeviceIds(list)[i] == d;
    }
  }

  /** The registry is the last-wins map of the list, in first-mention order. */
  lemma ByDeviceIsLastWins(list: seq<Assignment>)
    ensures ByDevice(list).Valid()
    ensures ByDevice(list).order == FirstSeen(DeviceIds(list))
    ensures forall d :: ByDevice(list).Get(d) == LastFor(list, d)
    ensures forall d :: d in ByDevice(list).at <==> Mentions(list, d)
    ensures forall d :: d in ByDevice(list).at ==> ByDevice(list).at[d].deviceId == d
  {
    ByDeviceOrder(list);
    ByDeviceHolds(list);
    FirstSeenMembers(DeviceIds(list));
    forall d ensures d in ByDevice(list).at <==> Mentions(list, d) {
      MentionsMeaning(list, d);
      assert d in ByDevice(list).at <==> d in ByDevice(list).order;
    }
  }

  // ---------------------------------------------------------------- the difference of two leases

  ghost predicate Keyed(m: Assigned) {
    m.Valid() && forall d :: d in m.at ==> m.at[d].deviceId == d
  }

  ghost function Ids(list: seq<Assignment>): set<string> {
    set i | 0 <= i < |list| :: list[i].deviceId
  }

  /** Listed devices that are not in `m`. */
  ghost function Absent(order: seq<string>, m: Assigned): set<string> {
    set d | d in order && d !in m.at
  }

  /** Listed devices held by both maps with different assignments. */
  ghost function Changed(order: seq<string>, old': Assigned, new': Assigned): set<string> {
    set d | d in order && d in old'.at && d in new'.at && old'.at[d] != new'.at[d]
  }

  /** Each list holds exactly the assignments its name says, once per device. */
  ghost predicate DiffOf(old': Assigned, new': Assigned, diff: Diff) {
    && Exactly(diff.added, new', Absent(new'.order, old'))
    && Exactly(diff.updated, new', Changed(new'.order, old', new'))
    && Exactly(diff.removed, old', Absent(old'.order, new'))
  }

  ghost predicate Exactly(list: seq<Assignment>, m: Assigned, ds: set<string>) {
    && (forall i :: 0 <= i < |list| ==> list[i].deviceId in ds)
    && (forall i :: 0 <= i < |list| ==> list[i].deviceId in m.at && list[i] == m.at[list[i].deviceId])
    && (forall d :: d in ds ==> exists i :: 0 <= i < |list| && list[i].deviceId == d)
    && (forall i, j :: 0 <= i < j < |list| ==> list[i].deviceId != list[j].deviceId)
  }

  /** Carrying a difference out on a plain map: drop, then add, then overwrite. */
  ghost function Patch(m: map<string, Assignment>, diff: Diff): map<string, Assignment> {
    (m - Ids(diff.removed)) + ByDevice(diff.added).at + ByDevice(diff.updated).at
  }

  lemma ExactlyAsMap(list: seq<Assignment>, m: Assigned, ds: set<string>)
    requires Exactly(list, m, ds)
    ensures ByDevice(list).at.Keys == ds && Ids(list) == ds
    ensures forall d :: d in ds ==> d in m.at && ByDevice(list).at[d] == m.at[d]
  {
    ByDeviceIsLastWins(list);
    forall d | d in ByDevice(list).at ensures d in ds && d in m.at && ByDevice(list).at[d] == m.at[d] {
      assert ByDevice(list).Get(d) == LastFor(list, d);
      LastIsListed(list, m, ds, d);
    }
    forall d | d in ds ensures d in ByDevice(list).at && d in Ids(list) {
      assert Mentions(list, d);
    }
  }

  lemma LastIsListed(list: seq<Assignment>, m: Assigned, ds: set<string>, d: string)
    requires Exactly(list, m, ds) && LastFor(list, d).Some?
    ensures d in ds && d in m.at && LastFor(list, d).value == m.at[d]
  {
    LastForMember(list, d);
  }

  lemma {:induction false} LastForMember(list: seq<Assignment>, d: string)
    ensures LastFor(list, d).Some? <==> Mentions(list, d)
    ensures LastFor(list, d).Some? ==>
              exists i :: 0 <= i < |list| && list[i] == LastFor(list, d).value && list[i].deviceId == d
  {
    if list != [] {
      var init := list[..|list| - 1];
      LastForMember(init, d);
      if list[|list| - 1].deviceId != d && Mentions(list, d) {
        var i :| 0 <= i < |list| && list[i].deviceId == d;
        assert init[i].deviceId == d;
      }
    }
  }

  /** The reported difference turns the previous registry into the new one. */
  lemma DiffPatches(old': Assigned, new': Assigned, diff: Diff)
    requires old'.Valid() && new'.Valid() && DiffOf(old', new', diff)
    ensures Patch(old'.at, diff) == new'.at
  {
    ExactlyAsMap(diff.added, new', Absent(new'.order, old'));
    ExactlyAsMap(diff.updated, new', Changed(new'.order, old', new'));
    ExactlyAsMap(diff.removed, old', Absent(old'.order, new'));
    PatchesTo(old', new', ByDevice(diff.added).at, ByDevice(diff.updated).at);
  }

  lemma PatchesTo(old': Assigned, new': Assigned, added: map<string, Assignment>, updated: map<string, Assignment>)
    requires old'.Valid() && new'.Valid()
    requires added.Keys == Absent(new'.order, old') && forall d :: d in added ==> d in new'.at && added[d] == new'.at[d]
    requires updated.Keys == Changed(new'.order, old', new')
    requires forall d :: d in updated ==> d in new'.at && updated[d] == new'.at[d]
    ensures (old'.at - Absent(old'.order, new')) + added + updated == new'.at
  {
    var p := (old'.at - Absent(old'.order, new')) + added + updated;
    assert p.Keys == new'.at.Keys;
    forall d | d in p ensures p[d] == new'.at[d] {}
  }

  class AssignmentRegistry {
    var assignments: Assigned

    ghost predicate Valid()
      reads this
    {
      Keyed(assignments)
    }

    constructor ()
      ensures Valid() && assignments == Empty()
    {
      assignments := Empty();
    }

    method Apply(next: seq<Assignment>) returns (diff: Diff)
      requires Valid()
      modifies this
      ensures Valid()
      ensures assignments == ByDevice(next)
      ensures DiffOf(old(assignments), assignments, diff)
      ensures diff.current == assignments.Values()
    {
      ByDeviceIsLastWins(next);
      var nextMap := ByDevice(next);
      var added, updated := Incoming(nextMap);
      var removed := Outgoing(nextMap);
      assignments := Empty();
      for i := 0 to |next|
        invariant assignments == ByDevice(next[..i])
      {
        assert next[..i + 1][..i] == next[..i];
        assignments := assignments.Set(next[i].deviceId, next[i]);
      }
      assert next[..|next|] == next;
      diff := Diff(added, updated, removed, assignments.Values());
    }

    /** First loop of `apply`: what the next map adds and changes. */
    method Incoming(nextMap: Assigned) returns (added: seq<Assignment>, updated: seq<Assignment>)
      requires Keyed(nextMap)
      ensures Exactly(added, nextMap, Absent(nextMap.order, assignments))
      ensures Exactly(updated, nextMap, Changed(nextMap.order, assignments, nextMap))
    {
      added, updated := [], [];
      for i := 0 to |nextMap.order|
        invariant Exactly(added, nextMap, Absent(nextMap.order[..i], assignments))
        invariant Exactly(updated, nextMap, Changed(nextMap.order[..i], assignments, nextMap))
      {
        var d := nextMap.order[i];
        AbsentMore(added, nextMap, assignments, i);
        ChangedMore(updated, nextMap, assignments, i);
        var prev := assignments.Get(d);
        if prev.None? {
          added := added + [nextMap.at[d]];
          continue;
        }
        if prev.value != nextMap.at[d] {
          updated := updated + [nextMap.at[d]];
        }
      }
      assert nextMap.order[..|nextMap.order|] == nextMap.order;
    }

    /** Second loop of `apply`: what the next map no longer holds. */
    method Outgoing(nextMap: Assigned) returns (removed: seq<Assignment>)
      requires Valid()
      ensures Exactly(removed, assignments, Absent(assignments.order, nextMap))
    {
      removed := [];
      for i := 0 to |assignments.order|
        invariant Exactly(removed, assignments, Absent(assignments.order[..i], nextMap))
      {
        var d := assignments.order[i];
        AbsentMore(removed, assignments, nextMap, i);
        if d !in nextMap.at {
          removed := removed + [assignments.at[d]];
        }
      }
      assert assignments.order[..|assignments.order|] == assignments.order;
    }
  }

  lemma AbsentStep(listed: Assigned, other: Assigned, i: nat)
    requires listed.Valid() && i < |listed.order|
    ensures var d := listed.order[i];
            && d in listed.at && d !in Absent(listed.order[..i], other)
            && Absent(listed.order[..i + 1], other) ==
               Absent(listed.order[..i], other) + (if d in other.at then {} else {d})
  {
    assert listed.order[i] in listed.order;
    assert listed.order[..i + 1] == listed.order[..i] + [listed.order[i]];
  }

  lemma ChangedStep(listed: Assigned, was: Assigned, i: nat)
    requires listed.Valid() && i < |listed.order|
    ensures var d := listed.order[i];
            && d in listed.at && d !in Changed(listed.order[..i], was, listed)
            && Changed(listed.order[..i + 1], was, listed) ==
               Changed(listed.order[..i], was, listed) +
               (if d in was.at && was.at[d] != listed.at[d] then {d} else {})
  {
    assert listed.order[i] in listed.order;
    assert listed.order[..i + 1] == listed.order[..i] + [listed.order[i]];
  }

  lemma AbsentMore(list: seq<Assignment>, listed: Assigned, other: Assigned, i: nat)
    requires Keyed(listed) && i < |listed.order| && Exactly(list, listed, Absent(listed.order[..i], other))
    ensures var d := listed.order[i];
            && d in listed.at
            && Exactly(if d in other.at then list else list + [listed.at[d]], listed,
                       Absent(listed.order[..i + 1], other))
  {
    AbsentStep(listed, other, i);
    var d, before := listed.order[i], Absent(listed.order[..i], other);
    if d in other.at {
      assert before + {} == before;
    } else {
      ExactlyExtend(list, listed, before, d);
    }
  }

  lemma ChangedMore(list: seq<Assignment>, listed: Assigned, was: Assigned, i: nat)
    requires Keyed(listed) && i < |listed.order| && Exactly(list, listed, Changed(listed.order[..i], was, listed))
    ensures var d := listed.order[i];
            && d in listed.at
            && Exactly(if d in was.at && was.at[d] != listed.at[d] then list + [listed.at[d]] else list, listed,
                       Changed(listed.order[..i + 1], was, listed))
  {
    ChangedStep(listed, was, i);
    var d, before := listed.order[i], Changed(listed.order[..i], was, listed);
    if d in was.at && was.at[d] != listed.at[d] {
      ExactlyExtend(list, listed, before, d);
    } else {
      assert before + {} == before;
    }
  }

  lemma ExactlyExtend(list: seq<Assignment>, m: Assigned, ds: set<string>, d: string)
    requires Keyed(m) && Exactly(list, m, ds) && d in m.at && d !in ds
    ensures Exactly(list + [m.at[d]], m, ds + {d})
  {
    var out := list + [m.at[d]];
    forall e | e in ds + {d} ensures exists i :: 0 <= i < |out| && out[i].deviceId == e {
      if e == d {
        assert out[|list|].deviceId == d;
      } else {
        var i :| 0 <= i < |list| && list[i].deviceId == e;
        assert out[i].deviceId == e;
      }
    }
  }
}
