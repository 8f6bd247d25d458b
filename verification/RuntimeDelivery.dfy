/** The adapter's tasks together with the queue and the Device Service: the flag that keeps one delivery at a
    time is what makes the queue protocol's single outstanding request true. */
module RuntimeDelivery {
  import opened Common
  import opened Registry
  import opened PushAuth
  import opened Delivery
  import opened LeaseApplication
  import R = Runtime
  import P = DeliveryProtocol

  datatype Joint = Joint(rt: R.Rt, sys: P.Sys)

  /** How the ingest call of a delivery that ends now turned out. */
  datatype Ending = Answered(results: seq<AckResult>) | Interrupted(results: seq<AckResult>, applied: nat) | Lost

  /** A step of the adapter's tasks, or of the queue's surroundings: ingestion, time, purging and the Device
      Service reading requests. */
  datatype Step = Adapter(a: R.Action, e: Ending) | World(p: P.Action)

  /** The tick passes the guards and reaches the queue. */
  predicate Delivers(rt: R.Rt, a: R.Action) {
    a.DeliveryTick? && rt.running && !rt.deliveryBusy && R.HasAdapter(rt)
  }

  function LeasedCursors(l: R.Lease): seq<(string, Option<string>)> {
    ByDeviceIsLastWins(l.devices);
    CursorsOf(ByDevice(l.devices).Values())
  }

  function EndingAction(e: Ending): P.Action {
    match e
    case Answered(results) => P.ReplyArrives(results)
    case Interrupted(results, applied) => P.CrashInReply(results, applied)
    case Lost => P.GiveUp
  }

  /** What a step of the adapter does to the queue. */
  function QueueStep(rt: R.Rt, a: R.Action, e: Ending): Option<P.Action>
    requires R.Enabled(rt, a)
  {
    match a
    case DeliveryTick(queueEmpty) => if Delivers(rt, a) && !queueEmpty then Some(P.SendBatch(rt.batchLimit)) else None
    case DeliveryFinally(k) => if rt.tasks[k].DeliveryCall? then Some(EndingAction(e)) else None
    case DeliveryFails(_) => Some(P.GiveUp)
    case RegisterReturns(_, l) => Some(P.LeaseApplied(LeasedCursors(l)))
    case HeartbeatReturns(_, l) => Some(P.LeaseApplied(LeasedCursors(l)))
    case _ => None
  }

  /** The Device Service answers an outstanding request as it should. */
  ghost predicate AnswersWell(sys: P.Sys, e: Ending) {
    sys.phase.Awaiting? && sys.phase.req < |sys.sent| ==>
      match e
      case Answered(results) => P.Answerable(sys, sys.sent[sys.phase.req], results)
      case Interrupted(results, applied) => P.Answerable(sys, sys.sent[sys.phase.req], results) && applied <= |results|
      case Lost => true
  }

  /** What the adapter's own code allows: nothing here looks at the protocol's phase. */
  ghost predicate Feasible(j: Joint, a: R.Action, e: Ending) {
    && R.Enabled(j.rt, a) && AnswersWell(j.sys, e)
    && (Delivers(j.rt, a) ==> (a.queueEmpty <==> Batch(j.sys.table, j.rt.batchLimit) == []))
  }

  ghost predicate CanStep(j: Joint, st: Step) {
    match st
    case Adapter(a, e) =>
      Feasible(j, a, e) && (QueueStep(j.rt, a, e).Some? ==> P.Enabled(j.sys, QueueStep(j.rt, a, e).value))
    case World(p) => (p.Ingest? || p.Tick? || p.DsReads? || p.RunPurge?) && P.Enabled(j.sys, p)
  }

  ghost function Next(parse: Parser, j: Joint, st: Step): Joint
    requires CanStep(j, st)
  {
    match st
    case Adapter(a, e) =>
      Joint(R.Apply(parse, j.rt, a),
            match QueueStep(j.rt, a, e) case None => j.sys case Some(p) => P.Apply(j.sys, p))
    case World(p) => j.(sys := P.Apply(j.sys, p))
  }

  ghost predicate Run(parse: Parser, states: seq<Joint>, steps: seq<Step>) {
    && |states| == |steps| + 1
    && R.Init(states[0].rt) && P.Init(states[0].sys)
    && forall i :: 0 <= i < |steps| ==>
         CanStep(states[i], steps[i]) && states[i + 1] == Next(parse, states[i], steps[i])
  }

  // ---------------------------------------------------------------- one request outstanding

  predicate IsCall(tasks: map<nat, R.Task>, k: nat) { k in tasks && tasks[k].DeliveryCall? }

  ghost predicate CallInFlight(rt: R.Rt) { exists k :: IsCall(rt.tasks, k) }

  /** The protocol waits for a reply exactly while a delivery task stands at its ingest call. */
  ghost predicate Linked(rt: R.Rt, sys: P.Sys) {
    && (sys.phase.Awaiting? <==> CallInFlight(rt))
    && (sys.phase.Awaiting? ==> sys.phase.req < |sys.sent|)
  }

  ghost predicate Inv(parse: Parser, j: Joint) {
    R.Inv(parse, j.rt) && P.Inv(j.sys) && Linked(j.rt, j.sys)
  }

  /** The same tasks stand at their ingest call. */
  ghost predicate SameCalls(tasks: map<nat, R.Task>, tasks': map<nat, R.Task>) {
    forall k :: IsCall(tasks, k) <==> IsCall(tasks', k)
  }

  lemma JoinKeepsCalls(s: R.Rt, k: nat, waits: nat -> R.Task)
    requires R.WaitsAreSound(s) && k in s.tasks && !s.tasks[k].DeliveryCall?
    requires forall loop: nat :: !waits(loop).DeliveryCall?
    ensures SameCalls(s.tasks, R.JoinLoop(s, k, waits).tasks)
  {}

  lemma JoinEndsCall(s: R.Rt, k: nat, waits: nat -> R.Task, j: nat)
    requires R.WaitsAreSound(s) && k in s.tasks && forall loop: nat :: !waits(loop).DeliveryCall?
    ensures IsCall(R.JoinLoop(s, k, waits).tasks, j) <==> IsCall(s.tasks, j) && j != k
  {}

  lemma RegisterKeepsCalls(parse: Parser, s: R.Rt, a: R.Action)
    requires R.WaitsAreSound(s) && R.Enabled(s, a)
    requires a.Start? || a.Stop? || a.RegisterFails? || a.RegisterWakes? || a.RegisterFinally?
    ensures SameCalls(s.tasks, R.Apply(parse, s, a).tasks)
  {}

  lemma RegisteredKeepsCalls(parse: Parser, s: R.Rt, k: nat, l: R.Lease)
    requires R.Enabled(s, R.RegisterReturns(k, l))
    ensures SameCalls(s.tasks, R.Apply(parse, s, R.RegisterReturns(k, l)).tasks)
  {}

  lemma HeartbeatKeepsCalls(parse: Parser, s: R.Rt, a: R.Action)
    requires R.WaitsAreSound(s) && R.Enabled(s, a) && R.OfHeartbeat(a)
    ensures SameCalls(s.tasks, R.Apply(parse, s, a).tasks)
  {
    if a.HeartbeatFails? {
      JoinKeepsCalls(s, a.task, (loop: nat) => R.HeartbeatWaits(loop));
    }
  }

  lemma OthersKeepCalls(parse: Parser, s: R.Rt, a: R.Action)
    requires R.WaitsAreSound(s) && R.Enabled(s, a)
    requires !a.DeliveryTick? && !a.DeliveryFinally? && !a.DeliveryFails?
    ensures SameCalls(s.tasks, R.Apply(parse, s, a).tasks)
  {
    match a
    case RegisterReturns(k, l) => RegisteredKeepsCalls(parse, s, k, l);
    case DeliveryResumes(_) =>
    case _ =>
      if R.OfHeartbeat(a) {
        HeartbeatKeepsCalls(parse, s, a);
      } else {
        RegisterKeepsCalls(parse, s, a);
      }
  }

  /** A call in flight is the only delivery task there is. */
  lemma OneCall(s: R.Rt, k: nat)
    requires R.SingleFlight(s) && IsCall(s.tasks, k)
    ensures s.deliveryBusy && forall j :: j in s.tasks && R.KindOf(s.tasks[j]) == R.Deliveries ==> j == k
  {
    assert R.KindOf(s.tasks[k]) == R.Deliveries;
  }

  lemma TickLinks(parse: Parser, j: Joint, queueEmpty: bool)
    requires Inv(parse, j) && Delivers(j.rt, R.DeliveryTick(queueEmpty))
    ensures j.sys.phase == P.Idle
    ensures CallInFlight(R.Apply(parse, j.rt, R.DeliveryTick(queueEmpty))) <==> !queueEmpty
  {
    var s' := R.Apply(parse, j.rt, R.DeliveryTick(queueEmpty));
    if k :| IsCall(j.rt.tasks, k) {
      OneCall(j.rt, k);
    }
    if !queueEmpty {
      assert IsCall(s'.tasks, j.rt.nextTask);
    } else {
      assert forall k :: IsCall(s'.tasks, k) ==> IsCall(j.rt.tasks, k);
    }
  }

  /** When the delivery task leaves its call no other call is left. */
  lemma EndUnlinks(parse: Parser, s: R.Rt, a: R.Action)
    requires R.SingleFlight(s) && R.WaitsAreSound(s) && R.Enabled(s, a)
    requires (a.DeliveryFinally? || a.DeliveryFails?) && IsCall(s.tasks, a.task)
    ensures !CallInFlight(R.Apply(parse, s, a))
  {
    var s' := R.Apply(parse, s, a);
    OneCall(s, a.task);
    forall k ensures !IsCall(s'.tasks, k) {
      if a.DeliveryFails? && s.running {
        JoinEndsCall(s, a.task, (loop: nat) => R.DeliveryWaits(loop), k);
      }
      assert IsCall(s.tasks, k) ==> R.KindOf(s.tasks[k]) == R.Deliveries;
    }
  }

  lemma NothingToEnd(parse: Parser, s: R.Rt, k: nat)
    requires R.Enabled(s, R.DeliveryFinally(k)) && !IsCall(s.tasks, k)
    ensures SameCalls(s.tasks, R.Apply(parse, s, R.DeliveryFinally(k)).tasks)
  {}

  lemma EndingIsAllowed(sys: P.Sys, e: Ending)
    requires sys.phase.Awaiting? && sys.phase.req < |sys.sent| && AnswersWell(sys, e)
    ensures P.Enabled(sys, EndingAction(e)) && P.Enabled(sys, P.GiveUp)
  {}

  lemma EndIsAllowed(parse: Parser, j: Joint, a: R.Action, e: Ending)
    requires Inv(parse, j) && Feasible(j, a, e) && (a.DeliveryFinally? || a.DeliveryFails?)
    ensures QueueStep(j.rt, a, e).Some? ==> P.Enabled(j.sys, QueueStep(j.rt, a, e).value)
  {
    if IsCall(j.rt.tasks, a.task) {
      assert CallInFlight(j.rt);
      EndingIsAllowed(j.sys, e);
    }
  }

  lemma TickIsAllowed(parse: Parser, j: Joint, queueEmpty: bool, e: Ending)
    requires Inv(parse, j) && Feasible(j, R.DeliveryTick(queueEmpty), e)
    ensures var p := QueueStep(j.rt, R.DeliveryTick(queueEmpty), e); p.Some? ==> P.Enabled(j.sys, p.value)
  {
    if Delivers(j.rt, R.DeliveryTick(queueEmpty)) {
      TickLinks(parse, j, queueEmpty);
    }
  }

  /** Main result: whatever the adapter's own guards let it do, the protocol allows; in particular it never
      sends while a request is outstanding, and never ends a request it has not sent. */
  lemma AdapterIsNeverRefused(parse: Parser, j: Joint, a: R.Action, e: Ending)
    requires Inv(parse, j) && Feasible(j, a, e)
    ensures CanStep(j, Adapter(a, e))
  {
    if a.DeliveryTick? {
      TickIsAllowed(parse, j, a.queueEmpty, e);
    } else if a.DeliveryFinally? || a.DeliveryFails? {
      EndIsAllowed(parse, j, a, e);
    }
  }

  /** How the protocol's phase moves. */
  lemma PhaseAfter(sys: P.Sys, p: P.Action)
    requires P.Enabled(sys, p)
    ensures var sys' := P.Apply(sys, p);
            && (p.SendBatch? ==> sys'.phase == P.Awaiting(|sys.sent|) && |sys'.sent| == |sys.sent| + 1)
            && (!p.SendBatch? ==> sys'.sent == sys.sent)
            && (p.ReplyArrives? || p.CrashInReply? || p.GiveUp? ==> sys'.phase == P.Idle)
            && (p.Ingest? || p.Tick? || p.DsReads? || p.RunPurge? || p.LeaseApplied? ==> sys'.phase == sys.phase)
  {}

  lemma TickKeepsLink(parse: Parser, j: Joint, queueEmpty: bool, e: Ending)
    requires Inv(parse, j) && CanStep(j, Adapter(R.DeliveryTick(queueEmpty), e))
    ensures var j' := Next(parse, j, Adapter(R.DeliveryTick(queueEmpty), e)); Linked(j'.rt, j'.sys)
  {
    if Delivers(j.rt, R.DeliveryTick(queueEmpty)) {
      TickLinks(parse, j, queueEmpty);
      if !queueEmpty {
        PhaseAfter(j.sys, P.SendBatch(j.rt.batchLimit));
      }
    }
  }

  lemma EndKeepsLink(parse: Parser, j: Joint, a: R.Action, e: Ending)
    requires Inv(parse, j) && CanStep(j, Adapter(a, e)) && (a.DeliveryFinally? || a.DeliveryFails?)
    ensures var j' := Next(parse, j, Adapter(a, e)); Linked(j'.rt, j'.sys)
  {
    if IsCall(j.rt.tasks, a.task) {
      EndUnlinks(parse, j.rt, a);
      PhaseAfter(j.sys, QueueStep(j.rt, a, e).value);
    } else {
      NothingToEnd(parse, j.rt, a.task);
      CallsDecide(j.rt, R.Apply(parse, j.rt, a));
    }
  }

  lemma OthersKeepLink(parse: Parser, j: Joint, a: R.Action, e: Ending)
    requires Inv(parse, j) && CanStep(j, Adapter(a, e))
    requires !a.DeliveryTick? && !a.DeliveryFinally? && !a.DeliveryFails?
    ensures var j' := Next(parse, j, Adapter(a, e)); Linked(j'.rt, j'.sys)
  {
    OthersKeepCalls(parse, j.rt, a);
    CallsDecide(j.rt, R.Apply(parse, j.rt, a));
    if QueueStep(j.rt, a, e).Some? {
      PhaseAfter(j.sys, QueueStep(j.rt, a, e).value);
    }
  }

  lemma CallsDecide(s: R.Rt, s': R.Rt)
    requires SameCalls(s.tasks, s'.tasks)
    ensures CallInFlight(s) <==> CallInFlight(s')
  {
    if k :| IsCall(s.tasks, k) {
      assert IsCall(s'.tasks, k);
    }
    if k :| IsCall(s'.tasks, k) {
      assert IsCall(s.tasks, k);
    }
  }

  lemma StepKeeps(parse: Parser, j: Joint, st: Step)
    requires Inv(parse, j) && CanStep(j, st)
    ensures Inv(parse, Next(parse, j, st))
  {
    match st
    case Adapter(a, e) =>
      if a.DeliveryTick? {
        TickKeepsLink(parse, j, a.queueEmpty, e);
      } else if a.DeliveryFinally? || a.DeliveryFails? {
        EndKeepsLink(parse, j, a, e);
      } else {
        OthersKeepLink(parse, j, a, e);
      }
      R.StepKeeps(parse, j.rt, a);
      if QueueStep(j.rt, a, e).Some? {
        P.StepKeeps(j.sys, QueueStep(j.rt, a, e).value);
      }
    case World(p) =>
      P.StepKeeps(j.sys, p);
      PhaseAfter(j.sys, p);
  }

  /** Over every run of adapter, queue and Device Service both invariants hold and the two agree on whether a
      request is outstanding. */
  lemma {:induction false} RunsKeepInvariant(parse: Parser, states: seq<Joint>, steps: seq<Step>)
    requires Run(parse, states, steps)
    ensures forall i :: 0 <= i < |states| ==> Inv(parse, states[i])
  {
    if steps == [] {
      StartsLinked(parse, states[0]);
    } else {
      var n := |steps| - 1;
      EarlierRun(parse, states, steps);
      RunsKeepInvariant(parse, states[..n + 1], steps[..n]);
      assert forall i :: 0 <= i <= n ==> states[..n + 1][i] == states[i];
      StepKeeps(parse, states[n], steps[n]);
    }
  }

  lemma EarlierRun(parse: Parser, states: seq<Joint>, steps: seq<Step>)
    requires Run(parse, states, steps) && steps != []
    ensures Run(parse, states[..|steps|], steps[..|steps| - 1])
  {
    var states', steps' := states[..|steps|], steps[..|steps| - 1];
    forall i | 0 <= i < |steps'|
      ensures CanStep(states'[i], steps'[i]) && states'[i + 1] == Next(parse, states'[i], steps'[i])
    {
      assert steps'[i] == steps[i] && states'[i] == states[i] && states'[i + 1] == states[i + 1];
    }
  }

  lemma StartsLinked(parse: Parser, j: Joint)
    requires R.Init(j.rt) && P.Init(j.sys)
    ensures Inv(parse, j)
  {
    R.RunsKeepInvariant(parse, [j.rt], []);
    P.RunsKeepInvariant([j.sys], []);
    assert [j.rt][0] == j.rt && [j.sys][0] == j.sys;
  }
}
