/** The asynchronous life of the adapter (src/app/adapter-runtime.ts, src/app/runtime-lease.ts): every
    coroutine is a task standing at one of its await points, and any enabled task may run next.
    Starts and stops may be interleaved as well. */
module Runtime {
  import opened Common
  import opened InsertionMap
  import opened Registry
  import opened PushAuth

  datatype Lease = Lease(adapterId: string, batchLimit: int, heartbeatMs: int, devices: seq<Assignment>)

  /** Inside `registerWithRetry`: waiting for the call, or sleeping after that many failures. */
  datatype Attempt = Calling(failures: nat) | Sleeping(failures: nat)

  datatype Task =
    | StartRegister(at: Attempt)
    | HeartbeatCall
    | HeartbeatWaits(loop: nat)    // awaiting the shared re-register promise of task `loop`
    | DeliveryCall
    | DeliveryWaits(loop: nat)
    | DeliveryEnding               // nothing was pending; the `finally` has not run yet
    | RegisterLoop(at: Attempt)
    | RegisterSettled              // loop returned or threw; its `finally` has not run yet

  datatype Rt = Rt(
    running: bool,
    adapterId: Option<string>,
    batchLimit: int,
    heartbeatBusy: bool,
    deliveryBusy: bool,
    reRegister: Option<nat>,
    tasks: map<nat, Task>,
    nextTask: nat,
    heartbeatTimers: nat,
    startsDone: nat,
    lease: Option<Lease>,          // history: the lease applied last
    registry: Assigned,
    push: Indexes)

  datatype Action =
    | Start
    | Stop(clearsTimer: bool)
    | RegisterReturns(task: nat, lease: Lease)
    | RegisterFails(task: nat)
    | RegisterWakes(task: nat)
    | RegisterFinally(task: nat)
    | HeartbeatFires
    | HeartbeatReturns(task: nat, lease: Lease)
    | HeartbeatFails(task: nat, leaseInvalid: bool)
    | HeartbeatResumes(task: nat, rejected: bool)
    | DeliveryTick(queueEmpty: bool)
    | DeliveryFinally(task: nat)
    | DeliveryFails(task: nat)     // permanent error that invalidates the lease
    | DeliveryResumes(task: nat)

  datatype Kind = Starter | Heartbeats | Deliveries | Loops

  function KindOf(t: Task): Kind {
    match t
    case StartRegister(_) => Starter
    case HeartbeatCall => Heartbeats
    case HeartbeatWaits(_) => Heartbeats
    case DeliveryCall => Deliveries
    case DeliveryWaits(_) => Deliveries
    case DeliveryEnding => Deliveries
    case RegisterLoop(_) => Loops
    case RegisterSettled => Loops
  }

  predicate HasAdapter(s: Rt) { s.adapterId.Some? && s.adapterId.value != "" }

  predicate At(s: Rt, task: nat, t: Task) { task in s.tasks && s.tasks[task] == t }

  predicate Registering(s: Rt, task: nat) {
    task in s.tasks && (s.tasks[task].StartRegister? || s.tasks[task].RegisterLoop?)
  }

  predicate Enabled(s: Rt, a: Action) {
    match a
    case Start => true
    case Stop(_) => true
    case RegisterReturns(k, _) => Registering(s, k) && s.tasks[k].at.Calling?
    case RegisterFails(k) => Registering(s, k) && s.tasks[k].at.Calling?
    case RegisterWakes(k) => Registering(s, k) && s.tasks[k].at.Sleeping?
    case RegisterFinally(k) => At(s, k, RegisterSettled)
    case HeartbeatFires => s.heartbeatTimers > 0
    case HeartbeatReturns(k, _) => At(s, k, HeartbeatCall)
    case HeartbeatFails(k, _) => At(s, k, HeartbeatCall)
    case HeartbeatResumes(k, _) => k in s.tasks && s.tasks[k].HeartbeatWaits? && s.tasks[k].loop !in s.tasks
    case DeliveryTick(_) => true
    case DeliveryFinally(k) => At(s, k, DeliveryCall) || At(s, k, DeliveryEnding)
    case DeliveryFails(k) => At(s, k, DeliveryCall)
    case DeliveryResumes(k) => k in s.tasks && s.tasks[k].DeliveryWaits? && s.tasks[k].loop !in s.tasks
  }

  // ---------------------------------------------------------------- synchronous segments

  function ApplyLease(parse: Parser, s: Rt, l: Lease): Rt
  {
    ByDeviceIsLastWins(l.devices);
    s.(adapterId := Some(l.adapterId), batchLimit := l.batchLimit, lease := Some(l),
       registry := ByDevice(l.devices), push := Rebuild(parse, ByDevice(l.devices).Values()))
  }

  function EndTask(s: Rt, k: nat): Rt { s.(tasks := s.tasks - {k}) }

  function Spawn(s: Rt, t: Task): Rt { s.(tasks := s.tasks[s.nextTask := t], nextTask := s.nextTask + 1) }

  /** Leaving the heartbeat body: the `finally` clears the flag and a new timer is armed. */
  function HeartbeatEnds(s: Rt, k: nat): Rt {
    EndTask(s, k).(heartbeatBusy := false, heartbeatTimers := s.heartbeatTimers + 1)
  }

  function DeliveryEnds(s: Rt, k: nat): Rt { EndTask(s, k).(deliveryBusy := false) }

  /** `reRegister` called by a running task: join the shared loop, or create it. */
  function JoinLoop(s: Rt, k: nat, waits: nat -> Task): Rt {
    match s.reRegister
    case Some(loop) => s.(tasks := s.tasks[k := waits(loop)])
    case None =>
      var s' := Spawn(s, RegisterLoop(Calling(0)));
      s'.(tasks := s'.tasks[k := waits(s.nextTask)], reRegister := Some(s.nextTask))
  }

  function Apply(parse: Parser, s: Rt, a: Action): Rt
    requires Enabled(s, a)
  {
    match a
    case Start => if s.running then s else Spawn(s.(running := true), StartRegister(Calling(0)))
    case Stop(clearsTimer) =>
      if !s.running then s
      else if clearsTimer && s.heartbeatTimers > 0
      then s.(running := false, heartbeatTimers := s.heartbeatTimers - 1)
      else s.(running := false)
    case RegisterReturns(k, l) =>
      var s' := ApplyLease(parse, s, l);
      if s.tasks[k].StartRegister? then
        EndTask(s', k).(startsDone := s.startsDone + 1, heartbeatTimers := s.heartbeatTimers + 1)
      else s'.(tasks := s.tasks[k := RegisterSettled])
    case RegisterFails(k) => s.(tasks := s.tasks[k := s.tasks[k].(at := Sleeping(s.tasks[k].at.failures + 1))])
    case RegisterWakes(k) =>
      if s.running then s.(tasks := s.tasks[k := s.tasks[k].(at := Calling(s.tasks[k].at.failures))])
      else if s.tasks[k].StartRegister? then EndTask(s, k)
      else s.(tasks := s.tasks[k := RegisterSettled])
    case RegisterFinally(k) => EndTask(s, k).(reRegister := None)
    case HeartbeatFires =>
      var s' := s.(heartbeatTimers := s.heartbeatTimers - 1);
      if !s.running then s'
      else if s.heartbeatBusy || !HasAdapter(s) then s
      else Spawn(s'.(heartbeatBusy := true), HeartbeatCall)
    case HeartbeatReturns(k, l) => HeartbeatEnds(ApplyLease(parse, s, l), k)
    case HeartbeatFails(k, leaseInvalid) =>
      if leaseInvalid && s.running then JoinLoop(s, k, (loop: nat) => HeartbeatWaits(loop)) else HeartbeatEnds(s, k)
    case HeartbeatResumes(k, rejected) =>
      if rejected then EndTask(s, k).(heartbeatBusy := false) else HeartbeatEnds(s, k)
    case DeliveryTick(queueEmpty) =>
      if !s.running || s.deliveryBusy || !HasAdapter(s) then s
      else Spawn(s.(deliveryBusy := true), if queueEmpty then DeliveryEnding else DeliveryCall)
    case DeliveryFinally(k) => DeliveryEnds(s, k)
    case DeliveryFails(k) =>
      if s.running then JoinLoop(s, k, (loop: nat) => DeliveryWaits(loop)) else DeliveryEnds(s, k)
    case DeliveryResumes(k) => DeliveryEnds(s, k)
  }

  predicate Init(s: Rt) {
    s == Rt(false, None, 100, false, false, None, map[], 0, 0, 0, None, Empty(), Indexes(map[], map[]))
  }

  ghost predicate Run(parse: Parser, states: seq<Rt>, actions: seq<Action>) {
    && |states| == |actions| + 1
    && Init(states[0])
    && forall i :: 0 <= i < |actions| ==>
         Enabled(states[i], actions[i]) && states[i + 1] == Apply(parse, states[i], actions[i])
  }

  // ---------------------------------------------------------------- single flight

  /** The flag is set exactly while a task of this kind exists, and then there is only one. */
  ghost predicate Single(tasks: map<nat, Task>, kind: Kind, flag: bool) {
    && (flag <==> exists k :: k in tasks && KindOf(tasks[k]) == kind)
    && forall j, k :: j in tasks && k in tasks && KindOf(tasks[j]) == kind && KindOf(tasks[k]) == kind ==> j == k
  }

  /** At most one heartbeat, one delivery (hence one ingest call) and one re-register loop, with the
      flags and the shared promise equal to the coroutine positions. */
  ghost predicate SingleFlight(s: Rt) {
    && Single(s.tasks, Heartbeats, s.heartbeatBusy)
    && Single(s.tasks, Deliveries, s.deliveryBusy)
    && Single(s.tasks, Loops, s.reRegister.Some?)
    && (s.reRegister.Some? ==> s.reRegister.value in s.tasks && KindOf(s.tasks[s.reRegister.value]) == Loops)
  }

  function AwaitedLoop(t: Task): Option<nat> {
    match t
    case HeartbeatWaits(loop) => Some(loop)
    case DeliveryWaits(loop) => Some(loop)
    case _ => None
  }

  /** Waiting tasks wait for a loop that is alive, or can resume. */
  ghost predicate WaitsAreSound(s: Rt) {
    && (forall k :: k in s.tasks ==> k < s.nextTask)
    && (forall k :: k in s.tasks && AwaitedLoop(s.tasks[k]).Some? ==>
          var loop := AwaitedLoop(s.tasks[k]).value;
          loop < s.nextTask && (loop in s.tasks ==> KindOf(s.tasks[loop]) == Loops))
  }

  /** One timer chain per completed start. */
  ghost predicate TimersBounded(s: Rt) {
    s.heartbeatTimers + (if s.heartbeatBusy then 1 else 0) <= s.startsDone
  }

  /** Registry and push indexes are those of the lease applied last. */
  ghost predicate IndexesAgree(parse: Parser, s: Rt) {
    && Keyed(s.registry)
    && AgreesWith(parse, s.push, s.registry)
    && match s.lease
       case None => s.registry == Empty() && s.adapterId == None
       case Some(l) =>
         s.registry == ByDevice(l.devices) && s.adapterId == Some(l.adapterId) && s.batchLimit == l.batchLimit
  }

  ghost predicate Inv(parse: Parser, s: Rt) {
    SingleFlight(s) && WaitsAreSound(s) && TimersBounded(s) && IndexesAgree(parse, s)
  }

  // ---------------------------------------------------------------- moves of the task table

  lemma SpawnSingle(tasks: map<nat, Task>, id: nat, t: Task, kind: Kind, flag: bool)
    requires Single(tasks, kind, flag) && id !in tasks
    requires KindOf(t) == kind ==> !flag
    ensures Single(tasks[id := t], kind, flag || KindOf(t) == kind)
  {
    var out := tasks[id := t];
    if flag {
      var k :| k in tasks && KindOf(tasks[k]) == kind;
      assert k in out && KindOf(out[k]) == kind;
    }
    if KindOf(t) == kind {
      assert id in out && KindOf(out[id]) == kind;
    }
  }

  lemma EndSingle(tasks: map<nat, Task>, id: nat, kind: Kind, flag: bool)
    requires Single(tasks, kind, flag) && id in tasks
    ensures Single(tasks - {id}, kind, flag && KindOf(tasks[id]) != kind)
  {
    if flag && KindOf(tasks[id]) != kind {
      var k :| k in tasks && KindOf(tasks[k]) == kind;
      assert k in tasks - {id};
    }
  }

  lemma MoveSingle(tasks: map<nat, Task>, id: nat, t: Task, kind: Kind, flag: bool)
    requires Single(tasks, kind, flag) && id in tasks && KindOf(tasks[id]) == KindOf(t)
    ensures Single(tasks[id := t], kind, flag)
  {
    var out := tasks[id := t];
    assert forall k :: k in out ==> k in tasks && KindOf(out[k]) == KindOf(tasks[k]);
    if flag {
      var k :| k in tasks && KindOf(tasks[k]) == kind;
      assert k in out && KindOf(out[k]) == kind;
    }
  }

  lemma SpawnKeeps(s: Rt, t: Task, s': Rt)
    requires SingleFlight(s) && WaitsAreSound(s)
    requires s'.tasks == s.tasks[s.nextTask := t] && s'.nextTask == s.nextTask + 1
    requires AwaitedLoop(t).None?
    requires KindOf(t) == Heartbeats ==> !s.heartbeatBusy
    requires KindOf(t) == Deliveries ==> !s.deliveryBusy
    requires KindOf(t) == Loops ==> s.reRegister.None?
    requires s'.heartbeatBusy == (s.heartbeatBusy || KindOf(t) == Heartbeats)
    requires s'.deliveryBusy == (s.deliveryBusy || KindOf(t) == Deliveries)
    requires s'.reRegister == if KindOf(t) == Loops then Some(s.nextTask) else s.reRegister
    ensures SingleFlight(s') && WaitsAreSound(s')
  {
    assert s.nextTask !in s.tasks;
    SpawnSingle(s.tasks, s.nextTask, t, Heartbeats, s.heartbeatBusy);
    SpawnSingle(s.tasks, s.nextTask, t, Deliveries, s.deliveryBusy);
    SpawnSingle(s.tasks, s.nextTask, t, Loops, s.reRegister.Some?);
  }

  lemma EndKeeps(s: Rt, k: nat, s': Rt)
    requires SingleFlight(s) && WaitsAreSound(s) && k in s.tasks
    requires s'.tasks == s.tasks - {k} && s'.nextTask == s.nextTask
    requires s'.heartbeatBusy == (s.heartbeatBusy && KindOf(s.tasks[k]) != Heartbeats)
    requires s'.deliveryBusy == (s.deliveryBusy && KindOf(s.tasks[k]) != Deliveries)
    requires s'.reRegister == if KindOf(s.tasks[k]) == Loops then None else s.reRegister
    ensures SingleFlight(s') && WaitsAreSound(s')
  {
    EndSingle(s.tasks, k, Heartbeats, s.heartbeatBusy);
    EndSingle(s.tasks, k, Deliveries, s.deliveryBusy);
    EndSingle(s.tasks, k, Loops, s.reRegister.Some?);
  }

  lemma MoveKeeps(s: Rt, k: nat, t: Task, s': Rt)
    requires SingleFlight(s) && WaitsAreSound(s) && k in s.tasks && KindOf(s.tasks[k]) == KindOf(t)
    requires AwaitedLoop(t).Some? ==> s.reRegister == AwaitedLoop(t)
    requires s'.tasks == s.tasks[k := t] && s'.nextTask == s.nextTask
    requires s'.heartbeatBusy == s.heartbeatBusy && s'.deliveryBusy == s.deliveryBusy && s'.reRegister == s.reRegister
    ensures SingleFlight(s') && WaitsAreSound(s')
  {
    MoveSingle(s.tasks, k, t, Heartbeats, s.heartbeatBusy);
    MoveSingle(s.tasks, k, t, Deliveries, s.deliveryBusy);
    MoveSingle(s.tasks, k, t, Loops, s.reRegister.Some?);
    MoveKeepsWaits(s, k, t, s');
  }

  lemma MoveKeepsWaits(s: Rt, k: nat, t: Task, s': Rt)
    requires SingleFlight(s) && WaitsAreSound(s) && k in s.tasks && KindOf(s.tasks[k]) == KindOf(t)
    requires AwaitedLoop(t).Some? ==> s.reRegister == AwaitedLoop(t)
    requires s'.tasks == s.tasks[k := t] && s'.nextTask == s.nextTask
    ensures WaitsAreSound(s')
  {
    assert forall j :: j in s'.tasks ==> j in s.tasks && KindOf(s'.tasks[j]) == KindOf(s.tasks[j]);
  }

  lemma JoinKeeps(s: Rt, k: nat, waits: nat -> Task)
    requires SingleFlight(s) && WaitsAreSound(s) && k in s.tasks && KindOf(s.tasks[k]) != Loops
    requires forall loop: nat :: KindOf(waits(loop)) == KindOf(s.tasks[k]) && AwaitedLoop(waits(loop)) == Some(loop)
    ensures SingleFlight(JoinLoop(s, k, waits)) && WaitsAreSound(JoinLoop(s, k, waits))
  {
    match s.reRegister
    case Some(loop) => MoveKeeps(s, k, waits(loop), JoinLoop(s, k, waits));
    case None =>
      var mid := Spawn(s, RegisterLoop(Calling(0))).(reRegister := Some(s.nextTask));
      SpawnKeeps(s, RegisterLoop(Calling(0)), mid);
      MoveKeeps(mid, k, waits(s.nextTask), JoinLoop(s, k, waits));
  }

  // ---------------------------------------------------------------- every step keeps the invariants

  lemma StartKeepsTasks(parse: Parser, s: Rt, a: Action)
    requires SingleFlight(s) && WaitsAreSound(s) && (a.Start? || a.Stop?)
    ensures SingleFlight(Apply(parse, s, a)) && WaitsAreSound(Apply(parse, s, a))
  {
    if a.Start? && !s.running {
      SpawnKeeps(s, StartRegister(Calling(0)), Apply(parse, s, a));
    }
  }

  lemma RegisteredKeepsTasks(parse: Parser, s: Rt, k: nat, l: Lease)
    requires SingleFlight(s) && WaitsAreSound(s) && Enabled(s, RegisterReturns(k, l))
    ensures SingleFlight(Apply(parse, s, RegisterReturns(k, l)))
    ensures WaitsAreSound(Apply(parse, s, RegisterReturns(k, l)))
  {
    var s' := Apply(parse, s, RegisterReturns(k, l));
    if s.tasks[k].StartRegister? {
      EndKeeps(s, k, s');
    } else {
      MoveKeeps(s, k, RegisterSettled, s');
    }
  }

  lemma RetryKeepsTasks(parse: Parser, s: Rt, a: Action)
    requires SingleFlight(s) && WaitsAreSound(s) && Enabled(s, a)
    requires a.RegisterFails? || a.RegisterWakes? || a.RegisterFinally?
    ensures SingleFlight(Apply(parse, s, a)) && WaitsAreSound(Apply(parse, s, a))
  {
    var s', k := Apply(parse, s, a), a.task;
    if k in s'.tasks {
      MoveKeeps(s, k, s'.tasks[k], s');
    } else {
      EndKeeps(s, k, s');
    }
  }

  predicate OfHeartbeat(a: Action) {
    a.HeartbeatFires? || a.HeartbeatReturns? || a.HeartbeatFails? || a.HeartbeatResumes?
  }

  lemma HeartbeatStepsKeepTasks(parse: Parser, s: Rt, a: Action)
    requires SingleFlight(s) && WaitsAreSound(s) && Enabled(s, a) && OfHeartbeat(a)
    ensures SingleFlight(Apply(parse, s, a)) && WaitsAreSound(Apply(parse, s, a))
  {
    var s' := Apply(parse, s, a);
    match a
    case HeartbeatFires => if s.running && !s.heartbeatBusy && HasAdapter(s) { SpawnKeeps(s, HeartbeatCall, s'); }
    case HeartbeatReturns(k, _) => EndKeeps(s, k, s');
    case HeartbeatFails(k, leaseInvalid) =>
      if leaseInvalid && s.running {
        JoinKeeps(s, k, (loop: nat) => HeartbeatWaits(loop));
      } else {
        EndKeeps(s, k, s');
      }
    case HeartbeatResumes(k, _) => EndKeeps(s, k, s');
    case _ =>
  }

  lemma DeliveryStepsKeepTasks(parse: Parser, s: Rt, a: Action)
    requires SingleFlight(s) && WaitsAreSound(s) && Enabled(s, a)
    requires a.DeliveryTick? || a.DeliveryFinally? || a.DeliveryFails? || a.DeliveryResumes?
    ensures SingleFlight(Apply(parse, s, a)) && WaitsAreSound(Apply(parse, s, a))
  {
    var s' := Apply(parse, s, a);
    match a
    case DeliveryTick(queueEmpty) =>
      if s.running && !s.deliveryBusy && HasAdapter(s) {
        SpawnKeeps(s, if queueEmpty then DeliveryEnding else DeliveryCall, s');
      }
    case DeliveryFinally(k) => EndKeeps(s, k, s');
    case DeliveryFails(k) =>
      if s.running { JoinKeeps(s, k, (loop: nat) => DeliveryWaits(loop)); } else { EndKeeps(s, k, s'); }
    case DeliveryResumes(k) => EndKeeps(s, k, s');
    case _ =>
  }

  lemma StepKeepsTasks(parse: Parser, s: Rt, a: Action)
    requires Inv(parse, s) && Enabled(s, a)
    ensures SingleFlight(Apply(parse, s, a)) && WaitsAreSound(Apply(parse, s, a))
  {
    match a
    case Start => StartKeepsTasks(parse, s, a);
    case Stop(_) => StartKeepsTasks(parse, s, a);
    case RegisterReturns(k, l) => RegisteredKeepsTasks(parse, s, k, l);
    case RegisterFails(_) => RetryKeepsTasks(parse, s, a);
    case RegisterWakes(_) => RetryKeepsTasks(parse, s, a);
    case RegisterFinally(_) => RetryKeepsTasks(parse, s, a);
    case HeartbeatFires => HeartbeatStepsKeepTasks(parse, s, a);
    case HeartbeatReturns(_, _) => HeartbeatStepsKeepTasks(parse, s, a);
    case HeartbeatFails(_, _) => HeartbeatStepsKeepTasks(parse, s, a);
    case HeartbeatResumes(_, _) => HeartbeatStepsKeepTasks(parse, s, a);
    case DeliveryTick(_) => DeliveryStepsKeepTasks(parse, s, a);
    case DeliveryFinally(_) => DeliveryStepsKeepTasks(parse, s, a);
    case DeliveryFails(_) => DeliveryStepsKeepTasks(parse, s, a);
    case DeliveryResumes(_) => DeliveryStepsKeepTasks(parse, s, a);
  }

  lemma HeartbeatKeepsTimers(parse: Parser, s: Rt, a: Action)
    requires Inv(parse, s) && Enabled(s, a) && OfHeartbeat(a)
    ensures TimersBounded(Apply(parse, s, a))
  {
    if !a.HeartbeatFires? {
      assert s.heartbeatBusy by { assert KindOf(s.tasks[a.task]) == Heartbeats; }
    }
  }

  lemma OthersKeepTimers(parse: Parser, s: Rt, a: Action)
    requires TimersBounded(s) && Enabled(s, a) && !OfHeartbeat(a)
    ensures TimersBounded(Apply(parse, s, a))
  {}

  lemma StepKeepsTimers(parse: Parser, s: Rt, a: Action)
    requires Inv(parse, s) && Enabled(s, a)
    ensures TimersBounded(Apply(parse, s, a))
  {
    if OfHeartbeat(a) {
      HeartbeatKeepsTimers(parse, s, a);
    } else {
      OthersKeepTimers(parse, s, a);
    }
  }

  lemma LeaseAgrees(parse: Parser, s: Rt, l: Lease)
    ensures IndexesAgree(parse, ApplyLease(parse, s, l))
  {
    ByDeviceIsLastWins(l.devices);
    RebuildAgrees(parse, ByDevice(l.devices));
  }

  predicate Leases(a: Action) { a.RegisterReturns? || a.HeartbeatReturns? }

  lemma OthersKeepLease(parse: Parser, s: Rt, a: Action)
    requires Enabled(s, a) && !Leases(a)
    ensures var s' := Apply(parse, s, a);
            && s'.registry == s.registry && s'.push == s.push && s'.lease == s.lease
            && s'.adapterId == s.adapterId && s'.batchLimit == s.batchLimit
  {}

  lemma StepKeepsIndexes(parse: Parser, s: Rt, a: Action)
    requires Inv(parse, s) && Enabled(s, a)
    ensures IndexesAgree(parse, Apply(parse, s, a))
  {
    if Leases(a) {
      LeaseAgrees(parse, s, a.lease);
    } else {
      OthersKeepLease(parse, s, a);
    }
  }

  lemma StepKeeps(parse: Parser, s: Rt, a: Action)
    requires Inv(parse, s) && Enabled(s, a)
    ensures Inv(parse, Apply(parse, s, a))
  {
    StepKeepsTasks(parse, s, a);
    StepKeepsTimers(parse, s, a);
    StepKeepsIndexes(parse, s, a);
  }

  lemma EarlierRun(parse: Parser, states: seq<Rt>, actions: seq<Action>)
    requires Run(parse, states, actions) && actions != []
    ensures Run(parse, states[..|actions|], actions[..|actions| - 1])
  {
    var states', actions' := states[..|actions|], actions[..|actions| - 1];
    forall i | 0 <= i < |actions'|
      ensures Enabled(states'[i], actions'[i]) && states'[i + 1] == Apply(parse, states'[i], actions'[i])
    {
      assert actions'[i] == actions[i] && states'[i] == states[i] && states'[i + 1] == states[i + 1];
    }
  }

  /** Main result, over all interleavings: single flight, sound waiting, bounded timer chains, and the
      registry and push indexes agreeing with the latest lease at every await point. */
  lemma {:induction false} RunsKeepInvariant(parse: Parser, states: seq<Rt>, actions: seq<Action>)
    requires Run(parse, states, actions)
    ensures forall i :: 0 <= i < |states| ==> Inv(parse, states[i])
  {
    if actions != [] {
      var n := |actions| - 1;
      EarlierRun(parse, states, actions);
      RunsKeepInvariant(parse, states[..n + 1], actions[..n]);
      assert forall i :: 0 <= i <= n ==> states[..n + 1][i] == states[i];
      StepKeeps(parse, states[n], actions[n]);
    }
  }

  // ---------------------------------------------------------------- one start

  /** How often the adapter was started. */
  function Starts(actions: seq<Action>): nat {
    if actions == [] then 0
    else Starts(actions[..|actions| - 1]) + if actions[|actions| - 1].Start? then 1 else 0
  }

  ghost function Starters(tasks: map<nat, Task>): set<nat> {
    set k | k in tasks && KindOf(tasks[k]) == Starter
  }

  /** No task of the later table is a start that the earlier one does not have. */
  ghost predicate NoNewStarter(tasks: map<nat, Task>, tasks': map<nat, Task>) {
    forall k :: k in tasks' && KindOf(tasks'[k]) == Starter ==> k in tasks && KindOf(tasks[k]) == Starter
  }

  lemma NoMoreStarters(tasks: map<nat, Task>, tasks': map<nat, Task>)
    requires NoNewStarter(tasks, tasks')
    ensures |Starters(tasks')| <= |Starters(tasks)|
  {
    SubsetCardinality(Starters(tasks'), Starters(tasks));
  }

  lemma StarterAdded(tasks: map<nat, Task>, id: nat, t: Task)
    requires id !in tasks
    ensures |Starters(tasks[id := t])| <= |Starters(tasks)| + 1
  {
    assert Starters(tasks[id := t]) <= Starters(tasks) + {id};
    SubsetCardinality(Starters(tasks[id := t]), Starters(tasks) + {id});
  }

  lemma StarterEnded(tasks: map<nat, Task>, id: nat)
    requires id in tasks && KindOf(tasks[id]) == Starter
    ensures |Starters(tasks - {id})| + 1 == |Starters(tasks)|
  {
    assert Starters(tasks - {id}) == Starters(tasks) - {id} && id in Starters(tasks);
  }

  lemma JoinAddsNoStarter(s: Rt, k: nat, waits: nat -> Task)
    requires k in s.tasks && forall loop: nat :: KindOf(waits(loop)) != Starter
    ensures NoNewStarter(s.tasks, JoinLoop(s, k, waits).tasks) && JoinLoop(s, k, waits).startsDone == s.startsDone
  {}

  lemma RegisterAddsNoStarter(parse: Parser, s: Rt, a: Action)
    requires Enabled(s, a) && (a.RegisterFails? || a.RegisterWakes? || a.RegisterFinally?)
    ensures NoNewStarter(s.tasks, Apply(parse, s, a).tasks) && Apply(parse, s, a).startsDone == s.startsDone
  {}

  lemma HeartbeatAddsNoStarter(parse: Parser, s: Rt, a: Action)
    requires Enabled(s, a) && OfHeartbeat(a)
    ensures NoNewStarter(s.tasks, Apply(parse, s, a).tasks) && Apply(parse, s, a).startsDone == s.startsDone
  {
    if a.HeartbeatFails? {
      JoinAddsNoStarter(s, a.task, (loop: nat) => HeartbeatWaits(loop));
    }
  }

  lemma DeliveryAddsNoStarter(parse: Parser, s: Rt, a: Action)
    requires Enabled(s, a) && (a.DeliveryTick? || a.DeliveryFinally? || a.DeliveryFails? || a.DeliveryResumes?)
    ensures NoNewStarter(s.tasks, Apply(parse, s, a).tasks) && Apply(parse, s, a).startsDone == s.startsDone
  {
    if a.DeliveryFails? {
      JoinAddsNoStarter(s, a.task, (loop: nat) => DeliveryWaits(loop));
    }
  }

  lemma RegisteredCountsStart(parse: Parser, s: Rt, k: nat, l: Lease)
    requires Enabled(s, RegisterReturns(k, l))
    ensures var s' := Apply(parse, s, RegisterReturns(k, l));
            s'.startsDone + |Starters(s'.tasks)| <= s.startsDone + |Starters(s.tasks)|
  {
    if s.tasks[k].StartRegister? {
      StarterEnded(s.tasks, k);
    } else {
      NoMoreStarters(s.tasks, s.tasks[k := RegisterSettled]);
    }
  }

  /** Every start is under way in at most one task or is done at most once. */
  lemma StepCountsStarts(parse: Parser, s: Rt, a: Action)
    requires WaitsAreSound(s) && Enabled(s, a)
    ensures var s' := Apply(parse, s, a);
            s'.startsDone + |Starters(s'.tasks)| <= s.startsDone + |Starters(s.tasks)| + if a.Start? then 1 else 0
  {
    match a
    case Start => StarterAdded(s.tasks, s.nextTask, StartRegister(Calling(0)));
    case Stop(_) =>
    case RegisterReturns(k, l) => RegisteredCountsStart(parse, s, k, l);
    case _ =>
      if a.RegisterFails? || a.RegisterWakes? || a.RegisterFinally? {
        RegisterAddsNoStarter(parse, s, a);
      } else if OfHeartbeat(a) {
        HeartbeatAddsNoStarter(parse, s, a);
      } else {
        DeliveryAddsNoStarter(parse, s, a);
      }
      NoMoreStarters(s.tasks, Apply(parse, s, a).tasks);
  }

  lemma {:induction false} StartsAreCounted(parse: Parser, states: seq<Rt>, actions: seq<Action>)
    requires Run(parse, states, actions)
    ensures states[|actions|].startsDone + |Starters(states[|actions|].tasks)| <= Starts(actions)
  {
    if actions == [] {
      assert Starters(states[0].tasks) == {};
    } else {
      var n := |actions| - 1;
      EarlierRun(parse, states, actions);
      StartsAreCounted(parse, states[..n + 1], actions[..n]);
      RunsKeepInvariant(parse, states, actions);
      StepCountsStarts(parse, states[n], actions[n]);
    }
  }

  /** No action but one is a start. */
  ghost predicate OneStart(actions: seq<Action>) {
    forall i, j :: 0 <= i < j < |actions| ==> !(actions[i].Start? && actions[j].Start?)
  }

  lemma {:induction false} OneStartIsCounted(actions: seq<Action>)
    requires OneStart(actions)
    ensures Starts(actions) <= 1
    ensures (forall i :: 0 <= i < |actions| ==> !actions[i].Start?) ==> Starts(actions) == 0
  {
    if actions != [] {
      var init := actions[..|actions| - 1];
      assert forall i :: 0 <= i < |init| ==> init[i] == actions[i];
      OneStartIsCounted(init);
    }
  }

  /** In every run with a single start the heartbeat's own busy guard is never taken: a timer cannot fire
      while a heartbeat is under way. With several starts it can, and the flag is what keeps them apart. */
  lemma OneStartNeverOverlaps(parse: Parser, states: seq<Rt>, actions: seq<Action>)
    requires Run(parse, states, actions) && OneStart(actions)
    ensures forall i :: 0 <= i < |states| && states[i].heartbeatTimers > 0 ==> !states[i].heartbeatBusy
  {
    OneStartIsCounted(actions);
    RunsKeepInvariant(parse, states, actions);
    forall i | 0 <= i < |states| ensures states[i].startsDone <= 1 {
      StartsDoneAt(parse, states, actions, i);
    }
    assert forall i :: 0 <= i < |states| ==> TimersBounded(states[i]);
  }

  lemma {:induction false} StartsDoneAt(parse: Parser, states: seq<Rt>, actions: seq<Action>, i: nat)
    requires Run(parse, states, actions) && i < |states|
    ensures states[i].startsDone <= Starts(actions)
    decreases |actions|
  {
    if i == |actions| {
      StartsAreCounted(parse, states, actions);
    } else {
      EarlierRun(parse, states, actions);
      StartsDoneAt(parse, states[..|actions|], actions[..|actions| - 1], i);
    }
  }

  // ---------------------------------------------------------------- no task waits forever on a dead promise

  /** A step taken by the task, or by the re-register loop it waits for. */
  ghost predicate Serves(s: Rt, a: Action, k: nat)
    requires k in s.tasks
  {
    var worker := if AwaitedLoop(s.tasks[k]).Some? && AwaitedLoop(s.tasks[k]).value in s.tasks
                  then AwaitedLoop(s.tasks[k]).value else k;
    match a
    case RegisterReturns(j, _) => j == worker
    case RegisterFails(j) => j == worker
    case RegisterWakes(j) => j == worker
    case RegisterFinally(j) => j == worker
    case HeartbeatReturns(j, _) => j == worker
    case HeartbeatFails(j, _) => j == worker
    case HeartbeatResumes(j, _) => j == worker
    case DeliveryFinally(j) => j == worker
    case DeliveryFails(j) => j == worker
    case DeliveryResumes(j) => j == worker
    case _ => false
  }

  /** Every task, in particular every holder of a busy flag, has an enabled step of its own or of the
      loop it waits for; the flags cannot stay set without work in progress. */
  lemma NoTaskIsStuck(parse: Parser, s: Rt, k: nat)
    requires Inv(parse, s) && k in s.tasks
    ensures exists a :: Serves(s, a, k) && Enabled(s, a)
  {
    var awaited := AwaitedLoop(s.tasks[k]);
    var worker := if awaited.Some? && awaited.value in s.tasks then awaited.value else k;
    assert awaited.Some? && awaited.value in s.tasks ==> AwaitedLoop(s.tasks[worker]).None?;
    var a := match s.tasks[worker]
      case StartRegister(at) => if at.Calling? then RegisterFails(worker) else RegisterWakes(worker)
      case RegisterLoop(at) => if at.Calling? then RegisterFails(worker) else RegisterWakes(worker)
      case RegisterSettled => RegisterFinally(worker)
      case HeartbeatCall => HeartbeatFails(worker, false)
      case HeartbeatWaits(_) => HeartbeatResumes(worker, false)
      case DeliveryCall => DeliveryFinally(worker)
      case DeliveryEnding => DeliveryFinally(worker)
      case DeliveryWaits(_) => DeliveryResumes(worker);
    assert Serves(s, a, k) && Enabled(s, a);
  }

  // ---------------------------------------------------------------- retry back-off

  function Doubled(n: nat): nat { if n == 0 then 1 else 2 * Doubled(n - 1) }

  /** Sleep after the given number of failed register attempts. */
  function RetryDelayMs(failures: nat): nat
    requires failures > 0
  {
    Min(1000 * Doubled(Min(failures - 1, 8)), 30000)
  }

  /** The pause doubles from one second until it reaches thirty, and stays there. */
  lemma RetryDelayDoublesToCap(failures: nat)
    requires failures > 0
    ensures failures <= 5 ==> RetryDelayMs(failures + 1) == Min(2 * RetryDelayMs(failures), 30000)
    ensures failures >= 6 <==> RetryDelayMs(failures) == 30000
    ensures RetryDelayMs(1) == 1000
  {
    assert Doubled(1) == 2 && Doubled(2) == 4 && Doubled(3) == 8;
    assert Doubled(4) == 16 && Doubled(5) == 32;
    assert Doubled(6) == 64 && Doubled(7) == 128 && Doubled(8) == 256;
  }
}
