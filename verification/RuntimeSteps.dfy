/** What the steps of the adapter's coroutines lead to, and that its heartbeats go on
    (src/app/adapter-runtime.ts, src/app/runtime-lease.ts). */
module RuntimeSteps {
  import opened Common
  import opened Registry
  import opened PushAuth
  import opened Runtime

  // ---------------------------------------------------------------- heartbeats go on

  /** No stop so far, and no heartbeat was told that its re-registration was given up. */
  ghost predicate Undisturbed(actions: seq<Action>) {
    forall i :: 0 <= i < |actions| ==> !Disturbs(actions[i])
  }

  predicate Disturbs(a: Action) { a.Stop? || (a.HeartbeatResumes? && a.rejected) }

  /** A start that is done has one heartbeat timer pending or one heartbeat under way. */
  ghost predicate TimerOrHeartbeat(s: Rt) {
    s.startsDone <= 1 && s.heartbeatTimers + (if s.heartbeatBusy then 1 else 0) == s.startsDone
  }

  /** Before the start nothing is under way; then the start is, or is done. */
  ghost predicate HeartbeatAlive(s: Rt) {
    && (!s.running ==> s.tasks == map[] && s.startsDone == 0)
    && Single(s.tasks, Starter, s.running && s.startsDone == 0) && TimerOrHeartbeat(s)
  }

  lemma StartKeepsAlive(parse: Parser, s: Rt)
    requires Inv(parse, s) && HeartbeatAlive(s)
    ensures HeartbeatAlive(Apply(parse, s, Start))
  {
    if !s.running {
      SpawnSingle(s.tasks, s.nextTask, StartRegister(Calling(0)), Starter, false);
    }
  }

  lemma RegisterKeepsAlive(parse: Parser, s: Rt, a: Action)
    requires Inv(parse, s) && HeartbeatAlive(s) && Enabled(s, a)
    requires a.RegisterReturns? || a.RegisterFails? || a.RegisterWakes? || a.RegisterFinally?
    ensures HeartbeatAlive(Apply(parse, s, a))
  {
    var s', k := Apply(parse, s, a), a.task;
    assert s.running;
    if k in s'.tasks {
      MoveSingle(s.tasks, k, s'.tasks[k], Starter, s.running && s.startsDone == 0);
    } else {
      EndSingle(s.tasks, k, Starter, s.running && s.startsDone == 0);
    }
  }

  lemma JoinKeepsStarter(s: Rt, k: nat, waits: nat -> Task)
    requires WaitsAreSound(s) && Single(s.tasks, Starter, s.running && s.startsDone == 0)
    requires k in s.tasks && KindOf(s.tasks[k]) != Starter
    requires forall loop: nat :: KindOf(waits(loop)) == KindOf(s.tasks[k])
    ensures Single(JoinLoop(s, k, waits).tasks, Starter, s.running && s.startsDone == 0)
  {
    match s.reRegister
    case Some(loop) => MoveSingle(s.tasks, k, waits(loop), Starter, s.running && s.startsDone == 0);
    case None =>
      SpawnSingle(s.tasks, s.nextTask, RegisterLoop(Calling(0)), Starter, s.running && s.startsDone == 0);
      var tasks := s.tasks[s.nextTask := RegisterLoop(Calling(0))];
      MoveSingle(tasks, k, waits(s.nextTask), Starter, s.running && s.startsDone == 0);
  }

  lemma HeartbeatStepKeepsAlive(parse: Parser, s: Rt, a: Action)
    requires Inv(parse, s) && HeartbeatAlive(s) && Enabled(s, a) && OfHeartbeat(a) && !Disturbs(a)
    ensures HeartbeatAlive(Apply(parse, s, a))
  {
    var flag := s.running && s.startsDone == 0;
    assert s.running;
    match a
    case HeartbeatFires => SpawnSingle(s.tasks, s.nextTask, HeartbeatCall, Starter, flag);
    case HeartbeatFails(k, leaseInvalid) =>
      assert KindOf(s.tasks[k]) == Heartbeats;
      if leaseInvalid {
        JoinKeepsStarter(s, k, (loop: nat) => HeartbeatWaits(loop));
      } else {
        EndSingle(s.tasks, k, Starter, flag);
      }
    case HeartbeatReturns(k, _) =>
      assert KindOf(s.tasks[k]) == Heartbeats;
      EndSingle(s.tasks, k, Starter, flag);
    case HeartbeatResumes(k, _) =>
      assert KindOf(s.tasks[k]) == Heartbeats;
      EndSingle(s.tasks, k, Starter, flag);
    case _ =>
  }

  lemma DeliveryStepKeepsAlive(parse: Parser, s: Rt, a: Action)
    requires Inv(parse, s) && HeartbeatAlive(s) && Enabled(s, a)
    requires a.DeliveryTick? || a.DeliveryFinally? || a.DeliveryFails? || a.DeliveryResumes?
    ensures HeartbeatAlive(Apply(parse, s, a))
  {
    var flag := s.running && s.startsDone == 0;
    match a
    case DeliveryTick(queueEmpty) =>
      SpawnSingle(s.tasks, s.nextTask, if queueEmpty then DeliveryEnding else DeliveryCall, Starter, flag);
    case DeliveryFails(k) =>
      if s.running {
        JoinKeepsStarter(s, k, (loop: nat) => DeliveryWaits(loop));
      }
    case DeliveryFinally(k) => EndSingle(s.tasks, k, Starter, flag);
    case DeliveryResumes(k) => EndSingle(s.tasks, k, Starter, flag);
    case _ =>
  }

  lemma StepKeepsAlive(parse: Parser, s: Rt, a: Action)
    requires Inv(parse, s) && HeartbeatAlive(s) && Enabled(s, a) && !Disturbs(a)
    ensures HeartbeatAlive(Apply(parse, s, a))
  {
    if a.Start? {
      StartKeepsAlive(parse, s);
    } else if OfHeartbeat(a) {
      HeartbeatStepKeepsAlive(parse, s, a);
    } else if a.DeliveryTick? || a.DeliveryFinally? || a.DeliveryFails? || a.DeliveryResumes? {
      DeliveryStepKeepsAlive(parse, s, a);
    } else {
      RegisterKeepsAlive(parse, s, a);
    }
  }

  lemma KeptAt(parse: Parser, states: seq<Rt>, actions: seq<Action>, i: nat)
    requires Run(parse, states, actions) && i < |states|
    ensures Inv(parse, states[i])
  {
    RunsKeepInvariant(parse, states, actions);
  }

  /** Main result, over every run without a stop and without a re-registration given up: once the start is done there
      is always one heartbeat timer pending or one heartbeat under way. */
  lemma {:induction false} HeartbeatsGoOn(parse: Parser, states: seq<Rt>, actions: seq<Action>)
    requires Run(parse, states, actions) && Undisturbed(actions)
    ensures HeartbeatAlive(states[|actions|])
    ensures forall i :: 0 <= i < |states| ==> TimerOrHeartbeat(states[i])
  {
    if actions != [] {
      var n := |actions| - 1;
      EarlierRun(parse, states, actions);
      HeartbeatsGoOn(parse, states[..n + 1], actions[..n]);
      KeptAt(parse, states, actions, n);
      assert forall i :: 0 <= i <= n ==> states[..n + 1][i] == states[i];
      StepKeepsAlive(parse, states[n], actions[n]);
    }
  }

  /** What a failed heartbeat leads to: an invalid lease, while running, to waiting for the live re-register loop,
      which is started unless there is one; any other failure to a pending timer. */
  lemma FailedHeartbeatLeadsOn(parse: Parser, s: Rt, k: nat, leaseInvalid: bool)
    requires Inv(parse, s) && Enabled(s, HeartbeatFails(k, leaseInvalid))
    ensures var s' := Apply(parse, s, HeartbeatFails(k, leaseInvalid));
            if leaseInvalid && s.running then
              && k in s'.tasks && s'.tasks[k].HeartbeatWaits? && s'.heartbeatTimers == s.heartbeatTimers
              && var loop := s'.tasks[k].loop;
                 && s'.reRegister == Some(loop) && loop in s'.tasks
                 && if s.reRegister.Some? then loop == s.reRegister.value && s'.tasks[loop] == s.tasks[loop]
                    else s'.tasks[loop] == RegisterLoop(Calling(0))
            else k !in s'.tasks && !s'.heartbeatBusy && s'.heartbeatTimers == s.heartbeatTimers + 1
  {
    assert KindOf(s.tasks[k]) == Heartbeats;
  }

  /** The same for a delivery whose lease is invalid. */
  lemma FailedDeliveryLeadsOn(parse: Parser, s: Rt, k: nat)
    requires Inv(parse, s) && Enabled(s, DeliveryFails(k))
    ensures var s' := Apply(parse, s, DeliveryFails(k));
            if s.running then
              && k in s'.tasks && s'.tasks[k].DeliveryWaits? && s'.deliveryBusy
              && var loop := s'.tasks[k].loop;
                 && s'.reRegister == Some(loop) && loop in s'.tasks
                 && if s.reRegister.Some? then loop == s.reRegister.value && s'.tasks[loop] == s.tasks[loop]
                    else s'.tasks[loop] == RegisterLoop(Calling(0))
            else k !in s'.tasks && !s'.deliveryBusy
  {
    assert KindOf(s.tasks[k]) == Deliveries;
  }

  // ---------------------------------------------------------------- calls

  /** A tick starts a delivery exactly while running, with an adapter id, and with none under way; otherwise nothing
      happens. A delivery that finds nothing pending makes no call. */
  lemma DeliveryStartsExactly(parse: Parser, s: Rt, queueEmpty: bool)
    requires Inv(parse, s)
    ensures var s' := Apply(parse, s, DeliveryTick(queueEmpty));
            if s.running && !s.deliveryBusy && s.adapterId.Some? && s.adapterId.value != "" then
              && s'.deliveryBusy && s.nextTask !in s.tasks
              && s'.tasks == s.tasks[s.nextTask := if queueEmpty then DeliveryEnding else DeliveryCall]
            else s' == s
  {}

  /** A timer that fires starts a heartbeat exactly while running, with an adapter id, and with none under way; it is
      armed again when one of the last two is missing, and gone after a stop. */
  lemma HeartbeatStartsExactly(parse: Parser, s: Rt)
    requires Inv(parse, s) && s.heartbeatTimers > 0
    ensures var s' := Apply(parse, s, HeartbeatFires);
            && (s'.tasks != s.tasks <==>
                s.running && !s.heartbeatBusy && s.adapterId.Some? && s.adapterId.value != "")
            && (s'.tasks != s.tasks ==>
                  s'.heartbeatBusy && s.nextTask !in s.tasks && s'.tasks == s.tasks[s.nextTask := HeartbeatCall])
            && (s.running && s'.tasks == s.tasks ==> s'.heartbeatTimers == s.heartbeatTimers)
            && ((!s.running || s'.tasks != s.tasks) ==> s'.heartbeatTimers == s.heartbeatTimers - 1)
  {
    assert s.nextTask !in s.tasks;
  }

  // ---------------------------------------------------------------- waiting for the re-register loop

  /** A waiting task goes on exactly when the loop it waits for is over. */
  lemma WaitsForLoopExactly(s: Rt, k: nat, rejected: bool)
    requires k in s.tasks && AwaitedLoop(s.tasks[k]).Some?
    ensures (Enabled(s, HeartbeatResumes(k, rejected)) || Enabled(s, DeliveryResumes(k))) <==>
            AwaitedLoop(s.tasks[k]).value !in s.tasks
  {}

  /** Afterwards it is gone and its flag is clear; a heartbeat whose loop was given up arms no timer. */
  lemma WaitingEnds(parse: Parser, s: Rt, k: nat, rejected: bool)
    requires k in s.tasks
    ensures Enabled(s, HeartbeatResumes(k, rejected)) ==>
              var s' := Apply(parse, s, HeartbeatResumes(k, rejected));
              && s'.tasks == s.tasks - {k} && !s'.heartbeatBusy
              && s'.heartbeatTimers == s.heartbeatTimers + if rejected then 0 else 1
    ensures Enabled(s, DeliveryResumes(k)) ==>
              var s' := Apply(parse, s, DeliveryResumes(k)); s'.tasks == s.tasks - {k} && !s'.deliveryBusy
  {}

  // ---------------------------------------------------------------- start and stop

  /** A start while running does nothing; otherwise it runs and registers. A stop clears at most one pending timer and
      leaves every task where it is. */
  lemma StartAndStop(parse: Parser, s: Rt, clearsTimer: bool)
    requires Inv(parse, s)
    ensures var s' := Apply(parse, s, Start);
            && s'.running && (s.running ==> s' == s)
            && (!s.running ==> s.nextTask !in s.tasks && s'.tasks == s.tasks[s.nextTask := StartRegister(Calling(0))])
    ensures var s' := Apply(parse, s, Stop(clearsTimer));
            && !s'.running && s'.tasks == s.tasks && s'.heartbeatBusy == s.heartbeatBusy
            && s'.deliveryBusy == s.deliveryBusy && s'.reRegister == s.reRegister
            && s'.heartbeatTimers == Max(0, s.heartbeatTimers - if s.running && clearsTimer then 1 else 0)
  {}

  // ---------------------------------------------------------------- registration

  /** A reply with a lease replaces adapter id, batch limit, registry and push indexes by those of that lease. */
  lemma LeaseIsTaken(parse: Parser, s: Rt, a: Action)
    requires Enabled(s, a) && (a.RegisterReturns? || a.HeartbeatReturns?)
    ensures var s', l := Apply(parse, s, a), a.lease;
            && s'.adapterId == Some(l.adapterId) && s'.batchLimit == l.batchLimit
            && s'.registry == ByDevice(l.devices) && AgreesWith(parse, s'.push, s'.registry)
  {
    LeaseAgrees(parse, s, a.lease);
  }

  /** A failed attempt is followed by the pause for one failure more; after the pause, while running, by the next
      attempt, and otherwise by the end of the start or of the loop. */
  lemma AttemptsAlternate(parse: Parser, s: Rt, k: nat, n: nat)
    requires Registering(s, k)
    ensures forall l :: Enabled(s, RegisterReturns(k, l)) <==> s.tasks[k].at.Calling?
    ensures s.tasks[k].at == Calling(n) ==>
              && Enabled(s, RegisterFails(k)) && !Enabled(s, RegisterWakes(k))
              && var s' := Apply(parse, s, RegisterFails(k));
                 s'.tasks == s.tasks[k := s.tasks[k].(at := Sleeping(n + 1))]
    ensures s.tasks[k].at == Sleeping(n) ==>
              && Enabled(s, RegisterWakes(k)) && !Enabled(s, RegisterFails(k))
              && var s' := Apply(parse, s, RegisterWakes(k));
                 if s.running then s'.tasks == s.tasks[k := s.tasks[k].(at := Calling(n))]
                 else if s.tasks[k].StartRegister? then s'.tasks == s.tasks - {k}
                 else s'.tasks == s.tasks[k := RegisterSettled]
  {}

  /** Every pause in a run comes after a failure, so the delays start at one second. */
  ghost predicate PausesCount(s: Rt) {
    forall k :: Registering(s, k) && s.tasks[k].at.Sleeping? ==> s.tasks[k].at.failures > 0
  }

  predicate OfRegistration(a: Action) {
    a.RegisterReturns? || a.RegisterFails? || a.RegisterWakes? || a.RegisterFinally?
  }

  lemma RegistrationKeepsPauses(parse: Parser, s: Rt, a: Action)
    requires PausesCount(s) && Enabled(s, a) && OfRegistration(a)
    ensures PausesCount(Apply(parse, s, a))
  {
    var s' := Apply(parse, s, a);
    forall k | Registering(s', k) && s'.tasks[k].at.Sleeping? ensures s'.tasks[k].at.failures > 0 {
      assert k != a.task ==> Registering(s, k) && s.tasks[k] == s'.tasks[k];
    }
  }

  /** Other steps start no pause. */
  lemma OthersKeepPauses(parse: Parser, s: Rt, a: Action)
    requires PausesCount(s) && Enabled(s, a) && !OfRegistration(a)
    ensures PausesCount(Apply(parse, s, a))
  {
    var s' := Apply(parse, s, a);
    forall k | Registering(s', k) && s'.tasks[k].at.Sleeping? ensures Registering(s, k) && s.tasks[k] == s'.tasks[k] {}
  }

  lemma StepKeepsPauses(parse: Parser, s: Rt, a: Action)
    requires PausesCount(s) && Enabled(s, a)
    ensures PausesCount(Apply(parse, s, a))
  {
    if OfRegistration(a) {
      RegistrationKeepsPauses(parse, s, a);
    } else {
      OthersKeepPauses(parse, s, a);
    }
  }

  lemma {:induction false} PausesComeAfterFailures(parse: Parser, states: seq<Rt>, actions: seq<Action>)
    requires Run(parse, states, actions)
    ensures PausesCount(states[|actions|])
  {
    if actions != [] {
      EarlierRun(parse, states, actions);
      PausesComeAfterFailures(parse, states[..|actions|], actions[..|actions| - 1]);
      StepKeepsPauses(parse, states[|actions| - 1], actions[|actions| - 1]);
    }
  }
}
