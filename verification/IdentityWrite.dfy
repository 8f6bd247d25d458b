/** The write service as it runs against the devices (src/domain/identity-write/identity-write-service.ts). */
module IdentityWrite {
  import opened Common
  import opened Text
  import opened Registry
  import opened BulkCreate

  type Devices = map<string, Device>

  const NEW_DEVICE := Device({}, {}, [], 0)

  function At(devices: Devices, id: string): Device { if id in devices then devices[id] else NEW_DEVICE }

  /** The devices behind the clients. */
  class Fleet {
    const fates: Fates
    var devices: Devices

    constructor (fates: Fates, devices: Devices)
      ensures this.fates == fates && this.devices == devices
    {
      this.fates, this.devices := fates, devices;
    }

    /** Reaching a device for the first time makes it known. */
    method Connect(id: string)
      modifies this
      ensures devices == old(devices)[id := At(old(devices), id)]
    {
      devices := devices[id := At(devices, id)];
    }

    method Submit(id: string, w: Write) returns (ok: bool)
      modifies this
      ensures ok <==> FateOf(fates, id, At(old(devices), id)) == Accepted
      ensures devices == old(devices)[id := Sent(fates, id, At(old(devices), id), w)]
    {
      var d := At(devices, id);
      ok := FateOf(fates, id, d) == Accepted;
      devices := devices[id := Sent(fates, id, d, w)];
    }

    /** Whether the user is present; None when the lookup fails. */
    method FindUser(id: string, userId: string) returns (found: Option<bool>)
      modifies this
      ensures var d := At(old(devices), id);
              found == if FateOf(fates, id, d) == Accepted then Some(userId in d.users) else None
      ensures devices == old(devices)[id := Asked(At(old(devices), id))]
    {
      var d := At(devices, id);
      found := if FateOf(fates, id, d) == Accepted then Some(userId in d.users) else None;
      devices := devices[id := Asked(d)];
    }

    method FindFace(id: string, userId: string) returns (found: Option<bool>)
      modifies this
      ensures var d := At(old(devices), id);
              found == if FateOf(fates, id, d) == Accepted then Some(userId in d.faces) else None
      ensures devices == old(devices)[id := Asked(At(old(devices), id))]
    {
      var d := At(devices, id);
      found := if FateOf(fates, id, d) == Accepted then Some(userId in d.faces) else None;
      devices := devices[id := Asked(d)];
    }
  }

  /** The result object the write steps fill in. */
  class WriteResult {
    const deviceId: string
    const userId: string
    var status: Status
    var steps: Steps
    var code: Option<Code>

    constructor (deviceId: string, userId: string)
      ensures View() == NewReport(deviceId, userId)
    {
      this.deviceId, this.userId := deviceId, userId;
      status, steps, code := Success, SKIPPED_STEPS, None;
    }

    function View(): Report
      reads this
    {
      Report(userId, deviceId, status, steps, code)
    }

    method MarkSuccess(step: Step)
      modifies this
      ensures StatusOf(steps, step) == Success && status == old(status) && code == old(code)
      ensures forall other :: other != step ==> StatusOf(steps, other) == StatusOf(old(steps), other)
      ensures View() == Succeeded(old(View()), step)
    {
      steps := WithStep(steps, step, Success);
    }

    /** `markFailure`. */
    method MarkFailure(step: Step)
      modifies this
      ensures status == Failed && code == Some(WriteFailed) && StatusOf(steps, step) == Failed
      ensures forall other :: other != step ==> StatusOf(steps, other) == StatusOf(old(steps), other)
      ensures View() == Marked(old(View()), step)
    {
      steps := WithStep(steps, step, Failed);
      status, code := Failed, Some(WriteFailed);
    }
  }

  /** State of a device and of the result for one person. */
  ghost function Now(fleet: Fleet, id: string, result: WriteResult): Done
    reads fleet, result
  {
    Done(At(fleet.devices, id), result.View())
  }

  class IdentityWriteService {
    const assignments: AssignmentRegistry
    const fleet: Fleet

    constructor (assignments: AssignmentRegistry, fleet: Fleet)
      ensures this.assignments == assignments && this.fleet == fleet
    {
      this.assignments, this.fleet := assignments, fleet;
    }

    method TryWrite(id: string, result: WriteResult, w: Write, step: Step) returns (ok: bool)
      modifies fleet, result
      ensures ok <==> FateOf(fleet.fates, id, At(old(fleet.devices), id)) == Accepted
      ensures Now(fleet, id, result) == OneStep(fleet.fates, id, old(Now(fleet, id, result)), w, step)
      ensures fleet.devices == old(fleet.devices)[id := At(fleet.devices, id)]
    {
      ok := fleet.Submit(id, w);
      if ok {
        result.MarkSuccess(step);
      } else {
        result.MarkFailure(step);
      }
    }

    /** `applyWrite`; a failure of the user step is recorded by every caller, here at once. */
    method ApplyWrite(op: Operation, id: string, result: WriteResult, p: Person)
      modifies fleet, result
      ensures Now(fleet, id, result) == WritePerson(fleet.fates, id, op, old(Now(fleet, id, result)), p)
      ensures fleet.devices == old(fleet.devices)[id := At(fleet.devices, id)]
    {
      var ok := TryWrite(id, result, ToUserWrite(op, p), UserStep);
      if !ok {
        return;
      }
      if p.card.Some? {
        var done := TryWrite(id, result, ToCardWrite(op, p), CardStep);
      }
      if p.face.Some? {
        WriteFace(op, id, result, p);
      }
    }

    method WriteFace(op: Operation, id: string, result: WriteResult, p: Person)
      requires p.face.Some?
      modifies fleet, result
      ensures Now(fleet, id, result) == FacePhase(fleet.fates, id, op, old(Now(fleet, id, result)), p)
      ensures fleet.devices == old(fleet.devices)[id := At(fleet.devices, id)]
    {
      if op == Create {
        var done := TryWrite(id, result, ToFaceWrite(Create, p), FaceStep);
      } else {
        UpsertAccessFace(id, result, p);
      }
    }

    method UpsertAccessFace(id: string, result: WriteResult, p: Person)
      requires p.face.Some?
      modifies fleet, result
      ensures Now(fleet, id, result) == FacePhase(fleet.fates, id, Update, old(Now(fleet, id, result)), p)
      ensures fleet.devices == old(fleet.devices)[id := At(fleet.devices, id)]
    {
      var hasFace := fleet.FindFace(id, p.userId);
      if hasFace.None? {
        result.MarkFailure(FaceStep);
        return;
      }
      var done := TryWrite(id, result, ToFaceWrite(if hasFace.value then Update else Create, p), FaceStep);
    }

    method BulkCreateForPerson(id: string, p: Person) returns (report: Report)
      modifies fleet
      ensures Done(At(fleet.devices, id), report) == CreatePerson(fleet.fates, id, At(old(fleet.devices), id), p)
      ensures fleet.devices == old(fleet.devices)[id := At(fleet.devices, id)]
    {
      var result := new WriteResult(id, p.userId);
      var exists' := fleet.FindUser(id, p.userId);
      if exists'.None? {
        result.MarkFailure(UserStep);
        return result.View();
      }
      if exists'.value {
        return Existing(id, p.userId);
      }
      ApplyWrite(Create, id, result, p);
      report := result.View();
    }

    method BulkCreateToAssignment(id: string, ps: seq<Person>, connects: string -> bool)
      returns (reports: Option<seq<Report>>)
      modifies fleet
      ensures id !in assignments.assignments.at ==>
                fleet.devices == old(fleet.devices) && reports == Some(MissingReports(id, ps))
      ensures id in assignments.assignments.at && !connects(id) ==>
                fleet.devices == old(fleet.devices) && reports == None
      ensures id in assignments.assignments.at && connects(id) ==>
                var done := CreateAll(fleet.fates, id, At(old(fleet.devices), id), ps);
                reports == Some(done.reports) && fleet.devices == old(fleet.devices)[id := done.device]
    {
      if assignments.assignments.Get(id).None? {
        return Some(MissingReports(id, ps));
      }
      if !connects(id) {
        return None;
      }
      var out: seq<Report> := [];
      ghost var before := fleet.devices;
      fleet.Connect(id);
      for i := 0 to |ps|
        invariant AllDone(At(fleet.devices, id), out) == CreateAll(fleet.fates, id, At(before, id), ps[..i])
        invariant fleet.devices == before[id := At(fleet.devices, id)]
      {
        assert ps[..i + 1][..i] == ps[..i];
        var report := BulkCreateForPerson(id, ps[i]);
        out := out + [report];
      }
      assert ps[..|ps|] == ps;
      reports := Some(out);
    }

    /** `bulkCreate`; a device that cannot be reached ends the whole call, whatever was written before. */
    method BulkCreate(target: Target, ps: seq<Person>, connects: string -> bool)
      returns (r: Result<seq<Report>, WriteError>)
      modifies fleet
      ensures !ValidPersons(ps) ==> r == Err(Invalid) && fleet.devices == old(fleet.devices)
      ensures ValidPersons(ps) && NotTargeted(assignments.assignments, target) ==>
                r == Err(NotAssigned) && fleet.devices == old(fleet.devices)
      ensures ValidPersons(ps) && !NotTargeted(assignments.assignments, target) ==>
                var found := Found(assignments.assignments, target);
                Outcome(OnDevices(fleet.fates, connects, old(fleet.devices), found, ps),
                        Missing(assignments.assignments, target), ps, fleet.devices, r)
    {
      if !ValidPersons(ps) {
        return Err(Invalid);
      }
      if NotTargeted(assignments.assignments, target) {
        return Err(NotAssigned);
      }
      FoundAreAssigned(assignments.assignments, target);
      var found, missing := Found(assignments.assignments, target), Missing(assignments.assignments, target);
      r := CreateOnTargets(found, missing, ps, connects);
    }

    method CreateOnTargets(ids: seq<string>, missing: seq<string>, ps: seq<Person>, connects: string -> bool)
      returns (r: Result<seq<Report>, WriteError>)
      requires forall i :: 0 <= i < |ids| ==> ids[i] in assignments.assignments.at
      modifies fleet
      ensures Outcome(OnDevices(fleet.fates, connects, old(fleet.devices), ids, ps), missing, ps, fleet.devices, r)
    {
      var results, aborted := CreateOnDevices(ids, ps, connects);
      if aborted {
        return Err(Unreachable);
      }
      var absent := ReportMissing(missing, ps);
      r := Ok(results + absent);
    }

    method ReportMissing(missing: seq<string>, ps: seq<Person>) returns (reports: seq<Report>)
      ensures reports == AllMissing(missing, ps)
    {
      reports := [];
      for i := 0 to |missing|
        invariant reports == AllMissing(missing[..i], ps)
      {
        assert missing[..i + 1][..i] == missing[..i];
        reports := reports + MissingReports(missing[i], ps);
      }
      assert missing[..|missing|] == missing;
    }

    /** The loop over the devices found. */
    method CreateOnDevices(ids: seq<string>, ps: seq<Person>, connects: string -> bool)
      returns (results: seq<Report>, aborted: bool)
      requires forall i :: 0 <= i < |ids| ==> ids[i] in assignments.assignments.at
      modifies fleet
      ensures OnDevices(fleet.fates, connects, old(fleet.devices), ids, ps) == Run(fleet.devices, results, aborted)
    {
      results := [];
      for i := 0 to |ids|
        invariant OnDevices(fleet.fates, connects, old(fleet.devices), ids[..i], ps) ==
                  Run(fleet.devices, results, false)
      {
        assert ids[..i + 1][..i] == ids[..i];
        var some := BulkCreateToAssignment(ids[i], ps, connects);
        if some.None? {
          AbortStays(fleet.fates, connects, old(fleet.devices), ids, i + 1, ps);
          return results, true;
        }
        results := results + some.value;
      }
      assert ids[..|ids|] == ids;
      aborted := false;
    }
  }

  // ---------------------------------------------------------------- targets and whole runs

  datatype Target = AllAssigned | OneDevice(id: string) | Devices(ids: seq<string>)

  datatype WriteError = Invalid | NotAssigned | Unreachable

  function KeepAssigned(current: Assigned, ids: seq<string>, present: bool): seq<string> {
    if ids == [] then []
    else (if (ids[0] in current.at) == present then [ids[0]] else []) + KeepAssigned(current, ids[1..], present)
  }

  /** `resolveIdentityTargets`: devices to write to, in order. */
  function Found(current: Assigned, target: Target): seq<string> {
    match target
    case AllAssigned => KeepAssigned(current, current.order, true)
    case OneDevice(id) => KeepAssigned(current, [id], true)
    case Devices(ids) => KeepAssigned(current, ids, true)
  }

  function Missing(current: Assigned, target: Target): seq<string> {
    match target
    case AllAssigned => []
    case OneDevice(id) => KeepAssigned(current, [id], false)
    case Devices(ids) => KeepAssigned(current, ids, false)
  }

  /** The one device asked for is not assigned. */
  predicate NotTargeted(current: Assigned, target: Target) { target.OneDevice? && target.id !in current.at }

  /** The call's result and the devices it leaves, given the run over the devices found. */
  ghost predicate Outcome(run: Run, missing: seq<string>, ps: seq<Person>, devices: Devices,
                          r: Result<seq<Report>, WriteError>)
  {
    devices == run.devices && r == if run.aborted then Err(Unreachable) else Ok(run.reports + AllMissing(missing, ps))
  }

  predicate ValidPerson(p: Person) {
    && Trim(p.userId) != "" && Trim(p.displayName) != ""
    && (p.card.Some? ==> Trim(p.card.value.cardNo) != "")
    && (p.face.Some? ==>
          (p.face.value.photosBase64.Some? && p.face.value.photosBase64.value != []) ||
          (p.face.value.photoUrls.Some? && p.face.value.photoUrls.value != []))
  }

  predicate ValidPersons(ps: seq<Person>) { ps != [] && forall i :: 0 <= i < |ps| ==> ValidPerson(ps[i]) }

  function MissingReports(id: string, ps: seq<Person>): seq<Report> {
    seq(|ps|, i requires 0 <= i < |ps| => MissingDevice(id, ps[i].userId))
  }

  function AllMissing(ids: seq<string>, ps: seq<Person>): seq<Report> {
    if ids == [] then [] else AllMissing(ids[..|ids| - 1], ps) + MissingReports(ids[|ids| - 1], ps)
  }

  datatype Run = Run(devices: Devices, reports: seq<Report>, aborted: bool)

  /** Device after device; stops at the first that cannot be reached. */
  function OnDevices(fates: Fates, connects: string -> bool, devices: Devices, ids: seq<string>, ps: seq<Person>): Run {
    if ids == [] then Run(devices, [], false)
    else
      var init, id := OnDevices(fates, connects, devices, ids[..|ids| - 1], ps), ids[|ids| - 1];
      if init.aborted then init
      else if !connects(id) then init.(aborted := true)
      else
        var done := CreateAll(fates, id, At(init.devices, id), ps);
        Run(init.devices[id := done.device], init.reports + done.reports, false)
  }

  lemma {:induction false} AbortStays(fates: Fates, connects: string -> bool, devices: Devices, ids: seq<string>,
                                      i: nat, ps: seq<Person>)
    requires i <= |ids| && OnDevices(fates, connects, devices, ids[..i], ps).aborted
    ensures OnDevices(fates, connects, devices, ids, ps) == OnDevices(fates, connects, devices, ids[..i], ps)
  {
    if i < |ids| {
      assert ids[..|ids| - 1][..i] == ids[..i];
      AbortStays(fates, connects, devices, ids[..|ids| - 1], i, ps);
    } else {
      assert ids[..i] == ids;
    }
  }

  lemma {:induction false} KeptAre(current: Assigned, ids: seq<string>, present: bool)
    ensures forall id :: id in KeepAssigned(current, ids, present) <==> id in ids && (id in current.at) == present
  {
    if ids != [] {
      KeptAre(current, ids[1..], present);
      assert ids == [ids[0]] + ids[1..];
    }
  }

  lemma FoundAreAssigned(current: Assigned, target: Target)
    ensures forall i :: 0 <= i < |Found(current, target)| ==> Found(current, target)[i] in current.at
  {
    var ids := match target case AllAssigned => current.order case OneDevice(id) => [id] case Devices(ids) => ids;
    KeptAre(current, ids, true);
    assert forall i :: 0 <= i < |Found(current, target)| ==> Found(current, target)[i] in Found(current, target);
  }

  /** The call fails over its devices exactly when one of them cannot be reached, and devices before it stay
      written although nothing is reported. */
  lemma {:induction false} AbortsExactlyWhenUnreachable(fates: Fates, connects: string -> bool, devices: Devices,
                                                        ids: seq<string>, ps: seq<Person>)
    ensures OnDevices(fates, connects, devices, ids, ps).aborted <==> AnyUnreachable(connects, ids)
  {
    if ids != [] {
      var n := |ids| - 1;
      AbortsExactlyWhenUnreachable(fates, connects, devices, ids[..n], ps);
      SomeUnreachable(connects, ids);
    }
  }

  ghost predicate AnyUnreachable(connects: string -> bool, ids: seq<string>) {
    exists i :: 0 <= i < |ids| && !connects(ids[i])
  }

  lemma SomeUnreachable(connects: string -> bool, ids: seq<string>)
    requires ids != []
    ensures AnyUnreachable(connects, ids) <==> AnyUnreachable(connects, ids[..|ids| - 1]) || !connects(ids[|ids| - 1])
  {
    var init := ids[..|ids| - 1];
    if i :| 0 <= i < |ids| && !connects(ids[i]) {
      assert i < |init| ==> init[i] == ids[i];
    }
    if i :| 0 <= i < |init| && !connects(init[i]) {
      assert ids[i] == init[i];
    }
  }

  /** The report at a position is about that device and person. */
  ghost predicate ReportsOn(reports: seq<Report>, ids: seq<string>, ps: seq<Person>, i: nat, j: nat) {
    && i < |ids| && j < |ps| && i * |ps| + j < |reports|
    && reports[i * |ps| + j].deviceId == ids[i] && reports[i * |ps| + j].userId == ps[j].userId
  }

  /** A call that ends normally reports on every person once per device, devices first and persons in order. */
  lemma {:induction false} ReportsOnEveryone(fates: Fates, connects: string -> bool, devices: Devices, ids: seq<string>,
                                             ps: seq<Person>)
    ensures var run := OnDevices(fates, connects, devices, ids, ps);
            !run.aborted ==>
              && |run.reports| == |ids| * |ps|
              && forall i, j :: 0 <= i < |ids| && 0 <= j < |ps| ==> ReportsOn(run.reports, ids, ps, i, j)
  {
    var run := OnDevices(fates, connects, devices, ids, ps);
    if ids != [] && !run.aborted {
      var init, last := ids[..|ids| - 1], ids[|ids| - 1];
      var earlier := OnDevices(fates, connects, devices, init, ps);
      var more := CreateAll(fates, last, At(earlier.devices, last), ps).reports;
      ReportsOnEveryone(fates, connects, devices, init, ps);
      ListIsReported(fates, last, At(earlier.devices, last), ps);
      OneTimesMore(|init|, |ps|);
      forall i, j | 0 <= i < |ids| && 0 <= j < |ps| ensures ReportsOn(earlier.reports + more, ids, ps, i, j) {
        if i < |init| {
          assert ReportsOn(earlier.reports, init, ps, i, j);
        }
      }
    }
  }

  lemma ListIsReported(fates: Fates, id: string, d: Device, ps: seq<Person>)
    ensures var reports := CreateAll(fates, id, d, ps).reports;
            && |reports| == |ps|
            && forall j :: 0 <= j < |ps| ==> reports[j].deviceId == id && reports[j].userId == ps[j].userId
  {
    RunGrows(fates, id, d, ps);
    forall j | 0 <= j < |ps|
      ensures CreateAll(fates, id, d, ps).reports[j].deviceId == id
      ensures CreateAll(fates, id, d, ps).reports[j].userId == ps[j].userId
    {
      ReportAt(fates, id, d, ps, j);
      ReportNames(fates, id, StateAt(fates, id, d, ps, j), ps[j]);
    }
  }

  lemma OneTimesMore(n: int, k: int)
    ensures (n + 1) * k == n * k + k
  {}

  /** Main result over all devices: a user a device had before is not written there by the whole call. */
  lemma {:induction false} ExistingUsersAreNotWrittenAnywhere(fates: Fates, connects: string -> bool, devices: Devices,
                                                              ids: seq<string>, ps: seq<Person>, id: string,
                                                              userId: string)
    requires userId in At(devices, id).users
    ensures var u := At(OnDevices(fates, connects, devices, ids, ps).devices, id);
            && At(devices, id).applied <= u.applied && userId in u.users
            && NoneAbout(Between(At(devices, id), u), userId)
  {
    if ids != [] {
      var init, last := ids[..|ids| - 1], ids[|ids| - 1];
      ExistingUsersAreNotWrittenAnywhere(fates, connects, devices, init, ps, id, userId);
      var run := OnDevices(fates, connects, devices, init, ps);
      if !run.aborted && connects(last) && last == id {
        var d := At(run.devices, id);
        RunGrows(fates, id, d, ps);
        ExistingUsersAreNotWritten(fates, id, d, ps, userId);
        BetweenJoins(At(devices, id), d, CreateAll(fates, id, d, ps).device);
      }
    }
  }

  // ---------------------------------------------------------------- repeating the whole call

  lemma ReportNames(fates: Fates, id: string, d: Device, p: Person)
    ensures CreatePerson(fates, id, d, p).report.deviceId == id
    ensures CreatePerson(fates, id, d, p).report.userId == p.userId
  {}

  /** A reported user is on the device when the list is done. */
  lemma ReportedByList(fates: Fates, id: string, d: Device, ps: seq<Person>, k: nat)
    requires k < |CreateAll(fates, id, d, ps).reports|
    ensures var done := CreateAll(fates, id, d, ps);
            && done.reports[k].deviceId == id
            && (done.reports[k].steps.user == Success ==> done.reports[k].userId in done.device.users)
  {
    RunGrows(fates, id, d, ps);
    ReportAt(fates, id, d, ps, k);
    ReportNames(fates, id, StateAt(fates, id, d, ps, k), ps[k]);
    ReportIsTruthful(fates, id, StateAt(fates, id, d, ps, k), ps[k]);
    StatesGrow(fates, id, d, ps, k + 1, |ps|);
    assert ps[..|ps|] == ps;
  }

  /** A person already present is only skipped, or failed when the lookup is not answered. */
  predicate SkipOrLookupFailure(r: Report) {
    r == Existing(r.deviceId, r.userId) || r == Marked(NewReport(r.deviceId, r.userId), UserStep)
  }

  lemma PresentInList(fates: Fates, id: string, d: Device, ps: seq<Person>, k: nat)
    requires k < |CreateAll(fates, id, d, ps).reports|
    ensures CreateAll(fates, id, d, ps).reports[k].userId in d.users ==>
              SkipOrLookupFailure(CreateAll(fates, id, d, ps).reports[k])
  {
    RunGrows(fates, id, d, ps);
    ReportAt(fates, id, d, ps, k);
    ReportNames(fates, id, StateAt(fates, id, d, ps, k), ps[k]);
    StatesGrow(fates, id, d, ps, 0, k);
    assert ps[..0] == [];
    if ps[k].userId in d.users {
      ExistingUserReport(fates, id, StateAt(fates, id, d, ps, k), ps[k]);
    }
  }

  lemma {:induction false} ReportedIsPresent(fates: Fates, connects: string -> bool, devices: Devices, ids: seq<string>,
                                             ps: seq<Person>, k: nat)
    requires k < |OnDevices(fates, connects, devices, ids, ps).reports|
    ensures var run := OnDevices(fates, connects, devices, ids, ps);
            run.reports[k].steps.user == Success ==>
                run.reports[k].userId in At(run.devices, run.reports[k].deviceId).users
  {
    var init, last := ids[..|ids| - 1], ids[|ids| - 1];
    var run := OnDevices(fates, connects, devices, init, ps);
    var d := At(run.devices, last);
    if k < |run.reports| {
      ReportedIsPresent(fates, connects, devices, init, ps, k);
      RunGrows(fates, last, d, ps);
    } else {
      ReportedByList(fates, last, d, ps, k - |run.reports|);
    }
  }

  lemma LastDeviceSkips(fates: Fates, connects: string -> bool, devices: Devices, init: seq<string>, last: string,
                        ps: seq<Person>, k: nat)
    requires var d := At(OnDevices(fates, connects, devices, init, ps).devices, last);
             k < |CreateAll(fates, last, d, ps).reports|
    ensures var d := At(OnDevices(fates, connects, devices, init, ps).devices, last);
            var r := CreateAll(fates, last, d, ps).reports[k];
            r.deviceId == last && (r.userId in At(devices, last).users ==> SkipOrLookupFailure(r))
  {
    var d := At(OnDevices(fates, connects, devices, init, ps).devices, last);
    ReportedByList(fates, last, d, ps, k);
    PresentInList(fates, last, d, ps, k);
    UsersStay(fates, connects, devices, init, ps, last);
  }

  lemma {:induction false} PresentIsSkipped(fates: Fates, connects: string -> bool, devices: Devices, ids: seq<string>,
                                            ps: seq<Person>, k: nat)
    requires k < |OnDevices(fates, connects, devices, ids, ps).reports|
    ensures var r := OnDevices(fates, connects, devices, ids, ps).reports[k];
            r.userId in At(devices, r.deviceId).users ==> SkipOrLookupFailure(r)
  {
    var init, last := ids[..|ids| - 1], ids[|ids| - 1];
    var run := OnDevices(fates, connects, devices, init, ps);
    if k < |run.reports| {
      PresentIsSkipped(fates, connects, devices, init, ps, k);
    } else {
      LastDeviceSkips(fates, connects, devices, init, last, ps, k - |run.reports|);
    }
  }

  lemma {:induction false} UsersStay(fates: Fates, connects: string -> bool, devices: Devices, ids: seq<string>,
                                     ps: seq<Person>, id: string)
    ensures At(devices, id).users <= At(OnDevices(fates, connects, devices, ids, ps).devices, id).users
  {
    if ids != [] {
      var init, last := ids[..|ids| - 1], ids[|ids| - 1];
      UsersStay(fates, connects, devices, init, ps, id);
      RunGrows(fates, last, At(OnDevices(fates, connects, devices, init, ps).devices, last), ps);
    }
  }

  /** Main result: after a call, any later call with any persons, targets and outcomes writes nothing on a
      device for a user whose step was reported there as a success, and reports the user there only as
      skipped or, when the lookup is not answered, as failed. */
  lemma RepeatedCallWritesNothing(fates: Fates, connects: string -> bool, devices: Devices, ids: seq<string>,
                                  ps: seq<Person>, k: nat, again: Fates, connects': string -> bool, devices': Devices,
                                  ids': seq<string>, ps': seq<Person>, l: nat)
    requires k < |OnDevices(fates, connects, devices, ids, ps).reports|
    requires OnDevices(fates, connects, devices, ids, ps).reports[k].steps.user == Success
    requires forall id :: At(OnDevices(fates, connects, devices, ids, ps).devices, id).users <= At(devices', id).users
    ensures var r := OnDevices(fates, connects, devices, ids, ps).reports[k];
            var run := OnDevices(again, connects', devices', ids', ps');
            var d, u := At(devices', r.deviceId), At(run.devices, r.deviceId);
            && d.applied <= u.applied && NoneAbout(Between(d, u), r.userId)
            && (l < |run.reports| && run.reports[l].deviceId == r.deviceId && run.reports[l].userId == r.userId ==>
                  SkipOrLookupFailure(run.reports[l]))
  {
    var r := OnDevices(fates, connects, devices, ids, ps).reports[k];
    ReportedIsPresent(fates, connects, devices, ids, ps, k);
    ExistingUsersAreNotWrittenAnywhere(again, connects', devices', ids', ps', r.deviceId, r.userId);
    if l < |OnDevices(again, connects', devices', ids', ps').reports| {
      PresentIsSkipped(again, connects', devices', ids', ps', l);
    }
  }
}
