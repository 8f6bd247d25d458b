/** Creating persons on devices (src/domain/identity-write/identity-write-service.ts and
    identity-write-support.ts). A device accepts a request, rejects it, or carries it out without the
    reply getting through. */
module BulkCreate {
  import opened Common
  import opened Text

  // ---------------------------------------------------------------- persons and what is sent for them

  datatype Card = Card(cardNo: string, cardName: Option<string>, cardType: Option<int>, cardStatus: Option<int>)

  datatype Face = Face(photosBase64: Option<seq<string>>, photoUrls: Option<seq<string>>)

  /** `details` stands for the optional user fields, passed on as they are. */
  datatype Person = Person(
    userId: string,
    displayName: string,
    details: map<string, string>,
    card: Option<Card>,
    face: Option<Face>)

  datatype Operation = Create | Update

  datatype Write =
    | UserWrite(op: Operation, userId: string, userName: string, details: map<string, string>)
    | CardWrite(op: Operation, userId: string, cardNo: string, cardName: string, cardType: Option<int>,
                cardStatus: Option<int>)
    | FaceWrite(op: Operation, userId: string, photoData: Option<seq<string>>, photoUrl: Option<seq<string>>)

  function ToUserWrite(op: Operation, p: Person): Write { UserWrite(op, p.userId, p.displayName, p.details) }

  function ToCardWrite(op: Operation, p: Person): Write
    requires p.card.Some?
  {
    var c := p.card.value;
    var name := if c.cardName.Some? then c.cardName.value else p.displayName;
    CardWrite(op, p.userId, c.cardNo, name, c.cardType, c.cardStatus)
  }

  function NonBlank(items: seq<string>): seq<string> {
    if items == [] then []
    else (if Trim(items[0]) != "" then [items[0]] else []) + NonBlank(items[1..])
  }

  function Given(items: Option<seq<string>>): seq<string> { if items.Some? then NonBlank(items.value) else [] }

  function IfAny(items: seq<string>): Option<seq<string>> { if items == [] then None else Some(items) }

  /** Links are sent only when there is no picture. */
  function ToFaceWrite(op: Operation, p: Person): Write
    requires p.face.Some?
  {
    var data := Given(p.face.value.photosBase64);
    FaceWrite(op, p.userId, IfAny(data), if data == [] then IfAny(Given(p.face.value.photoUrls)) else None)
  }

  lemma {:induction false} NonBlankIsEmpty(items: seq<string>)
    ensures NonBlank(items) == [] <==> forall i :: 0 <= i < |items| ==> Trim(items[i]) == ""
  {
    if items != [] {
      NonBlankIsEmpty(items[1..]);
      if forall i :: 0 <= i < |items| ==> Trim(items[i]) == "" {
        assert forall i :: 0 <= i < |items[1..]| ==> items[1..][i] == items[i + 1];
      }
      if NonBlank(items) == [] {
        forall i | 0 <= i < |items| ensures Trim(items[i]) == "" {
          if i > 0 { assert items[i] == items[1..][i - 1]; }
        }
      }
    }
  }

  ghost predicate AllBlank(items: Option<seq<string>>) {
    items.Some? ==> forall i :: 0 <= i < |items.value| ==> Trim(items.value[i]) == ""
  }

  /** A face request carries pictures if one is not blank, otherwise links if one is not blank, and never
      both; it carries nothing exactly when all that was given is blank. */
  lemma FaceCarries(op: Operation, p: Person)
    requires p.face.Some?
    ensures var w := ToFaceWrite(op, p);
            && (w.photoData.Some? <==> !AllBlank(p.face.value.photosBase64))
            && (w.photoUrl.Some? <==> AllBlank(p.face.value.photosBase64) && !AllBlank(p.face.value.photoUrls))
  {
    if p.face.value.photosBase64.Some? { NonBlankIsEmpty(p.face.value.photosBase64.value); }
    if p.face.value.photoUrls.Some? { NonBlankIsEmpty(p.face.value.photoUrls.value); }
  }

  // ---------------------------------------------------------------- devices

  datatype Fate = Accepted | Rejected | ReplyLost

  /** Fate of the n-th request to a device. */
  type Fates = (string, nat) -> Fate

  /** Users and faces present, the writes carried out so far, and the number of requests received. */
  datatype Device = Device(users: set<string>, faces: set<string>, applied: seq<Write>, calls: nat)

  function CarriedOut(d: Device, w: Write): Device {
    d.(users := if w.UserWrite? then d.users + {w.userId} else d.users,
       faces := if w.FaceWrite? then d.faces + {w.userId} else d.faces,
       applied := d.applied + [w])
  }

  function FateOf(fates: Fates, id: string, d: Device): Fate { fates(id, d.calls) }

  /** The device after a write request. */
  function Sent(fates: Fates, id: string, d: Device, w: Write): Device {
    (if FateOf(fates, id, d) == Rejected then d else CarriedOut(d, w)).(calls := d.calls + 1)
  }

  function Asked(d: Device): Device { d.(calls := d.calls + 1) }

  // ---------------------------------------------------------------- reports

  datatype Status = Success | Failed | Skipped

  datatype Steps = Steps(user: Status, card: Status, face: Status)

  datatype Code = AlreadyExists | WriteFailed | DeviceNotFound

  datatype Report = Report(userId: string, deviceId: string, status: Status, steps: Steps, code: Option<Code>)

  datatype Step = UserStep | CardStep | FaceStep

  const SKIPPED_STEPS := Steps(Skipped, Skipped, Skipped)

  function NewReport(deviceId: string, userId: string): Report {
    Report(userId, deviceId, Success, SKIPPED_STEPS, None)
  }

  function MissingDevice(deviceId: string, userId: string): Report {
    Report(userId, deviceId, Failed, SKIPPED_STEPS, Some(DeviceNotFound))
  }

  function Existing(deviceId: string, userId: string): Report {
    Report(userId, deviceId, Skipped, SKIPPED_STEPS, Some(AlreadyExists))
  }

  function WithStep(s: Steps, step: Step, status: Status): Steps {
    match step
    case UserStep => s.(user := status)
    case CardStep => s.(card := status)
    case FaceStep => s.(face := status)
  }

  function StatusOf(s: Steps, step: Step): Status {
    match step
    case UserStep => s.user
    case CardStep => s.card
    case FaceStep => s.face
  }

  function Succeeded(r: Report, step: Step): Report { r.(steps := WithStep(r.steps, step, Success)) }

  function Marked(r: Report, step: Step): Report {
    r.(steps := WithStep(r.steps, step, Failed), status := Failed, code := Some(WriteFailed))
  }

  // ---------------------------------------------------------------- one person on one device

  datatype Done = Done(device: Device, report: Report)

  function OneStep(fates: Fates, id: string, before: Done, w: Write, step: Step): Done {
    Done(Sent(fates, id, before.device, w),
         if FateOf(fates, id, before.device) == Accepted
         then Succeeded(before.report, step) else Marked(before.report, step))
  }

  function CardPhase(fates: Fates, id: string, op: Operation, before: Done, p: Person): Done {
    if p.card.None? then before else OneStep(fates, id, before, ToCardWrite(op, p), CardStep)
  }

  /** An update first asks whether the user has a face. */
  function FacePhase(fates: Fates, id: string, op: Operation, before: Done, p: Person): Done {
    if p.face.None? then before
    else if op == Create then OneStep(fates, id, before, ToFaceWrite(Create, p), FaceStep)
    else
      var asked := before.(device := Asked(before.device));
      var faceOp := if p.userId in before.device.faces then Update else Create;
      if FateOf(fates, id, before.device) != Accepted then asked.(report := Marked(before.report, FaceStep))
      else OneStep(fates, id, asked, ToFaceWrite(faceOp, p), FaceStep)
  }

  /** `applyWrite`, with the failure of the user step already recorded. */
  function WritePerson(fates: Fates, id: string, op: Operation, before: Done, p: Person): Done {
    var user := OneStep(fates, id, before, ToUserWrite(op, p), UserStep);
    if FateOf(fates, id, before.device) != Accepted then user
    else FacePhase(fates, id, op, CardPhase(fates, id, op, user, p), p)
  }

  /** `bulkCreateForPerson`; the lookup is exact when it is answered. */
  function CreatePerson(fates: Fates, id: string, d: Device, p: Person): Done {
    var start := Done(Asked(d), NewReport(id, p.userId));
    if FateOf(fates, id, d) != Accepted then start.(report := Marked(start.report, UserStep))
    else if p.userId in d.users then start.(report := Existing(id, p.userId))
    else WritePerson(fates, id, Create, start, p)
  }

  datatype AllDone = AllDone(device: Device, reports: seq<Report>)

  function CreateAll(fates: Fates, id: string, d: Device, ps: seq<Person>): AllDone {
    if ps == [] then AllDone(d, [])
    else
      var init := CreateAll(fates, id, d, ps[..|ps| - 1]);
      var last := CreatePerson(fates, id, init.device, ps[|ps| - 1]);
      AllDone(last.device, init.reports + [last.report])
  }

  // ---------------------------------------------------------------- what a report means

  /** Writes carried out between two states of a device. */
  ghost function Between(d: Device, u: Device): seq<Write>
    requires d.applied <= u.applied
  {
    u.applied[|d.applied|..]
  }

  ghost predicate NoneAbout(ws: seq<Write>, userId: string) { forall i :: 0 <= i < |ws| ==> ws[i].userId != userId }

  /** Everything a report for a person promises about the device. */
  ghost predicate Truthful(d: Device, u: Device, p: Person, r: Report)
    requires d.applied <= u.applied
  {
    var ws := Between(d, u);
    && (r.steps.user == Success ==> ToUserWrite(Create, p) in ws && p.userId in u.users)
    && (r.steps.card == Success ==> p.card.Some? && ToCardWrite(Create, p) in ws)
    && (r.steps.face == Success ==> p.face.Some? && ToFaceWrite(Create, p) in ws)
    && (r.steps.user != Success ==> r.steps.card == Skipped && r.steps.face == Skipped)
    && (r.status == Success <==>
        && r.steps.user == Success
        && (p.card.Some? ==> r.steps.card == Success) && (p.face.Some? ==> r.steps.face == Success))
    && (r.status == Skipped <==> r.code == Some(AlreadyExists))
    && (r.status == Skipped ==> p.userId in d.users && ws == [] && r.steps == SKIPPED_STEPS)
    && (p.userId in d.users ==> ws == [])
    && (r.steps.user != Success ==> forall w :: w in ws ==> w == ToUserWrite(Create, p))
    && (forall w :: w in ws ==> w.userId == p.userId)
    && d.users <= u.users
  }

  lemma SentMeaning(fates: Fates, id: string, d: Device, w: Write)
    ensures d.applied <= Sent(fates, id, d, w).applied && d.users <= Sent(fates, id, d, w).users
    ensures Between(d, Sent(fates, id, d, w)) == if FateOf(fates, id, d) == Rejected then [] else [w]
  {}

  lemma BetweenJoins(a: Device, b: Device, c: Device)
    requires a.applied <= b.applied && b.applied <= c.applied
    ensures a.applied <= c.applied && Between(a, c) == Between(a, b) + Between(b, c)
  {}

  /** State of affairs after the user step went through and some of the others are done. */
  ghost predicate PartlyTold(d: Device, u: Device, p: Person, r: Report, card: bool, face: bool) {
    && d.applied <= u.applied && d.users <= u.users && p.userId in u.users
    && r.steps.user == Success && ToUserWrite(Create, p) in Between(d, u)
    && (forall w :: w in Between(d, u) ==> w.userId == p.userId)
    && (r.steps.card == Success ==> card && p.card.Some? && ToCardWrite(Create, p) in Between(d, u))
    && (r.steps.face == Success ==> face && p.face.Some? && ToFaceWrite(Create, p) in Between(d, u))
    && (r.status == Success <==>
        (card && p.card.Some? ==> r.steps.card == Success) && (face && p.face.Some? ==> r.steps.face == Success))
    && r.status != Skipped && r.code != Some(AlreadyExists)
  }

  lemma CardTold(fates: Fates, id: string, d: Device, before: Done, p: Person)
    requires PartlyTold(d, before.device, p, before.report, false, false)
    ensures var after := CardPhase(fates, id, Create, before, p);
            PartlyTold(d, after.device, p, after.report, true, false)
  {
    if p.card.Some? {
      SentMeaning(fates, id, before.device, ToCardWrite(Create, p));
      BetweenJoins(d, before.device, Sent(fates, id, before.device, ToCardWrite(Create, p)));
    }
  }

  lemma FaceTold(fates: Fates, id: string, d: Device, before: Done, p: Person)
    requires PartlyTold(d, before.device, p, before.report, true, false)
    ensures var after := FacePhase(fates, id, Create, before, p);
            PartlyTold(d, after.device, p, after.report, true, true)
  {
    if p.face.Some? {
      SentMeaning(fates, id, before.device, ToFaceWrite(Create, p));
      BetweenJoins(d, before.device, Sent(fates, id, before.device, ToFaceWrite(Create, p)));
    }
  }

  /** Main result for one person. */
  lemma ReportIsTruthful(fates: Fates, id: string, d: Device, p: Person)
    ensures var done := CreatePerson(fates, id, d, p);
            d.applied <= done.device.applied && Truthful(d, done.device, p, done.report)
  {
    var start := Done(Asked(d), NewReport(id, p.userId));
    if FateOf(fates, id, d) == Accepted && p.userId !in d.users {
      var w := ToUserWrite(Create, p);
      SentMeaning(fates, id, start.device, w);
      var user := OneStep(fates, id, start, w, UserStep);
      if FateOf(fates, id, start.device) == Accepted {
        CardTold(fates, id, d, user, p);
        FaceTold(fates, id, d, CardPhase(fates, id, Create, user, p), p);
      }
    }
  }

  // ---------------------------------------------------------------- a whole run on one device

  /** The device just before the i-th person. */
  function StateAt(fates: Fates, id: string, d: Device, ps: seq<Person>, i: nat): Device
    requires i <= |ps|
  {
    CreateAll(fates, id, d, ps[..i]).device
  }

  lemma {:induction false} RunGrows(fates: Fates, id: string, d: Device, ps: seq<Person>)
    ensures var u := CreateAll(fates, id, d, ps).device;
            d.applied <= u.applied && d.users <= u.users && |CreateAll(fates, id, d, ps).reports| == |ps|
  {
    if ps != [] {
      var init := CreateAll(fates, id, d, ps[..|ps| - 1]);
      RunGrows(fates, id, d, ps[..|ps| - 1]);
      ReportIsTruthful(fates, id, init.device, ps[|ps| - 1]);
      BetweenJoins(d, init.device, CreateAll(fates, id, d, ps).device);
    }
  }

  /** Each report of a run is the report of its person, from the state the run had reached. */
  lemma {:induction false} ReportAt(fates: Fates, id: string, d: Device, ps: seq<Person>, i: nat)
    requires i < |ps|
    ensures |CreateAll(fates, id, d, ps).reports| == |ps|
    ensures Done(StateAt(fates, id, d, ps, i + 1), CreateAll(fates, id, d, ps).reports[i]) ==
            CreatePerson(fates, id, StateAt(fates, id, d, ps, i), ps[i])
  {
    RunGrows(fates, id, d, ps);
    var init := ps[..|ps| - 1];
    RunGrows(fates, id, d, init);
    assert ps[..|ps|] == ps;
    if i < |ps| - 1 {
      ReportAt(fates, id, d, init, i);
      assert init[..i] == ps[..i] && init[..i + 1] == ps[..i + 1];
    }
  }

  /** The device only gains users and writes from one person to a later one. */
  lemma {:induction false} StatesGrow(fates: Fates, id: string, d: Device, ps: seq<Person>, i: nat, j: nat)
    requires i <= j <= |ps|
    ensures StateAt(fates, id, d, ps, i).applied <= StateAt(fates, id, d, ps, j).applied
    ensures StateAt(fates, id, d, ps, i).users <= StateAt(fates, id, d, ps, j).users
    decreases j
  {
    if i < j {
      StatesGrow(fates, id, d, ps, i, j - 1);
      ReportAt(fates, id, d, ps, j - 1);
      ReportIsTruthful(fates, id, StateAt(fates, id, d, ps, j - 1), ps[j - 1]);
      BetweenJoins(StateAt(fates, id, d, ps, i), StateAt(fates, id, d, ps, j - 1), StateAt(fates, id, d, ps, j));
    }
  }

  /** Main result: nothing is ever written about a user the device already has. */
  lemma {:induction false} ExistingUsersAreNotWritten(fates: Fates, id: string, d: Device, ps: seq<Person>,
                                                      userId: string)
    requires userId in d.users
    ensures d.applied <= CreateAll(fates, id, d, ps).device.applied
    ensures NoneAbout(Between(d, CreateAll(fates, id, d, ps).device), userId)
  {
    if ps != [] {
      var init, last := CreateAll(fates, id, d, ps[..|ps| - 1]), ps[|ps| - 1];
      ExistingUsersAreNotWritten(fates, id, d, ps[..|ps| - 1], userId);
      RunGrows(fates, id, d, ps[..|ps| - 1]);
      NotWrittenNext(fates, id, d, init.device, last, userId);
    }
  }

  lemma NotWrittenNext(fates: Fates, id: string, d: Device, mid: Device, p: Person, userId: string)
    requires d.applied <= mid.applied && NoneAbout(Between(d, mid), userId) && userId in mid.users
    ensures d.applied <= CreatePerson(fates, id, mid, p).device.applied
    ensures NoneAbout(Between(d, CreatePerson(fates, id, mid, p).device), userId)
  {
    var u := CreatePerson(fates, id, mid, p).device;
    ReportIsTruthful(fates, id, mid, p);
    BetweenJoins(d, mid, u);
    var ws := Between(mid, u);
    assert forall i :: 0 <= i < |ws| ==> ws[i] in ws;
  }

  /** A user the device has is reported as skipped when the lookup is answered, and as failed otherwise. */
  lemma ExistingUserReport(fates: Fates, id: string, d: Device, p: Person)
    requires p.userId in d.users
    ensures CreatePerson(fates, id, d, p).report ==
            if FateOf(fates, id, d) == Accepted then Existing(id, p.userId)
            else Marked(NewReport(id, p.userId), UserStep)
    ensures CreatePerson(fates, id, d, p).device == Asked(d)
  {}

  /** Main result: repeating the import, with any outcomes and after anything else that keeps the users,
      writes nothing for a person whose user step succeeded, and reports the person as skipped wherever the
      lookup is answered. */
  lemma RepeatWritesNothing(fates: Fates, id: string, d: Device, ps: seq<Person>, i: nat, again: Fates, d': Device)
    requires i < |ps| && CreateAll(fates, id, d, ps).device.users <= d'.users
    requires |CreateAll(fates, id, d, ps).reports| == |ps|
    requires CreateAll(fates, id, d, ps).reports[i].steps.user == Success
    ensures d'.applied <= CreateAll(again, id, d', ps).device.applied
    ensures NoneAbout(Between(d', CreateAll(again, id, d', ps).device), ps[i].userId)
    ensures |CreateAll(again, id, d', ps).reports| == |ps|
    ensures CreateAll(again, id, d', ps).reports[i] ==
            if FateOf(again, id, StateAt(again, id, d', ps, i)) == Accepted then Existing(id, ps[i].userId)
            else Marked(NewReport(id, ps[i].userId), UserStep)
  {
    ReportAt(fates, id, d, ps, i);
    ReportIsTruthful(fates, id, StateAt(fates, id, d, ps, i), ps[i]);
    StatesGrow(fates, id, d, ps, i + 1, |ps|);
    assert ps[..|ps|] == ps;
    ExistingUsersAreNotWritten(again, id, d', ps, ps[i].userId);
    ReportAt(again, id, d', ps, i);
    StatesGrow(again, id, d', ps, 0, i);
    assert ps[..0] == [];
    ExistingUserReport(again, id, StateAt(again, id, d', ps, i), ps[i]);
  }

  // ---------------------------------------------------------------- at most one creation per user

  /** No user is created twice. */
  ghost predicate AtMostOnce(ws: seq<Write>) {
    forall i, j :: 0 <= i < j < |ws| && ws[i].UserWrite? && ws[j].UserWrite? ==> ws[i].userId != ws[j].userId
  }

  /** Users created among the writes are on the device. */
  ghost predicate CreatedArePresent(ws: seq<Write>, u: Device) {
    forall i :: 0 <= i < |ws| && ws[i].UserWrite? ==> ws[i].userId in u.users
  }

  /** The writes are about one person and create it, if at all, first. */
  ghost predicate AboutOne(d: Device, u: Device, userId: string) {
    && d.applied <= u.applied && CreatedArePresent(Between(d, u), u)
    && forall i :: 0 <= i < |Between(d, u)| ==>
         Between(d, u)[i].userId == userId && (Between(d, u)[i].UserWrite? ==> i == 0)
  }

  lemma OneWriteMore(fates: Fates, id: string, d: Device, mid: Device, w: Write)
    requires AboutOne(d, mid, w.userId) && (w.UserWrite? ==> mid.applied == d.applied)
    ensures AboutOne(d, Sent(fates, id, mid, w), w.userId)
  {
    SentMeaning(fates, id, mid, w);
    BetweenJoins(d, mid, Sent(fates, id, mid, w));
  }

  lemma PersonWrites(fates: Fates, id: string, d: Device, p: Person)
    ensures AboutOne(d, CreatePerson(fates, id, d, p).device, p.userId)
    ensures p.userId in d.users ==> CreatePerson(fates, id, d, p).device.applied == d.applied
  {
    var start := Done(Asked(d), NewReport(id, p.userId));
    if FateOf(fates, id, d) == Accepted && p.userId !in d.users {
      var user := OneStep(fates, id, start, ToUserWrite(Create, p), UserStep);
      OneWriteMore(fates, id, d, start.device, ToUserWrite(Create, p));
      if FateOf(fates, id, start.device) == Accepted {
        var card := CardPhase(fates, id, Create, user, p);
        if p.card.Some? { OneWriteMore(fates, id, d, user.device, ToCardWrite(Create, p)); }
        if p.face.Some? { OneWriteMore(fates, id, d, card.device, ToFaceWrite(Create, p)); }
      }
    }
  }

  lemma OnceMore(d: Device, mid: Device, u: Device, userId: string)
    requires d.applied <= mid.applied && AtMostOnce(Between(d, mid)) && CreatedArePresent(Between(d, mid), mid)
    requires AboutOne(mid, u, userId) && mid.users <= u.users && (userId in mid.users ==> u.applied == mid.applied)
    ensures d.applied <= u.applied && AtMostOnce(Between(d, u)) && CreatedArePresent(Between(d, u), u)
  {
    BetweenJoins(d, mid, u);
  }

  /** Main result: in any run, whatever happens to the requests, the device carries out at most one user
      creation per user id, however often the id is listed. */
  lemma {:induction false} NoUserIsCreatedTwice(fates: Fates, id: string, d: Device, ps: seq<Person>)
    ensures var u := CreateAll(fates, id, d, ps).device;
            d.applied <= u.applied && AtMostOnce(Between(d, u)) && CreatedArePresent(Between(d, u), u)
  {
    if ps != [] {
      var init, last := CreateAll(fates, id, d, ps[..|ps| - 1]), ps[|ps| - 1];
      NoUserIsCreatedTwice(fates, id, d, ps[..|ps| - 1]);
      PersonWrites(fates, id, init.device, last);
      ReportIsTruthful(fates, id, init.device, last);
      OnceMore(d, init.device, CreatePerson(fates, id, init.device, last).device, last.userId);
    }
  }

  /** A later mention of a created person changes nothing on the device. */
  lemma SecondMentionIsNotCreated(fates: Fates, id: string, d: Device, ps: seq<Person>, i: nat, j: nat)
    requires i < j < |ps| && ps[i].userId == ps[j].userId
    requires |CreateAll(fates, id, d, ps).reports| == |ps|
    requires CreateAll(fates, id, d, ps).reports[i].steps.user == Success
    ensures CreateAll(fates, id, d, ps).reports[j].steps == Steps(Skipped, Skipped, Skipped)
            || CreateAll(fates, id, d, ps).reports[j].steps == Steps(Failed, Skipped, Skipped)
    ensures StateAt(fates, id, d, ps, j).applied == StateAt(fates, id, d, ps, j + 1).applied
  {
    ReportAt(fates, id, d, ps, i);
    ReportIsTruthful(fates, id, StateAt(fates, id, d, ps, i), ps[i]);
    StatesGrow(fates, id, d, ps, i + 1, j);
    ReportAt(fates, id, d, ps, j);
    ExistingUserReport(fates, id, StateAt(fates, id, d, ps, j), ps[j]);
  }

  // ---------------------------------------------------------------- when a repetition completes a person

  /** Everything asked for the person, and nothing else, was carried out in order. */
  ghost predicate Completed(d: Device, u: Device, p: Person) {
    && d.applied <= u.applied
    && Between(d, u) == [ToUserWrite(Create, p)] + CardWrites(p) + FaceWrites(p)
  }

  function CardWrites(p: Person): seq<Write> { if p.card.Some? then [ToCardWrite(Create, p)] else [] }

  function FaceWrites(p: Person): seq<Write> { if p.face.Some? then [ToFaceWrite(Create, p)] else [] }

  /** Every request from now on is answered and accepted. */
  ghost predicate AllAccepted(fates: Fates, id: string, d: Device) {
    forall n: nat :: n >= d.calls ==> fates(id, n) == Accepted
  }

  /** Main result: a retry whose requests are all accepted completes the person exactly when the device does
      not have the user; otherwise it writes nothing. */
  lemma RetryCompletesExactly(again: Fates, id: string, d: Device, p: Person)
    requires AllAccepted(again, id, d)
    ensures var done := CreatePerson(again, id, d, p);
            && (Completed(d, done.device, p) <==> p.userId !in d.users)
            && (p.userId !in d.users ==> done.report.status == Success && done.device.users == d.users + {p.userId})
            && (p.userId in d.users ==> done.device == Asked(d) && done.report == Existing(id, p.userId))
            && AllAccepted(again, id, done.device)
  {
    if p.userId !in d.users {
      AcceptedSteps(again, id, Done(Asked(d), NewReport(id, p.userId)), p);
    }
  }

  lemma AcceptedSteps(again: Fates, id: string, before: Done, p: Person)
    requires AllAccepted(again, id, before.device) && before.report == NewReport(id, p.userId)
    ensures var done := WritePerson(again, id, Create, before, p);
            && done.device.applied == before.device.applied + ([ToUserWrite(Create, p)] + CardWrites(p) + FaceWrites(p))
            && done.device.users == before.device.users + {p.userId} && done.device.calls >= before.device.calls
            && done.report.status == Success
  {
    var user := OneStep(again, id, before, ToUserWrite(Create, p), UserStep);
    var card := CardPhase(again, id, Create, user, p);
    assert user.device.applied == before.device.applied + [ToUserWrite(Create, p)];
    assert card.device.applied == user.device.applied + CardWrites(p);
    assert FacePhase(again, id, Create, card, p).device.applied == card.device.applied + FaceWrites(p);
  }

  /** In terms of the first run: the retry completes a new person exactly when the first run's user write was
      not carried out, that is when the lookup failed or the device rejected the write. After a lost reply,
      and after a failed card or face step, no repetition helps. */
  lemma RetryAfterFirstRun(fates: Fates, id: string, d: Device, p: Person, again: Fates)
    requires p.userId !in d.users && AllAccepted(again, id, CreatePerson(fates, id, d, p).device)
    ensures var first := CreatePerson(fates, id, d, p);
            var retry := CreatePerson(again, id, first.device, p);
            && d.applied <= first.device.applied
            && (Completed(first.device, retry.device, p) <==> ToUserWrite(Create, p) !in Between(d, first.device))
            && (Completed(first.device, retry.device, p) <==>
                fates(id, d.calls) != Accepted || fates(id, d.calls + 1) == Rejected)
  {
    var first := CreatePerson(fates, id, d, p);
    RetryCompletesExactly(again, id, first.device, p);
    UserPresentExactly(fates, id, d, p);
  }

  lemma UserPresentExactly(fates: Fates, id: string, d: Device, p: Person)
    requires p.userId !in d.users
    ensures var first := CreatePerson(fates, id, d, p).device;
            && d.applied <= first.applied
            && (p.userId in first.users <==> ToUserWrite(Create, p) in Between(d, first))
            && (p.userId in first.users <==> fates(id, d.calls) == Accepted && fates(id, d.calls + 1) != Rejected)
  {
    var start := Done(Asked(d), NewReport(id, p.userId));
    PersonWrites(fates, id, d, p);
    ReportIsTruthful(fates, id, d, p);
    if FateOf(fates, id, d) == Accepted {
      var w := ToUserWrite(Create, p);
      SentMeaning(fates, id, start.device, w);
      UserWriteDecides(fates, id, start, p);
    }
  }

  lemma UserWriteDecides(fates: Fates, id: string, before: Done, p: Person)
    requires p.userId !in before.device.users
    ensures var done := WritePerson(fates, id, Create, before, p).device;
            && before.device.applied <= done.applied
            && (FateOf(fates, id, before.device) == Rejected ==>
                 done.users == before.device.users && done.applied == before.device.applied)
            && (FateOf(fates, id, before.device) != Rejected ==>
                p.userId in done.users && |done.applied| > |before.device.applied|
                && done.applied[|before.device.applied|] == ToUserWrite(Create, p))
  {
    var user := OneStep(fates, id, before, ToUserWrite(Create, p), UserStep);
    var card := CardPhase(fates, id, Create, user, p);
    if FateOf(fates, id, before.device) == Accepted {
      if p.card.Some? { SentMeaning(fates, id, user.device, ToCardWrite(Create, p)); }
      if p.face.Some? { SentMeaning(fates, id, card.device, ToFaceWrite(Create, p)); }
    }
  }

  /** A whole accepted retry completes exactly the persons the device does not have, each at its first
      mention. */
  lemma {:induction false} RetryOfListCompletes(again: Fates, id: string, d: Device, ps: seq<Person>, i: nat)
    requires AllAccepted(again, id, d) && i < |ps|
    ensures var before, after := StateAt(again, id, d, ps, i), StateAt(again, id, d, ps, i + 1);
            Completed(before, after, ps[i]) <==>
              ps[i].userId !in d.users && forall j :: 0 <= j < i ==> ps[j].userId != ps[i].userId
  {
    ReportAt(again, id, d, ps, i);
    AcceptedRunUsers(again, id, d, ps[..i]);
    RetryCompletesExactly(again, id, StateAt(again, id, d, ps, i), ps[i]);
    assert forall j :: 0 <= j < i ==> ps[..i][j] == ps[j];
  }

  lemma {:induction false} AcceptedRunUsers(again: Fates, id: string, d: Device, ps: seq<Person>)
    requires AllAccepted(again, id, d)
    ensures AllAccepted(again, id, CreateAll(again, id, d, ps).device)
    ensures forall u :: u in CreateAll(again, id, d, ps).device.users <==>
                      u in d.users || Mentioned(ps, u)
  {
    if ps != [] {
      var n := |ps| - 1;
      var init := CreateAll(again, id, d, ps[..n]);
      AcceptedRunUsers(again, id, d, ps[..n]);
      RetryCompletesExactly(again, id, init.device, ps[n]);
      MentionedOneMore(ps);
    }
  }

  ghost predicate Mentioned(ps: seq<Person>, userId: string) {
    exists j :: 0 <= j < |ps| && ps[j].userId == userId
  }

  lemma MentionedOneMore(ps: seq<Person>)
    requires ps != []
    ensures forall u :: Mentioned(ps, u) <==> Mentioned(ps[..|ps| - 1], u) || ps[|ps| - 1].userId == u
  {
    var init := ps[..|ps| - 1];
    forall u ensures Mentioned(ps, u) <==> Mentioned(init, u) || ps[|ps| - 1].userId == u {
      if j :| 0 <= j < |ps| && ps[j].userId == u { assert j < |init| ==> init[j].userId == u; }
      if j :| 0 <= j < |init| && init[j].userId == u { assert ps[j].userId == u; }
    }
  }

  /** A lost reply leaves a user that later runs skip, so the person's card and face are never written:
      the first run reports failure, and no repetition completes it. */
  lemma LostReplyIsNeverCompleted(fates: Fates, id: string, d: Device, p: Person, again: Fates, ps: seq<Person>)
    requires p.userId !in d.users && fates(id, d.calls) == Accepted && fates(id, d.calls + 1) == ReplyLost
    ensures var first := CreatePerson(fates, id, d, p);
            var second := CreateAll(again, id, first.device, ps).device;
            && first.report.steps == Steps(Failed, Skipped, Skipped)
            && first.device.applied == d.applied + [ToUserWrite(Create, p)]
            && first.device.applied <= second.applied && NoneAbout(Between(first.device, second), p.userId)
  {
    var first := CreatePerson(fates, id, d, p);
    ExistingUsersAreNotWritten(again, id, first.device, ps, p.userId);
  }
}
