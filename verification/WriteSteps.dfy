/** What one person's writes do on a device, for creation and update, request by request
    (`applyWrite`, src/domain/identity-write/identity-write-service.ts). */
module WriteSteps {
  import opened Common
  import opened Text
  import opened BulkCreate

  // ---------------------------------------------------------------- request by request

  /** A write reaches the device unless it is rejected. */
  ghost function Took(f: Fate, w: Write): seq<Write> { if f == Rejected then [] else [w] }

  /** A step is reported as a success exactly when the reply said so. */
  ghost function Told(f: Fate): Status { if f == Accepted then Success else Failed }

  ghost function UserPart(p: Person, op: Operation, user: Fate): seq<Write> {
    Took(user, UserWrite(op, p.userId, p.displayName, p.details))
  }

  /** A card without a name of its own carries the person's. */
  ghost function CardPart(p: Person, op: Operation, card: Fate): seq<Write> {
    match p.card
    case None => []
    case Some(c) =>
      Took(card, CardWrite(op, p.userId, c.cardNo, match c.cardName case Some(name) => name case None => p.displayName,
                           c.cardType, c.cardStatus))
  }

  /** An update asks first whether there is a face; without an answer nothing is written. */
  ghost function FacePart(p: Person, op: Operation, hadFace: bool, lookup: Fate, face: Fate): seq<Write> {
    if p.face.None? || (op == Update && lookup != Accepted) then []
    else
      var w := ToFaceWrite(op, p);
      Took(face, FaceWrite(if op == Update && hadFace then Update else Create, p.userId, w.photoData, w.photoUrl))
  }

  /** The request numbers of a person: the user write, the card write, the face lookup and the face write. */
  ghost predicate Numbered(d: Device, p: Person, op: Operation, card: nat, lookup: nat, face: nat) {
    && card == d.calls + 1
    && lookup == card + (if p.card.Some? then 1 else 0)
    && face == lookup + (if op == Update then 1 else 0)
  }

  /** A failed step makes the report a failure with its code. */
  ghost predicate Noted(before: Report, after: Report, failed: bool) {
    && after.userId == before.userId && after.deviceId == before.deviceId
    && after.status == (if failed then Failed else before.status)
    && after.code == (if failed then Some(WriteFailed) else before.code)
  }

  lemma CardPhaseMeaning(fates: Fates, id: string, op: Operation, before: Done, p: Person)
    ensures var after, f := CardPhase(fates, id, op, before, p), fates(id, before.device.calls);
            && after.device.applied == before.device.applied + CardPart(p, op, f)
            && after.device.faces == before.device.faces
            && after.device.calls == before.device.calls + (if p.card.Some? then 1 else 0)
            && after.report.steps ==
               before.report.steps.(card := if p.card.Some? then Told(f) else before.report.steps.card)
            && Noted(before.report, after.report, p.card.Some? && f != Accepted)
  {}

  lemma FacePhaseMeaning(fates: Fates, id: string, op: Operation, before: Done, p: Person)
    ensures var after := FacePhase(fates, id, op, before, p);
            var asked := fates(id, before.device.calls);
            var f := fates(id, before.device.calls + if op == Update then 1 else 0);
            && after.device.applied ==
               before.device.applied + FacePart(p, op, p.userId in before.device.faces, asked, f)
            && after.report.steps ==
               before.report.steps.(face := if p.face.None? then before.report.steps.face
                                            else if op == Update && asked != Accepted then Failed else Told(f))
            && Noted(before.report, after.report,
                     p.face.Some? && ((op == Update && asked != Accepted) || f != Accepted))
  {}

  /** Main result for one person: which writes the device carries out and what each step reports, from the fates of the
      single requests. A failed user step leaves the rest undone; a failed card step does not keep the face from being
      written. */
  lemma PersonIsWritten(fates: Fates, id: string, op: Operation, d: Device, p: Person, card: nat, lookup: nat,
                        face: nat)
    requires Numbered(d, p, op, card, lookup, face)
    ensures var done := WritePerson(fates, id, op, Done(d, NewReport(id, p.userId)), p);
            var user := fates(id, d.calls);
            if user != Accepted then
              && done.device.applied == d.applied + UserPart(p, op, user)
              && done.report == Report(p.userId, id, Failed, Steps(Failed, Skipped, Skipped), Some(WriteFailed))
            else
              && done.device.applied ==
                 d.applied + UserPart(p, op, user) + CardPart(p, op, fates(id, card))
                 + FacePart(p, op, p.userId in d.faces, fates(id, lookup), fates(id, face))
              && done.report.steps.user == Success
              && done.report.steps.card == (if p.card.None? then Skipped else Told(fates(id, card)))
              && done.report.steps.face ==
                 (if p.face.None? then Skipped
                  else if op == Update && fates(id, lookup) != Accepted then Failed else Told(fates(id, face)))
              && var failed := done.report.steps.card == Failed || done.report.steps.face == Failed;
                 done.report == Report(p.userId, id, if failed then Failed else Success, done.report.steps,
                                       if failed then Some(WriteFailed) else None)
  {
    var user := OneStep(fates, id, Done(d, NewReport(id, p.userId)), ToUserWrite(op, p), UserStep);
    CardPhaseMeaning(fates, id, op, user, p);
    FacePhaseMeaning(fates, id, op, CardPhase(fates, id, op, user, p), p);
  }

  /** Users and faces on the device are those it had and those a write brought. */
  lemma DeviceKnowsWhatItTook(fates: Fates, id: string, d: Device, w: Write)
    ensures var u := Sent(fates, id, d, w);
            && (forall x :: x in u.users <==>
                  x in d.users || (u.applied != d.applied && w.UserWrite? && x == w.userId))
            && (forall x :: x in u.faces <==>
                  x in d.faces || (u.applied != d.applied && w.FaceWrite? && x == w.userId))
            && (u.applied != d.applied <==> fates(id, d.calls) != Rejected) && u.calls == d.calls + 1
  {
    assert |d.applied + [w]| > |d.applied|;
  }

  /** After an update that is accepted throughout the device has the face, so the next one updates it. */
  lemma SecondUpdateUpdatesFace(fates: Fates, id: string, d: Device, p: Person)
    requires p.face.Some? && forall n :: fates(id, n) == Accepted
    ensures p.userId in WritePerson(fates, id, Update, Done(d, NewReport(id, p.userId)), p).device.faces
  {}

  // ---------------------------------------------------------------- what a face request carries

  lemma OneItem(x: string)
    ensures NonBlank([x]) == if Trim(x) != "" then [x] else []
  {
    assert [x][1..] == [];
  }

  lemma ItemInFront(x: string, rest: seq<string>)
    ensures NonBlank([x] + rest) == NonBlank([x]) + NonBlank(rest)
  {
    OneItem(x);
    assert ([x] + rest)[1..] == rest;
  }

  lemma Grouped<T>(a: seq<T>, b: seq<T>, c: seq<T>)
    ensures a + (b + c) == (a + b) + c
  {}

  /** Pictures are sent in the order given, without the blank ones: item by item. */
  lemma {:induction false} NonBlankInOrder(a: seq<string>, b: seq<string>)
    ensures NonBlank(a + b) == NonBlank(a) + NonBlank(b)
  {
    if a == [] {
      assert a + b == b && [] + NonBlank(b) == NonBlank(b);
    } else {
      NonBlankInOrder(a[1..], b);
      OneItemMore(a[0], a[1..], b);
      assert a == [a[0]] + a[1..];
      Grouped([a[0]], a[1..], b);
    }
  }

  lemma OneItemMore(x: string, rest: seq<string>, b: seq<string>)
    requires NonBlank(rest + b) == NonBlank(rest) + NonBlank(b)
    ensures NonBlank([x] + (rest + b)) == NonBlank([x] + rest) + NonBlank(b)
  {
    ItemInFront(x, rest);
    ItemInFront(x, rest + b);
    Grouped(NonBlank([x]), NonBlank(rest), NonBlank(b));
  }

  /** The request carries the pictures that are not blank; without one, the links that are not blank. */
  lemma FaceCarriesNonBlank(op: Operation, p: Person)
    requires p.face.Some?
    ensures var f, w := p.face.value, ToFaceWrite(op, p);
            var pictures := match f.photosBase64 case Some(s) => NonBlank(s) case None => [];
            var links := match f.photoUrls case Some(s) => NonBlank(s) case None => [];
            && w.photoData == (if pictures != [] then Some(pictures) else None)
            && w.photoUrl == (if pictures == [] && links != [] then Some(links) else None)
  {}
}
