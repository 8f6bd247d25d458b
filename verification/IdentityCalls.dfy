/** Which calls of `bulkCreate` are refused, and what is reported for devices that are not assigned
    (src/domain/identity-write/identity-write-service.ts, src/domain/identity-write/identity-write-support.ts). */
module IdentityCalls {
  import opened Common
  import opened Text
  import opened Registry
  import opened BulkCreate
  import opened IdentityWrite

  // ---------------------------------------------------------------- refused calls

  ghost predicate Blank(s: string) { forall c :: c in s ==> IsSpace(c) }

  lemma {:induction false} TrimStartEmpties(s: string)
    ensures TrimStart(s) == "" <==> Blank(s)
    ensures Blank(TrimStart(s)) <==> Blank(s)
  {
    if s != "" && IsSpace(s[0]) {
      TrimStartEmpties(s[1..]);
      assert s == [s[0]] + s[1..];
    } else if s != "" {
      assert s[0] in s;
    }
  }

  lemma {:induction false} TrimEndEmpties(s: string)
    ensures TrimEnd(s) == "" <==> Blank(s)
  {
    if s != "" && IsSpace(s[|s| - 1]) {
      TrimEndEmpties(s[..|s| - 1]);
      assert s == s[..|s| - 1] + [s[|s| - 1]];
    } else if s != "" {
      assert s[|s| - 1] in s;
    }
  }

  lemma TrimEmptiesBlank(s: string)
    ensures Trim(s) == "" <==> Blank(s)
  {
    TrimStartEmpties(s);
    TrimEndEmpties(TrimStart(s));
  }

  ghost predicate HasItems(o: Option<seq<string>>) { o.Some? && |o.value| > 0 }

  /** An id, a name, a number on the card if there is one, and a picture or a link for the face if there is one; texts
      of white space do not count. */
  ghost predicate Fit(p: Person) {
    && !Blank(p.userId) && !Blank(p.displayName)
    && (match p.card case None => true case Some(card) => !Blank(card.cardNo))
    && match p.face
       case None => true
       case Some(face) => HasItems(face.photosBase64) || HasItems(face.photoUrls)
  }

  lemma FitExactly(p: Person)
    ensures ValidPerson(p) <==> Fit(p)
  {
    TrimEmptiesBlank(p.userId);
    TrimEmptiesBlank(p.displayName);
    if p.card.Some? {
      TrimEmptiesBlank(p.card.value.cardNo);
    }
  }

  /** A list of persons is accepted exactly when it is not empty and everyone on it is fit. */
  lemma ValidExactly(ps: seq<Person>)
    ensures ValidPersons(ps) <==> |ps| > 0 && forall p :: p in ps ==> Fit(p)
  {
    forall i | 0 <= i < |ps| ensures ValidPerson(ps[i]) <==> Fit(ps[i]) {
      FitExactly(ps[i]);
    }
    assert forall i :: 0 <= i < |ps| ==> ps[i] in ps;
  }

  // ---------------------------------------------------------------- targets

  /** The devices asked for. */
  ghost function AskedFor(current: Assigned, target: Target): seq<string> {
    match target
    case AllAssigned => current.order
    case OneDevice(id) => [id]
    case Devices(ids) => ids
  }

  lemma {:induction false} KeptOnceEach(current: Assigned, ids: seq<string>)
    ensures multiset(KeepAssigned(current, ids, true)) + multiset(KeepAssigned(current, ids, false)) == multiset(ids)
  {
    if ids != [] {
      KeptOnceEach(current, ids[1..]);
      assert ids == [ids[0]] + ids[1..];
    }
  }

  /** Every device asked for is written to when it is assigned and reported missing when it is not, once per mention;
      the call is refused exactly when the one device asked for is not assigned. */
  lemma TargetsAreSplit(current: Assigned, target: Target)
    requires current.Valid()
    ensures multiset(Found(current, target)) + multiset(Missing(current, target)) ==
            multiset(AskedFor(current, target))
    ensures forall id :: id in Found(current, target) ==> id in current.at
    ensures forall id :: id in Missing(current, target) ==> id !in current.at
    ensures NotTargeted(current, target) <==> target.OneDevice? && Found(current, target) == []
  {
    var ids := AskedFor(current, target);
    KeptOnceEach(current, ids);
    KeptAre(current, ids, true);
    KeptAre(current, ids, false);
    if target.AllAssigned? {
      NoneIsMissing(current, current.order);
    }
    if target.OneDevice? {
      assert target.id in ids;
    }
  }

  lemma {:induction false} NoneIsMissing(current: Assigned, ids: seq<string>)
    requires forall id :: id in ids ==> id in current.at
    ensures KeepAssigned(current, ids, false) == []
  {
    if ids != [] {
      assert ids == [ids[0]] + ids[1..];
      NoneIsMissing(current, ids[1..]);
    }
  }

  // ---------------------------------------------------------------- devices that are not assigned

  /** The report at a position says that the device is not there and nothing was done for the person. */
  ghost predicate ReportsMissing(reports: seq<Report>, ids: seq<string>, ps: seq<Person>, i: nat, j: nat) {
    && i < |ids| && j < |ps| && i * |ps| + j < |reports|
    && var r := reports[i * |ps| + j];
       && r.deviceId == ids[i] && r.userId == ps[j].userId && r.status == Failed && r.code == Some(DeviceNotFound)
       && r.steps == Steps(Skipped, Skipped, Skipped)
  }

  lemma {:induction false} MissingDevicesAreReported(ids: seq<string>, ps: seq<Person>)
    ensures |AllMissing(ids, ps)| == |ids| * |ps|
    ensures forall i, j :: 0 <= i < |ids| && 0 <= j < |ps| ==> ReportsMissing(AllMissing(ids, ps), ids, ps, i, j)
  {
    if ids != [] {
      var init := ids[..|ids| - 1];
      MissingDevicesAreReported(init, ps);
      OneTimesMore(|init|, |ps|);
      forall i, j | 0 <= i < |ids| && 0 <= j < |ps| ensures ReportsMissing(AllMissing(ids, ps), ids, ps, i, j) {
        if i < |init| {
          assert ReportsMissing(AllMissing(init, ps), init, ps, i, j);
        }
      }
    }
  }
}
