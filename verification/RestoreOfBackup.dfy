/** When the restore of a backup goes through, read off the tree that was backed up and the tree it is
    restored over. */
module RestoreOfBackup {
  import opened Common
  import opened Manifests
  import opened FileTree
  import opened TreeMoves
  import opened BundleFiles
  import opened BackupVerify
  import opened BackupCreate
  import opened BackupRestore
  import opened RestoreSafety
  import opened RestoreTotality
  import opened BackupRoundTrip

  // ---------------------------------------------------------------- the condition

  ghost predicate InsideAny(places: set<Path>, q: Path) { exists p :: p in places && p <= q }

  /** What a restore finds on the way to its next target: at and below the targets already restored what was
      backed up, and elsewhere what is there. */
  ghost function Seen(t0: Tree, t2: Tree, restored: set<Path>, q: Path): Option<Node> {
    if InsideAny(restored, q) then Get(t0, q) else Get(t2, q)
  }

  /** Every place above the target is a directory or free. */
  ghost predicate WayClear(t0: Tree, t2: Tree, restored: set<Path>, target: Path) {
    forall q :: q <= target && q != target ==> OpenNode(Seen(t0, t2, restored, q))
  }

  /** The way to each section's target is clear when its turn comes. */
  ghost predicate SectionsClear(t0: Tree, t2: Tree, c: Config) {
    && WayClear(t0, t2, {}, DataDir(c))
    && WayClear(t0, t2, {DataDir(c)}, EnvFile(c))
    && (HasLicense(t0, c) ==> WayClear(t0, t2, {DataDir(c), EnvFile(c)}, c.root + c.license.value))
  }

  /** Logs that are captured or found can be put back. */
  ghost predicate LogsClear(t0: Tree, t2: Tree, c: Config, captured: bool) {
    captured || LogDir(c) in t2 ==> WayClear(t0, t2, SavedTargets(t0, c), LogDir(c))
  }

  ghost predicate Clear(t0: Tree, t2: Tree, c: Config, safety: Path, captured: bool) {
    Openable(t2, safety) && SectionsClear(t0, t2, c) && LogsClear(t0, t2, c, captured)
  }

  // ---------------------------------------------------------------- one target

  /** Targets restored so far: away from the logs they are back, inside the logs nothing else than what was
      there has come, and above them no file is in the way. */
  ghost predicate Restoring(t0: Tree, t2: Tree, ms: seq<Move>, targets: set<Path>, log: Path) {
    && (forall k :: 0 <= k < |ms| ==> ms[k].dst in targets)
    && Back(t0, t2, ms, targets, log)
    && (forall p, q :: p in targets && p <= q ==> After(t2, ms, q) in {None, Some(Dir), Get(t0, q)})
    && forall p, q :: p in targets && q <= p && !InsideAny(targets, q) ==> OpenNode(Get(t2, q))
  }

  /** A source has nothing else than `t0` had at the destination. */
  ghost predicate SuppliesOnly(t2: Tree, t0: Tree, m: Move) {
    forall r :: Get(t2, m.src + r) in {None, Get(t0, m.dst + r)}
  }

  lemma PlaceExactly(t0: Tree, t2: Tree, ms: seq<Move>, targets: set<Path>, log: Path, dst: Path, q: Path)
    requires FileTree.WellFormed(t0) && Restoring(t0, t2, ms, targets, log) && (dst in t0 || dst == log)
    requires q <= dst && q != dst
    ensures OpenNode(After(t2, ms, q)) <==> OpenNode(Seen(t0, t2, targets, q))
  {
    if InsideAny(targets, q) {
      if dst in t0 {
        AboveExisting(t0, dst, q);
      }
    } else {
      AfterUntouched(t2, ms, q);
    }
  }

  lemma WayExactly(t0: Tree, t2: Tree, ms: seq<Move>, targets: set<Path>, log: Path, dst: Path)
    requires FileTree.WellFormed(t0) && Restoring(t0, t2, ms, targets, log) && (dst in t0 || dst == log)
    ensures (forall j :: 0 <= j < |dst| ==> After(t2, ms, dst[..j]) in {None, Some(Dir)}) <==>
            WayClear(t0, t2, targets, dst)
  {
    forall q | q <= dst && q != dst
      ensures OpenNode(After(t2, ms, q)) <==> OpenNode(Seen(t0, t2, targets, q))
      ensures q == dst[..|q|]
    {
      PlaceExactly(t0, t2, ms, targets, log, dst, q);
    }
    forall j | 0 <= j < |dst| ensures dst[..j] <= dst && dst[..j] != dst {}
  }

  lemma OneWayMore(t0: Tree, t2: Tree, ms: seq<Move>, targets: set<Path>, log: Path, m: Move)
    requires FileTree.WellFormed(t0) && (m.dst in t0 || m.dst == log)
    requires AllWaysOpen(t2, ms) ==> Restoring(t0, t2, ms, targets, log)
    ensures AllWaysOpen(t2, ms + [m]) <==> AllWaysOpen(t2, ms) && WayClear(t0, t2, targets, m.dst)
  {
    LastWay(t2, ms + [m]);
    assert (ms + [m])[..|ms|] == ms;
    if AllWaysOpen(t2, ms) {
      WayExactly(t0, t2, ms, targets, log, m.dst);
    }
  }

  lemma RestoringMore(t0: Tree, t2: Tree, ms: seq<Move>, targets: set<Path>, log: Path, m: Move)
    requires FileTree.WellFormed(t0) && Restoring(t0, t2, ms, targets, log) && WayClear(t0, t2, targets, m.dst)
    requires m.dst in t0 && Supplies(t2, t0, m, log) && SuppliesOnly(t2, t0, m)
    ensures Restoring(t0, t2, ms + [m], targets + {m.dst}, log)
  {
    var targets' := targets + {m.dst};
    BackMore(t0, t2, ms, targets, log, m);
    forall p, q | p in targets' && p <= q ensures After(t2, ms + [m], q) in {None, Some(Dir), Get(t0, q)} {
      AfterOneMore(t2, ms, m, q);
      if m.dst <= q {
        Beneath(m.dst, q);
      }
    }
    forall p, q | p in targets' && q <= p && !InsideAny(targets', q) ensures OpenNode(Get(t2, q)) {
      assert forall x :: x in targets ==> x in targets';
      assert !InsideAny(targets, q);
      if p !in targets {
        assert q != m.dst;
        assert OpenNode(Seen(t0, t2, targets, q));
      }
    }
  }

  /** One section more: its way is open exactly when it is clear, and then the section is back. */
  lemma SectionMore(t0: Tree, t2: Tree, ms: seq<Move>, targets: set<Path>, log: Path, m: Move)
    requires FileTree.WellFormed(t0) && m.dst in t0 && Supplies(t2, t0, m, log) && SuppliesOnly(t2, t0, m)
    requires AllWaysOpen(t2, ms) ==> Restoring(t0, t2, ms, targets, log)
    ensures AllWaysOpen(t2, ms + [m]) <==> AllWaysOpen(t2, ms) && WayClear(t0, t2, targets, m.dst)
    ensures AllWaysOpen(t2, ms + [m]) ==> Restoring(t0, t2, ms + [m], targets + {m.dst}, log)
  {
    OneWayMore(t0, t2, ms, targets, log, m);
    if AllWaysOpen(t2, ms + [m]) {
      RestoringMore(t0, t2, ms, targets, log, m);
    }
  }

  // ---------------------------------------------------------------- all of them

  lemma AdapterWay(t0: Tree, t2: Tree, c: Config, bundle: Path, selected: seq<Path>)
    requires FileTree.WellFormed(t0) && DataDir(c) in t0 && BundleHolds(t0, t2, c, bundle, selected)
    ensures var ms := [AdapterMove(c, bundle)];
            && (AllWaysOpen(t2, ms) <==> WayClear(t0, t2, {}, DataDir(c)))
            && (AllWaysOpen(t2, ms) ==> Restoring(t0, t2, ms, {DataDir(c)}, LogDir(c)))
  {
    var m := AdapterMove(c, bundle);
    AdapterSupplies(t0, t2, c, bundle);
    forall r ensures Get(t2, m.src + r) in {None, Get(t0, m.dst + r)} {
      assert Get(t2, bundle + ["adapter"] + r) == AdapterPart(t0, c)(r);
    }
    SectionMore(t0, t2, [], {}, LogDir(c), m);
    assert [] + [m] == [m] && {} + {m.dst} == {m.dst};
  }

  lemma RequiredWays(t0: Tree, t2: Tree, c: Config, bundle: Path, selected: seq<Path>)
    requires FileTree.WellFormed(t0) && EnvFile(c) in t0 && DataDir(c) in t0 && BundleHolds(t0, t2, c, bundle, selected)
    ensures var ms := [AdapterMove(c, bundle)] + [ConfigMove(c, bundle)];
            && (AllWaysOpen(t2, ms) <==>
                WayClear(t0, t2, {}, DataDir(c)) && WayClear(t0, t2, {DataDir(c)}, EnvFile(c)))
            && (AllWaysOpen(t2, ms) ==> Restoring(t0, t2, ms, {DataDir(c), EnvFile(c)}, LogDir(c)))
  {
    AdapterWay(t0, t2, c, bundle, selected);
    ConfigSupplies(t0, t2, c, bundle);
    SectionMore(t0, t2, [AdapterMove(c, bundle)], {DataDir(c)}, LogDir(c), ConfigMove(c, bundle));
    assert {DataDir(c)} + {EnvFile(c)} == {DataDir(c), EnvFile(c)};
  }

  lemma SectionWays(t0: Tree, t2: Tree, c: Config, bundle: Path, selected: seq<Path>)
    requires FileTree.WellFormed(t0) && EnvFile(c) in t0 && DataDir(c) in t0 && BundleHolds(t0, t2, c, bundle, selected)
    ensures AllWaysOpen(t2, SectionMoves(t0, c, bundle)) <==> SectionsClear(t0, t2, c)
    ensures AllWaysOpen(t2, SectionMoves(t0, c, bundle)) ==>
              Restoring(t0, t2, SectionMoves(t0, c, bundle), SavedTargets(t0, c), LogDir(c))
  {
    RequiredWays(t0, t2, c, bundle, selected);
    var ms := [AdapterMove(c, bundle)] + [ConfigMove(c, bundle)];
    if HasLicense(t0, c) {
      LicenseWay(t0, t2, c, bundle, ms);
      assert SectionMoves(t0, c, bundle) == ms + [LicenseMove(c, bundle)];
    } else {
      assert SectionMoves(t0, c, bundle) == ms && SavedTargets(t0, c) == {DataDir(c), EnvFile(c)};
    }
  }

  lemma LicenseWay(t0: Tree, t2: Tree, c: Config, bundle: Path, ms: seq<Move>)
    requires FileTree.WellFormed(t0) && HasLicense(t0, c) && Holds(t2, bundle + ["license"], LicensePart(t0, c))
    requires AllWaysOpen(t2, ms) ==> Restoring(t0, t2, ms, {DataDir(c), EnvFile(c)}, LogDir(c))
    ensures var m := LicenseMove(c, bundle);
            && (AllWaysOpen(t2, ms + [m]) <==>
                AllWaysOpen(t2, ms) && WayClear(t0, t2, {DataDir(c), EnvFile(c)}, m.dst))
            && (AllWaysOpen(t2, ms + [m]) ==> Restoring(t0, t2, ms + [m], SavedTargets(t0, c), LogDir(c)))
  {
    var m := LicenseMove(c, bundle);
    LicenseSupplies(t0, t2, c, bundle);
    SectionMore(t0, t2, ms, {DataDir(c), EnvFile(c)}, LogDir(c), m);
    assert SavedTargets(t0, c) == {DataDir(c), EnvFile(c)} + {m.dst};
  }

  lemma LogWay(t0: Tree, t2: Tree, c: Config, bundle: Path, safety: Path, selected: seq<Path>, kept: Option<Path>)
    requires FileTree.WellFormed(t0) && EnvFile(c) in t0 && DataDir(c) in t0 && BundleHolds(t0, t2, c, bundle, selected)
    requires selected == [] ==> (kept.Some? <==> LogDir(c) in t2)
    ensures AllWaysOpen(t2, SectionMoves(t0, c, bundle) + LogMoves(c, bundle, safety, selected != [], kept)) <==>
            SectionsClear(t0, t2, c) && LogsClear(t0, t2, c, selected != [])
  {
    var ms, log := SectionMoves(t0, c, bundle), LogDir(c);
    SectionWays(t0, t2, c, bundle, selected);
    if selected != [] || kept.Some? {
      var src := if selected != [] then bundle + ["logs"] else safety + [PRESERVED];
      OneWayMore(t0, t2, ms, SavedTargets(t0, c), log, Move(src, log));
    } else {
      assert ms + [] == ms;
    }
  }

  /** The restore may start, and these are its moves. */
  lemma MovesToMake(t0: Tree, t2: Tree, c: Config, bundle: Path, safety: Path, sections: seq<Section>,
                    selected: seq<Path>)
    requires EnvFile(c) in t0 && DataDir(c) in t0 && FileTree.WellFormed(t2) && NothingAt(t2, safety)
    requires Layout(c, bundle, safety) && BundleHolds(t0, t2, c, bundle, selected)
    requires SectionsFor(c, sections, HasLicense(t0, c), selected != [])
    ensures RestoreReady(t2, c.root, bundle, safety, sections)
    ensures var kept := KeptLogs(t2, c.root, sections);
            && FinalMoves(c.root, bundle, safety, sections, kept) ==
               SectionMoves(t0, c, bundle) + LogMoves(c, bundle, safety, selected != [], kept)
            && (selected == [] ==> (kept.Some? <==> LogDir(c) in t2))
  {
    SeparatePlaces(c, sections, HasLicense(t0, c), selected != []);
    SeparateTargets(t0, c, bundle, safety, sections, selected != []);
    PlacesArePresent(t0, t2, c, bundle, sections, selected);
    LogsKeptUnlessCaptured(c, sections, HasLicense(t0, c), selected != []);
    MovesOfRestore(t0, c, bundle, safety, sections, selected != [], KeptLogs(t2, c.root, sections));
  }

  /** Main result: the restore of a backup goes through exactly when the ways are clear, and then
      `RestoreUndoesChanges` says what it restores. */
  lemma RestoreOfBackupGoesThrough(t0: Tree, t1: Tree, t2: Tree, c: Config, bundle: Path, safety: Path, sha: Sha,
                                   o: Options, version: string, m: Manifest, selected: seq<Path>, report: string)
    requires FileTree.WellFormed(t0) && Creatable(t0, c, bundle, o, Some(version))
    requires Captured(t0, t1, c, bundle, sha, o, version, m, selected)
    requires selected != [] ==> TakesLogs(t0, c, o.includeLogs)
    requires FileTree.WellFormed(t2) && SameBelow(t1, t2, bundle) && NothingAt(t2, safety) && Layout(c, bundle, safety)
    ensures Restore(t2, c.root, bundle, safety, report, m).Some? <==> Clear(t0, t2, c, safety, selected != [])
  {
    BundleStillHolds(t0, t1, t2, c, bundle, sha, o, version, m, selected);
    MovesToMake(t0, t2, c, bundle, safety, m.sections, selected);
    RestoreGoesThrough(t2, c.root, bundle, safety, report, m);
    LogWay(t0, t2, c, bundle, safety, selected, KeptLogs(t2, c.root, m.sections));
  }

  // ---------------------------------------------------------------- a restore of a backup that stops half way

  /** A file of the backed-up data directory stands above the logs to put back. */
  ghost predicate FileAboveLogs(t0: Tree, c: Config, q: Path) {
    DataDir(c) <= q && q <= LogDir(c) && q != LogDir(c) && IsFile(t0, q)
  }

  lemma FileShutsLogWay(t0: Tree, t2: Tree, c: Config, q: Path)
    requires FileAboveLogs(t0, c, q)
    ensures !WayClear(t0, t2, SavedTargets(t0, c), LogDir(c))
  {
    assert DataDir(c) in SavedTargets(t0, c);
    assert InsideAny(SavedTargets(t0, c), q);
    assert !OpenNode(Seen(t0, t2, SavedTargets(t0, c), q));
  }

  /** A part of the final moves that finds its ways open is carried out. */
  lemma EarlierMovesGoThrough(t: Tree, root: Path, backup: Path, safety: Path, report: string, m: Manifest,
                              ms: seq<Move>, more: seq<Move>)
    requires RestoreReady(t, root, backup, safety, m.sections) && Openable(t, safety) && |more| <= 1
    requires FinalMoves(root, backup, safety, m.sections, KeptLogs(t, root, m.sections)) == ms + more
    requires AllWaysOpen(t, ms) && forall k :: 0 <= k < |ms| ==> backup <= ms[k].src
    ensures var p := Prepare(t, root, safety, report, m.sections); p.Some? && ReplaceAll(p.value.tree, ms).Some?
  {
    PrepareGoesThrough(t, root, backup, safety, report, m.sections);
    PreparedTree(t, root, backup, safety, report, m.sections);
    var p := Prepare(t, root, safety, report, m.sections).value;
    FinalMovesAreApart(t, root, backup, safety, m.sections, p.kept);
    SourcesArePresent(t, root, backup, safety, report, m);
    assert forall k :: 0 <= k < |ms| ==> (ms + more)[k] == ms[k];
    SameWaysOpen(t, p.tree, backup, safety, ms);
    ReplaceAllGoesThrough(p.tree, ms);
  }

  lemma SectionsComeFromBundle(t0: Tree, c: Config, bundle: Path)
    ensures var ms := SectionMoves(t0, c, bundle); forall k :: 0 <= k < |ms| ==> bundle <= ms[k].src
  {
    assert bundle <= AdapterMove(c, bundle).src && bundle <= ConfigMove(c, bundle).src;
  }

  /** The section moves of a restore without captured logs. */
  lemma SectionsGoThrough(t0: Tree, t2: Tree, c: Config, bundle: Path, safety: Path, m: Manifest, report: string)
    requires FileTree.WellFormed(t0) && EnvFile(c) in t0 && DataDir(c) in t0
    requires FileTree.WellFormed(t2) && NothingAt(t2, safety) && Layout(c, bundle, safety)
    requires BundleHolds(t0, t2, c, bundle, []) && SectionsFor(c, m.sections, HasLicense(t0, c), false)
    requires Openable(t2, safety) && SectionsClear(t0, t2, c)
    ensures var p := Prepare(t2, c.root, safety, report, m.sections);
            p.Some? && ReplaceAll(p.value.tree, SectionMoves(t0, c, bundle)).Some?
  {
    MovesToMake(t0, t2, c, bundle, safety, m.sections, []);
    SectionWays(t0, t2, c, bundle, []);
    SectionsComeFromBundle(t0, c, bundle);
    var kept := KeptLogs(t2, c.root, m.sections);
    EarlierMovesGoThrough(t2, c.root, bundle, safety, report, m, SectionMoves(t0, c, bundle),
                          LogMoves(c, bundle, safety, false, kept));
  }

  /** A finished backup verifies and its restore fails when a file of its data directory stands above logs that
      are kept; with the other ways clear every section has been replaced by then. */
  lemma RestoreOfBackupStopsHalfWay(t0: Tree, t1: Tree, t2: Tree, c: Config, bundle: Path, safety: Path, sha: Sha,
                                    o: Options, version: string, m: Manifest, report: string, q: Path)
    requires FileTree.WellFormed(t0) && Creatable(t0, c, bundle, o, Some(version)) && o.id != "" && o.maxLogFiles >= 0
    requires Captured(t0, t1, c, bundle, sha, o, version, m, [])
    requires FileTree.WellFormed(t2) && SameBelow(t1, t2, bundle) && NothingAt(t2, safety) && Layout(c, bundle, safety)
    requires LogDir(c) in t2 && FileAboveLogs(t0, c, q)
    ensures Verify(t2, bundle, sha, Some(version), false) == Some(m)
    ensures Restore(t2, c.root, bundle, safety, report, m).None?
    ensures Openable(t2, safety) && SectionsClear(t0, t2, c) ==>
              var p := Prepare(t2, c.root, safety, report, m.sections);
              p.Some? && ReplaceAll(p.value.tree, SectionMoves(t0, c, bundle)).Some?
  {
    BundleVerifiesExactly(t0, t1, t2, c, bundle, sha, o, version, m, [], Some(version), false);
    RestoreOfBackupGoesThrough(t0, t1, t2, c, bundle, safety, sha, o, version, m, [], report);
    FileShutsLogWay(t0, t2, c, q);
    if Openable(t2, safety) && SectionsClear(t0, t2, c) {
      BundleStillHolds(t0, t1, t2, c, bundle, sha, o, version, m, []);
      SectionsGoThrough(t0, t2, c, bundle, safety, m, report);
    }
  }
}
