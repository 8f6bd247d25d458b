/** A restore can be undone by hand: the safety directory holds what was replaced, and nothing else changed. */
module RestoreSafety {
  import opened Common
  import opened Manifests
  import opened FileTree
  import opened TreeMoves
  import opened BundleFiles
  import opened BackupRestore

  /** Everything at and below `dst` in `u` is what `t` has at and below `src`. */
  ghost predicate CopyOf(t: Tree, src: Path, u: Tree, dst: Path) {
    forall r :: Get(u, dst + r) == Get(t, src + r)
  }

  // ---------------------------------------------------------------- the layout a restore works in

  /** The place of the section is written: it is captured, or its logs are kept and put back. */
  ghost predicate IsTarget(sections: seq<Section>, s: Section) {
    s.included || LogsToKeep(sections) == Some(s.restorePath)
  }

  /** Targets are proper paths apart from the bundle and the safety directory, and those are apart. */
  ghost predicate TargetsApart(root: Path, backup: Path, safety: Path, sections: seq<Section>) {
    && safety != [] && !Overlap(backup, safety)
    && forall i :: 0 <= i < |sections| && IsTarget(sections, sections[i]) ==>
         && root + sections[i].restorePath != []
         && !Overlap(root + sections[i].restorePath, safety)
         && !Overlap(root + sections[i].restorePath, backup)
  }

  /** Included sections have separate places in a bundle, apart from its manifest and the kept logs. */
  ghost predicate PlacesApart(sections: seq<Section>) {
    && (forall i :: 0 <= i < |sections| && sections[i].included ==>
          && sections[i].bundlePath != []
          && !Overlap(sections[i].bundlePath, [MANIFEST]) && !Overlap(sections[i].bundlePath, [PRESERVED]))
    && forall i, j :: 0 <= i < j < |sections| && sections[i].included && sections[j].included ==>
         !Overlap(sections[i].bundlePath, sections[j].bundlePath)
  }

  lemma OverlapBelow(d: Path, a: Path, b: Path)
    ensures Overlap(d + a, d + b) <==> Overlap(a, b)
  {
    OrderBelow(d, a, b);
    OrderBelow(d, b, a);
  }

  lemma {:induction false} LogsAmongSections(sections: seq<Section>)
    requires LogsToKeep(sections).Some?
    ensures exists i :: 0 <= i < |sections| && sections[i].restorePath == LogsToKeep(sections).value
  {
    FoundInSections(sections, Logs);
  }

  lemma {:induction false} FoundInSections(sections: seq<Section>, name: SectionName)
    ensures FindSection(sections, name).Some? ==>
              exists i :: 0 <= i < |sections| && sections[i] == FindSection(sections, name).value
                  && sections[i].name == name
    ensures FindSection(sections, name).None? ==> forall i :: 0 <= i < |sections| ==> sections[i].name != name
  {
    if sections != [] {
      FoundInSections(sections[1..], name);
      assert forall i :: 0 < i < |sections| ==> sections[i] == sections[1..][i - 1];
      if sections[0].name != name && FindSection(sections[1..], name).Some? {
        var i :| 0 <= i < |sections[1..]| && sections[1..][i] == FindSection(sections[1..], name).value
            && sections[1..][i].name == name;
        assert sections[i + 1] == sections[1..][i];
      }
    }
  }

  // ---------------------------------------------------------------- moves and the sections they come from

  lemma {:induction false} MoveFrom(plan: Plan, sections: seq<Section>, k: nat)
    requires k < |MovesFor(plan, sections)|
    ensures exists i :: 0 <= i < |sections| && sections[i].included && MovesFor(plan, sections)[k] == plan(sections[i])
  {
    var rest := sections[1..];
    if sections[0].included && k == 0 {
    } else {
      var k' := if sections[0].included then k - 1 else k;
      MoveFrom(plan, rest, k');
      var i :| 0 <= i < |rest| && rest[i].included && MovesFor(plan, rest)[k'] == plan(rest[i]);
      assert sections[i + 1] == rest[i];
    }
  }

  /** The sections two moves come from. */
  lemma {:induction false} MovesFrom(plan: Plan, sections: seq<Section>, k: nat, l: nat) returns (i: nat, j: nat)
    requires k < l < |MovesFor(plan, sections)|
    ensures i < j < |sections| && sections[i].included && sections[j].included
    ensures MovesFor(plan, sections)[k] == plan(sections[i]) && MovesFor(plan, sections)[l] == plan(sections[j])
  {
    var rest := sections[1..];
    if sections[0].included && k == 0 {
      MoveFrom(plan, rest, l - 1);
      j :| 0 <= j < |rest| && rest[j].included && MovesFor(plan, rest)[l - 1] == plan(rest[j]);
      i, j := 0, j + 1;
    } else {
      var d := if sections[0].included then 1 else 0;
      i, j := MovesFrom(plan, rest, k - d, l - d);
      i, j := i + 1, j + 1;
    }
  }

  lemma MoveOf(plan: Plan, sections: seq<Section>, i: nat)
    requires i < |sections| && sections[i].included
    ensures exists k :: 0 <= k < |MovesFor(plan, sections)| && MovesFor(plan, sections)[k] == plan(sections[i])
  {
    MovesAt(plan, sections, i);
    assert MovesFor(plan, sections)[|MovesFor(plan, sections[..i])|] == plan(sections[i]);
  }

  // ---------------------------------------------------------------- after the safety copy

  lemma SafetyMovesAreFresh(t: Tree, t1: Tree, root: Path, backup: Path, safety: Path, sections: seq<Section>)
    requires NothingAt(t, safety) && DirEnsured(t, safety, t1)
    requires TargetsApart(root, backup, safety, sections) && PlacesApart(sections)
    ensures Fresh(t1, safety, MovesFor(SafetyPlan(root, safety), sections))
  {
    var plan := SafetyPlan(root, safety);
    var ms := MovesFor(plan, sections);
    forall k | 0 <= k < |ms|
      ensures safety <= ms[k].dst && ms[k].dst != safety && !Overlap(ms[k].src, safety) && NothingAt(t1, ms[k].dst)
    {
      MoveFrom(plan, sections, k);
      var i :| 0 <= i < |sections| && sections[i].included && ms[k] == plan(sections[i]);
      assert ms[k].dst == safety + sections[i].bundlePath;
      NothingInFresh(t, t1, safety, sections[i].bundlePath);
    }
    forall k, l | 0 <= k < l < |ms| ensures !Overlap(ms[k].dst, ms[l].dst) {
      var i, j := MovesFrom(plan, sections, k, l);
      OverlapBelow(safety, sections[i].bundlePath, sections[j].bundlePath);
    }
  }

  lemma NothingInFresh(t: Tree, t1: Tree, safety: Path, r: Path)
    requires NothingAt(t, safety) && DirEnsured(t, safety, t1) && r != []
    ensures NothingAt(t1, safety + r)
  {
    forall q | q in t1 ensures !(safety + r <= q) {
      PrefixChain(safety, safety + r, q);
      assert Get(t1, q) == if q <= safety then Some(Dir) else Get(t, q);
    }
  }

  /** A proper descendant of the safety directory is never at or above a place outside it. */
  lemma OutsideIsNotBelow(safety: Path, d: Path, q: Path)
    requires safety <= d && d != safety && (!(safety <= q) || q == safety)
    ensures !(d <= q) && (q <= d ==> q <= safety)
  {
    PrefixChain(safety, d, q);
    if q <= d {
      PrefixesCompare(q, safety, d);
    }
  }

  lemma {:induction false} SavedOutside(t1: Tree, safety: Path, ms: seq<Move>, q: Path)
    requires forall i :: 0 <= i < |ms| ==> safety <= ms[i].dst && ms[i].dst != safety
    requires !(safety <= q) || q == safety
    ensures Saved(t1, ms, q) == Get(t1, q) || (q <= safety && Saved(t1, ms, q) == Some(Dir))
  {
    if ms != [] {
      SavedOutside(t1, safety, ms[..|ms| - 1], q);
      OutsideIsNotBelow(safety, ms[|ms| - 1].dst, q);
    }
  }

  /** State after the safety directory is complete: outside it only leading directories may be new, inside
      it are exact copies of every existing target and of the logs to keep. */
  lemma PreparedTree(t: Tree, root: Path, backup: Path, safety: Path, report: string, sections: seq<Section>)
    requires FileTree.WellFormed(t) && NothingAt(t, safety)
    requires TargetsApart(root, backup, safety, sections) && PlacesApart(sections)
    requires Prepare(t, root, safety, report, sections).Some?
    ensures var p := Prepare(t, root, safety, report, sections).value;
            && FileTree.WellFormed(p.tree)
            && (forall q :: !(safety <= q) ==> Get(p.tree, q) == if q <= safety then Some(Dir) else Get(t, q))
            && (forall i :: 0 <= i < |sections| && sections[i].included && root + sections[i].restorePath in t ==>
                  CopyOf(t, root + sections[i].restorePath, p.tree, safety + sections[i].bundlePath))
            && (p.kept.Some? ==>
                  && p.kept == LogsToKeep(sections) && root + p.kept.value in t
                  && CopyOf(t, root + p.kept.value, p.tree, safety + [PRESERVED]))
            && (p.kept.None? && LogsToKeep(sections).Some? ==> root + LogsToKeep(sections).value !in t)
  {
    var p := Prepare(t, root, safety, report, sections).value;
    EnsureDirMeaning(t, safety);
    var t1 := EnsureDir(t, safety).value;
    var ms := MovesFor(SafetyPlan(root, safety), sections);
    SafetyMovesAreFresh(t, t1, root, backup, safety, sections);
    SaveAllMeaning(t1, safety, ms);
    var t2 := SaveAll(t1, ms).value;
    var t3 := WriteFile(t2, safety + [MANIFEST], Content.Text(report)).value;
    SavedTree(t, t1, t2, root, backup, safety, sections);
    ReportWritten(t, t2, t3, root, safety, Content.Text(report), sections);
    if LogsToKeep(sections).Some? {
      var log := LogsToKeep(sections).value;
      LogsAmongSections(sections);
      assert !Overlap(root + log, safety);
      assert Get(t3, root + log) == Get(t, root + log);
      if root + log in t3 {
        LogsPreserved(t, t3, root, safety, log, sections, p.tree);
      }
    }
  }

  /** The part of `PreparedTree` that holds after each stage. */
  ghost predicate SafetyHolds(t: Tree, u: Tree, root: Path, safety: Path, sections: seq<Section>) {
    && FileTree.WellFormed(u)
    && (forall q :: !(safety <= q) ==> Get(u, q) == if q <= safety then Some(Dir) else Get(t, q))
    && (forall i :: 0 <= i < |sections| && sections[i].included && root + sections[i].restorePath in t ==>
          CopyOf(t, root + sections[i].restorePath, u, safety + sections[i].bundlePath))
    && IsDir(u, safety)
    && NothingAt(u, safety + [PRESERVED])
  }

  lemma SavedTree(t: Tree, t1: Tree, t2: Tree, root: Path, backup: Path, safety: Path, sections: seq<Section>)
    requires FileTree.WellFormed(t) && NothingAt(t, safety) && DirEnsured(t, safety, t1)
    requires TargetsApart(root, backup, safety, sections) && PlacesApart(sections)
    requires Fresh(t1, safety, MovesFor(SafetyPlan(root, safety), sections)) && FileTree.WellFormed(t2)
    requires forall q :: Get(t2, q) == Saved(t1, MovesFor(SafetyPlan(root, safety), sections), q)
    ensures SafetyHolds(t, t2, root, safety, sections)
  {
    var plan := SafetyPlan(root, safety);
    var ms := MovesFor(plan, sections);
    assert Get(t1, safety) == Some(Dir);
    forall q | !(safety <= q) || q == safety ensures Get(t2, q) == if q <= safety then Some(Dir) else Get(t, q) {
      SavedOutside(t1, safety, ms, q);
    }
    assert Get(t2, safety) == Some(Dir);
    forall i | 0 <= i < |sections| && sections[i].included && root + sections[i].restorePath in t
      ensures CopyOf(t, root + sections[i].restorePath, t2, safety + sections[i].bundlePath)
    {
      MoveOf(plan, sections, i);
      var k :| 0 <= k < |ms| && ms[k] == plan(sections[i]);
      forall r ensures Get(t1, ms[k].src + r) == Get(t, ms[k].src + r) {
        ApartBelow(ms[k].src, r, safety);
      }
      assert ms[k].src + [] == ms[k].src;
      assert Get(t1, ms[k].src + []) == Get(t, ms[k].src + []);
      forall r ensures Get(t2, ms[k].dst + r) == Get(t, ms[k].src + r) {
        SavedAt(t1, ms, k, r);
      }
    }
    PreservedIsFree(t, t1, t2, root, safety, sections);
  }

  lemma PreservedIsFree(t: Tree, t1: Tree, t2: Tree, root: Path, safety: Path, sections: seq<Section>)
    requires NothingAt(t, safety) && DirEnsured(t, safety, t1) && PlacesApart(sections)
    requires forall q :: Get(t2, q) == Saved(t1, MovesFor(SafetyPlan(root, safety), sections), q)
    ensures NothingAt(t2, safety + [PRESERVED])
  {
    var plan := SafetyPlan(root, safety);
    var ms := MovesFor(plan, sections);
    NothingInFresh(t, t1, safety, [PRESERVED]);
    forall q | safety + [PRESERVED] <= q ensures q !in t2 {
      forall k | 0 <= k < |ms| ensures !Overlap(q, ms[k].dst) {
        MoveFrom(plan, sections, k);
        var i :| 0 <= i < |sections| && sections[i].included && ms[k] == plan(sections[i]);
        OverlapBelow(safety, [PRESERVED], sections[i].bundlePath);
        Beneath(safety + [PRESERVED], q);
        ApartBelow(safety + [PRESERVED], q[|safety| + 1..], ms[k].dst);
      }
      SavedElsewhere(t1, ms, q);
      assert Get(t2, q) == Get(t1, q);
    }
  }

  lemma ReportWritten(t: Tree, t2: Tree, t3: Tree, root: Path, safety: Path, c: Content, sections: seq<Section>)
    requires SafetyHolds(t, t2, root, safety, sections) && PlacesApart(sections)
    requires WriteFile(t2, safety + [MANIFEST], c) == Some(t3)
    ensures SafetyHolds(t, t3, root, safety, sections)
  {
    var f := safety + [MANIFEST];
    assert Parent(f) == safety;
    assert forall q :: q != f ==> Get(t3, q) == Get(t2, q);
    FileReplacesNothing(t2, t3, f, c);
    forall i | 0 <= i < |sections| && sections[i].included && root + sections[i].restorePath in t
      ensures CopyOf(t, root + sections[i].restorePath, t3, safety + sections[i].bundlePath)
    {
      forall r ensures Get(t3, safety + sections[i].bundlePath + r) == Get(t, root + sections[i].restorePath + r) {
        OverlapBelow(safety, sections[i].bundlePath, [MANIFEST]);
        ApartBelow(safety + sections[i].bundlePath, r, f);
        assert Get(t2, safety + sections[i].bundlePath + r) == Get(t, root + sections[i].restorePath + r);
      }
    }
    forall q | q in t3 ensures !(safety + [PRESERVED] <= q) {
      if q == f {
        assert f[|safety|] == MANIFEST && (safety + [PRESERVED])[|safety|] == PRESERVED;
        assert MANIFEST[0] != PRESERVED[0];
      }
    }
  }

  lemma OutsideStays(t: Tree, t3: Tree, safety: Path, src: Path, u: Tree)
    requires forall q :: !(safety <= q) ==> Get(t3, q) == if q <= safety then Some(Dir) else Get(t, q)
    requires Placed(t3, src, safety + [PRESERVED], u)
    ensures forall q :: !(safety <= q) ==> Get(u, q) == if q <= safety then Some(Dir) else Get(t, q)
  {
    var d := safety + [PRESERVED];
    forall q | !(safety <= q) ensures Get(u, q) == if q <= safety then Some(Dir) else Get(t, q) {
      PrefixChain(safety, d, q);
      if q <= d { PrefixesCompare(q, safety, d); }
      assert Get(t3, q) == if q <= safety then Some(Dir) else Get(t, q);
    }
  }

  lemma CopyStays(t: Tree, t3: Tree, place: Path, safety: Path, bundlePath: Path, src: Path, u: Tree)
    requires CopyOf(t, place, t3, safety + bundlePath) && !Overlap(bundlePath, [PRESERVED])
    requires Placed(t3, src, safety + [PRESERVED], u)
    ensures CopyOf(t, place, u, safety + bundlePath)
  {
    forall r ensures Get(u, safety + bundlePath + r) == Get(t, place + r) {
      OverlapBelow(safety, bundlePath, [PRESERVED]);
      ApartBelow(safety + bundlePath, r, safety + [PRESERVED]);
      assert Get(t3, safety + bundlePath + r) == Get(t, place + r);
    }
  }

  lemma LogsCopied(t: Tree, t3: Tree, safety: Path, src: Path, u: Tree)
    requires forall q :: !(safety <= q) ==> Get(t3, q) == if q <= safety then Some(Dir) else Get(t, q)
    requires Placed(t3, src, safety + [PRESERVED], u) && !Overlap(src, safety)
    ensures CopyOf(t, src, u, safety + [PRESERVED])
  {
    var d := safety + [PRESERVED];
    forall r ensures Get(u, d + r) == Get(t, src + r) {
      BeneathOf(d, r);
      ApartBelow(src, r, safety);
      assert Get(t3, src + r) == Get(t, src + r);
    }
  }

  lemma LogsPreserved(t: Tree, t3: Tree, root: Path, safety: Path, log: Path, sections: seq<Section>, u: Tree)
    requires SafetyHolds(t, t3, root, safety, sections) && PlacesApart(sections) && !Overlap(root + log, safety)
    requires root + log in t3 && CopyPath(t3, root + log, safety + [PRESERVED]) == Some(u)
    ensures FileTree.WellFormed(u)
    ensures forall q :: !(safety <= q) ==> Get(u, q) == if q <= safety then Some(Dir) else Get(t, q)
    ensures forall i :: 0 <= i < |sections| && sections[i].included && root + sections[i].restorePath in t ==>
              CopyOf(t, root + sections[i].restorePath, u, safety + sections[i].bundlePath)
    ensures CopyOf(t, root + log, u, safety + [PRESERVED])
  {
    ApartBelow(safety, [PRESERVED], root + log);
    CopyPathMeaning(t3, root + log, safety + [PRESERVED]);
    OutsideStays(t, t3, safety, root + log, u);
    LogsCopied(t, t3, safety, root + log, u);
    forall i | 0 <= i < |sections| && sections[i].included && root + sections[i].restorePath in t
      ensures CopyOf(t, root + sections[i].restorePath, u, safety + sections[i].bundlePath)
    {
      CopyStays(t, t3, root + sections[i].restorePath, safety, sections[i].bundlePath, root + log, u);
    }
  }

  // ---------------------------------------------------------------- after the whole restore

  lemma FinalMovesAreApart(t: Tree, root: Path, backup: Path, safety: Path, sections: seq<Section>, kept: Option<Path>)
    requires TargetsApart(root, backup, safety, sections)
    requires kept.Some? ==> kept == LogsToKeep(sections)
    ensures Apart(FinalMoves(root, backup, safety, sections, kept))
    ensures forall k :: 0 <= k < |FinalMoves(root, backup, safety, sections, kept)| ==>
              !Overlap(safety, FinalMoves(root, backup, safety, sections, kept)[k].dst)
    ensures forall k :: 0 <= k < |FinalMoves(root, backup, safety, sections, kept)| ==>
              !Overlap(backup, FinalMoves(root, backup, safety, sections, kept)[k].dst)
  {
    var ms := FinalMoves(root, backup, safety, sections, kept);
    forall k | 0 <= k < |ms|
      ensures ms[k].dst != [] && !Overlap(safety, ms[k].dst) && !Overlap(backup, ms[k].dst)
      ensures backup <= ms[k].src || safety <= ms[k].src
    {
      MoveOrigin(root, backup, safety, sections, kept, k);
    }
    forall k, l | 0 <= k < |ms| && 0 <= l < |ms| ensures !Overlap(ms[k].src, ms[l].dst) {
      if backup <= ms[k].src {
        Beneath(backup, ms[k].src);
        ApartBelow(backup, ms[k].src[|backup|..], ms[l].dst);
      } else {
        Beneath(safety, ms[k].src);
        ApartBelow(safety, ms[k].src[|safety|..], ms[l].dst);
      }
    }
  }

  /** Every final move restores a section from the bundle, or the kept logs from the safety directory. */
  lemma MoveOrigin(root: Path, backup: Path, safety: Path, sections: seq<Section>, kept: Option<Path>, k: nat)
    requires k < |FinalMoves(root, backup, safety, sections, kept)|
    requires kept.Some? ==> kept == LogsToKeep(sections)
    ensures var m := FinalMoves(root, backup, safety, sections, kept)[k];
            (kept.Some? && m == Move(safety + [PRESERVED], root + kept.value) &&
             exists i :: 0 <= i < |sections| && sections[i].restorePath == kept.value) ||
            exists i :: 0 <= i < |sections| && sections[i].included &&
                        m == Move(backup + sections[i].bundlePath, root + sections[i].restorePath)
  {
    var plan := RestorePlan(root, backup);
    if k < |MovesFor(plan, sections)| {
      MoveFrom(plan, sections, k);
      var i :| 0 <= i < |sections| && sections[i].included && MovesFor(plan, sections)[k] == plan(sections[i]);
      assert FinalMoves(root, backup, safety, sections, kept)[k] == plan(sections[i]);
    } else {
      LogsAmongSections(sections);
    }
  }

  ghost predicate RestoreReady(t: Tree, root: Path, backup: Path, safety: Path, sections: seq<Section>) {
    && FileTree.WellFormed(t) && NothingAt(t, safety)
    && TargetsApart(root, backup, safety, sections) && PlacesApart(sections)
    && forall i :: 0 <= i < |sections| && sections[i].included ==> backup + sections[i].bundlePath in t
  }

  /** Every source of a final move stands in the prepared tree. */
  lemma SourcesArePresent(t: Tree, root: Path, backup: Path, safety: Path, report: string, m: Manifest)
    requires RestoreReady(t, root, backup, safety, m.sections) && Prepare(t, root, safety, report, m.sections).Some?
    ensures var p := Prepare(t, root, safety, report, m.sections).value;
            var ms := FinalMoves(root, backup, safety, m.sections, p.kept);
            forall k :: 0 <= k < |ms| ==> ms[k].src in p.tree
  {
    var p := Prepare(t, root, safety, report, m.sections).value;
    var ms := FinalMoves(root, backup, safety, m.sections, p.kept);
    PreparedTree(t, root, backup, safety, report, m.sections);
    forall k | 0 <= k < |ms| ensures ms[k].src in p.tree {
      MoveOrigin(root, backup, safety, m.sections, p.kept, k);
      if i :| 0 <= i < |m.sections| && m.sections[i].included &&
              ms[k] == Move(backup + m.sections[i].bundlePath, root + m.sections[i].restorePath) {
        ApartBelow(backup, m.sections[i].bundlePath, safety);
        assert Get(p.tree, ms[k].src) == Get(t, ms[k].src);
      } else {
        assert root + p.kept.value + [] == root + p.kept.value && safety + [PRESERVED] + [] == safety + [PRESERVED];
        assert Get(p.tree, safety + [PRESERVED] + []) == Get(t, root + p.kept.value + []);
      }
    }
  }

  /** The final tree, read off the prepared one move by move. */
  lemma RestoredTree(t: Tree, root: Path, backup: Path, safety: Path, report: string, m: Manifest)
    requires RestoreReady(t, root, backup, safety, m.sections) && Restore(t, root, backup, safety, report, m).Some?
    ensures var p := Prepare(t, root, safety, report, m.sections).value;
            var ms := FinalMoves(root, backup, safety, m.sections, p.kept);
            forall q :: Get(Restore(t, root, backup, safety, report, m).value, q) == After(p.tree, ms, q)
  {
    var p := Prepare(t, root, safety, report, m.sections).value;
    var ms := FinalMoves(root, backup, safety, m.sections, p.kept);
    PreparedTree(t, root, backup, safety, report, m.sections);
    FinalMovesAreApart(t, root, backup, safety, m.sections, p.kept);
    SourcesArePresent(t, root, backup, safety, report, m);
    ReplaceAllMeaning(p.tree, ms);
  }

  /** The place is a target the restore writes. */
  ghost predicate Written(root: Path, sections: seq<Section>, q: Path) {
    exists i :: 0 <= i < |sections| && root + sections[i].restorePath <= q &&
                IsTarget(sections, sections[i])
  }

  /** The place leads to a target or to the safety directory. */
  ghost predicate Leads(root: Path, safety: Path, sections: seq<Section>, q: Path) {
    q <= safety ||
    exists i :: 0 <= i < |sections| && q <= root + sections[i].restorePath &&
                IsTarget(sections, sections[i])
  }

  lemma {:induction false} AfterUntouched(t: Tree, ms: seq<Move>, q: Path)
    requires forall k :: 0 <= k < |ms| ==> !(ms[k].dst <= q)
    ensures After(t, ms, q) == Get(t, q)
              || (After(t, ms, q) == Some(Dir) && exists k :: 0 <= k < |ms| && q <= ms[k].dst)
  {
    if ms != [] {
      AfterUntouched(t, ms[..|ms| - 1], q);
    }
  }

  /** Main result: for every included section whose target existed, the safety directory holds its exact
      previous contents; and outside the targets, the kept logs and the safety directory nothing
      changed, except that directories leading to them may have been created. */
  lemma RestoreIsReversible(t: Tree, root: Path, backup: Path, safety: Path, report: string, m: Manifest)
    requires RestoreReady(t, root, backup, safety, m.sections) && Restore(t, root, backup, safety, report, m).Some?
    ensures var u := Restore(t, root, backup, safety, report, m).value;
            && (forall i :: 0 <= i < |m.sections| && m.sections[i].included && root + m.sections[i].restorePath in t ==>
                  CopyOf(t, root + m.sections[i].restorePath, u, safety + m.sections[i].bundlePath))
            && (forall q :: !(safety <= q) && !Written(root, m.sections, q) ==>
                  Get(u, q) == Get(t, q) || (Get(u, q) == Some(Dir) && Leads(root, safety, m.sections, q)))
  {
    var u := Restore(t, root, backup, safety, report, m).value;
    var p := Prepare(t, root, safety, report, m.sections).value;
    var ms := FinalMoves(root, backup, safety, m.sections, p.kept);
    PreparedTree(t, root, backup, safety, report, m.sections);
    RestoredTree(t, root, backup, safety, report, m);
    FinalMovesAreApart(t, root, backup, safety, m.sections, p.kept);
    forall i | 0 <= i < |m.sections| && m.sections[i].included && root + m.sections[i].restorePath in t
      ensures CopyOf(t, root + m.sections[i].restorePath, u, safety + m.sections[i].bundlePath)
    {
      SafetySurvives(t, u, p.tree, root, safety, m.sections[i], ms);
    }
    forall q | !(safety <= q) && !Written(root, m.sections, q)
      ensures Get(u, q) == Get(t, q) || (Get(u, q) == Some(Dir) && Leads(root, safety, m.sections, q))
    {
      forall k | 0 <= k < |ms| ensures !(ms[k].dst <= q) && (q <= ms[k].dst ==> Leads(root, safety, m.sections, q)) {
        MoveOrigin(root, backup, safety, m.sections, p.kept, k);
      }
      AfterUntouched(p.tree, ms, q);
    }
  }

  lemma SafetySurvives(t: Tree, u: Tree, mid: Tree, root: Path, safety: Path, s: Section, ms: seq<Move>)
    requires CopyOf(t, root + s.restorePath, mid, safety + s.bundlePath)
    requires forall k :: 0 <= k < |ms| ==> !Overlap(safety, ms[k].dst)
    requires forall q :: Get(u, q) == After(mid, ms, q)
    ensures CopyOf(t, root + s.restorePath, u, safety + s.bundlePath)
  {
    forall r ensures Get(u, safety + s.bundlePath + r) == Get(t, root + s.restorePath + r) {
      var q := safety + s.bundlePath + r;
      assert q == safety + (s.bundlePath + r);
      forall k | 0 <= k < |ms| ensures !Overlap(q, ms[k].dst) {
        ApartBelow(safety, s.bundlePath + r, ms[k].dst);
      }
      AfterElsewhere(mid, ms, q);
    }
  }
}
