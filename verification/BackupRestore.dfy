/** Restoring a bundle over the live tree (src/ops/backup/backup-restore.ts). */
module BackupRestore {
  import opened Common
  import opened Manifests
  import opened FileTree
  import opened TreeMoves
  import opened BundleFiles
  import opened BackupVerify

  const PRESERVED := "_preserved_logs"

  // ---------------------------------------------------------------- the copies a restore makes

  type Plan = Section -> Move

  /** The move planned for each included section, in manifest order. */
  function MovesFor(plan: Plan, sections: seq<Section>): seq<Move> {
    if sections == [] then []
    else if sections[0].included then [plan(sections[0])] + MovesFor(plan, sections[1..])
    else MovesFor(plan, sections[1..])
  }

  lemma {:induction false} MovesSplit(plan: Plan, a: seq<Section>, b: seq<Section>)
    ensures MovesFor(plan, a + b) == MovesFor(plan, a) + MovesFor(plan, b)
  {
    if a == [] {
      assert a + b == b;
    } else {
      MovesSplit(plan, a[1..], b);
      assert (a + b)[1..] == a[1..] + b;
    }
  }

  /** The move of one section. */
  function MoveOfOne(plan: Plan, s: Section): seq<Move> { if s.included then [plan(s)] else [] }

  lemma MovesForOne(plan: Plan, s: Section)
    ensures MovesFor(plan, [s]) == MoveOfOne(plan, s)
  {
    assert [s][1..] == [];
  }

  lemma MovesAround(plan: Plan, a: seq<Section>, s: Section, b: seq<Section>)
    ensures MovesFor(plan, a + [s] + b) == MovesFor(plan, a) + MoveOfOne(plan, s) + MovesFor(plan, b)
    ensures MovesFor(plan, a + [s]) == MovesFor(plan, a) + MoveOfOne(plan, s)
  {
    MovesForOne(plan, s);
    MovesSplit(plan, a, [s]);
    MovesSplit(plan, a + [s], b);
  }

  lemma SplitAround<T>(s: seq<T>, i: nat)
    requires i < |s|
    ensures s[..i + 1] == s[..i] + [s[i]] && s == s[..i] + [s[i]] + s[i + 1..]
  {}

  lemma MovesAt(plan: Plan, sections: seq<Section>, i: nat)
    requires i < |sections|
    ensures MovesFor(plan, sections) ==
            MovesFor(plan, sections[..i]) + MoveOfOne(plan, sections[i]) + MovesFor(plan, sections[i + 1..])
    ensures MovesFor(plan, sections[..i + 1]) == MovesFor(plan, sections[..i]) + MoveOfOne(plan, sections[i])
  {
    SplitAround(sections, i);
    MovesAround(plan, sections[..i], sections[i], sections[i + 1..]);
  }

  /** The current target of a section, into the safety directory. */
  function SafetyPlan(root: Path, safety: Path): Plan {
    (s: Section) => Move(root + s.restorePath, safety + s.bundlePath)
  }

  /** The bundled section, onto its target. */
  function RestorePlan(root: Path, backup: Path): Plan {
    (s: Section) => Move(backup + s.bundlePath, root + s.restorePath)
  }

  /** Current logs are kept when the data directory is restored and the bundle has no logs of its own. */
  function LogsToKeep(sections: seq<Section>): Option<Path> {
    match FindSection(sections, Logs)
    case None => None
    case Some(logs) =>
      if !logs.included && exists i :: 0 <= i < |sections| && sections[i].name == Adapter && sections[i].included
      then Some(logs.restorePath) else None
  }

  datatype Prepared = Prepared(tree: Tree, kept: Option<Path>)

  /** The safety copy and the preserved logs; `report` is the text of the safety manifest. */
  function Prepare(t: Tree, root: Path, safety: Path, report: string, sections: seq<Section>): Option<Prepared> {
    match EnsureDir(t, safety)
    case None => None
    case Some(t1) =>
      match SaveAll(t1, MovesFor(SafetyPlan(root, safety), sections))
      case None => None
      case Some(t2) =>
        match WriteFile(t2, safety + [MANIFEST], Content.Text(report))
        case None => None
        case Some(t3) =>
          match LogsToKeep(sections)
          case None => Some(Prepared(t3, None))
          case Some(log) =>
            if root + log !in t3 then Some(Prepared(t3, None))
            else match CopyPath(t3, root + log, safety + [PRESERVED])
                 case None => None
                 case Some(t4) => Some(Prepared(t4, Some(log)))
  }

  function FinalMoves(root: Path, backup: Path, safety: Path, sections: seq<Section>, kept: Option<Path>): seq<Move> {
    MovesFor(RestorePlan(root, backup), sections) +
    if kept.Some? then [Move(safety + [PRESERVED], root + kept.value)] else []
  }

  /** The tree after a restore that goes through. */
  function Restore(t: Tree, root: Path, backup: Path, safety: Path, report: string, m: Manifest): Option<Tree> {
    match Prepare(t, root, safety, report, m.sections)
    case None => None
    case Some(p) => ReplaceAll(p.tree, FinalMoves(root, backup, safety, m.sections, p.kept))
  }

  function RestoredPaths(sections: seq<Section>): seq<Path> {
    if sections == [] then []
    else
      var s := sections[|sections| - 1];
      RestoredPaths(sections[..|sections| - 1]) + if s.included then [s.restorePath] else []
  }

  lemma {:induction false} FoundIsNamed(sections: seq<Section>, name: SectionName)
    ensures FindSection(sections, name).None? <==> forall s :: s in sections ==> s.name != name
    ensures FindSection(sections, name).Some? ==>
              FindSection(sections, name).value in sections && FindSection(sections, name).value.name == name
  {
    if sections != [] {
      FoundIsNamed(sections[1..], name);
      assert sections == [sections[0]] + sections[1..];
    }
  }

  /** Current logs are kept exactly when a data section is restored and the log section, which says where they are,
      brings none. */
  lemma KeepsLogsExactly(sections: seq<Section>, logs: Section)
    requires forall s :: s in sections && s.name == Logs ==> s == logs
    ensures LogsToKeep(sections).Some? <==>
            && logs in sections && logs.name == Logs && !logs.included
            && exists s :: s in sections && s.name == Adapter && s.included
    ensures LogsToKeep(sections).Some? ==> LogsToKeep(sections).value == logs.restorePath
  {
    FoundIsNamed(sections, Logs);
    if s :| s in sections && s.name == Adapter && s.included {
      var i :| 0 <= i < |sections| && sections[i] == s;
    }
  }

  lemma OneRestored(s: Section)
    ensures RestoredPaths([s]) == if s.included then [s.restorePath] else []
  {
    assert [s][..0] == [];
  }

  lemma OneRestoredMore(a: seq<Section>, s: Section)
    ensures RestoredPaths(a + [s]) == RestoredPaths(a) + RestoredPaths([s])
  {
    OneRestored(s);
    assert (a + [s])[..|a|] == a;
  }

  lemma Grouped<T>(a: seq<T>, b: seq<T>, c: seq<T>)
    ensures a + (b + c) == (a + b) + c
  {}

  /** The paths reported are those of the included sections, in order: section by section. */
  lemma {:induction false} RestoredInOrder(a: seq<Section>, b: seq<Section>)
    ensures RestoredPaths(a + b) == RestoredPaths(a) + RestoredPaths(b)
    decreases |b|
  {
    if b == [] {
      assert a + b == a && RestoredPaths(a) + [] == RestoredPaths(a);
    } else {
      var init, last := b[..|b| - 1], b[|b| - 1];
      RestoredInOrder(a, init);
      SectionBehind(a, init, last);
      assert b == init + [last];
      Grouped(a, init, [last]);
    }
  }

  lemma SectionBehind(a: seq<Section>, b: seq<Section>, s: Section)
    requires RestoredPaths(a + b) == RestoredPaths(a) + RestoredPaths(b)
    ensures RestoredPaths((a + b) + [s]) == RestoredPaths(a) + RestoredPaths(b + [s])
  {
    OneRestoredMore(a + b, s);
    OneRestoredMore(b, s);
    Grouped(RestoredPaths(a), RestoredPaths(b), RestoredPaths([s]));
  }

  // ---------------------------------------------------------------- the imperative form

  datatype RestoreError = NotStopped | NotVerified | FileSystemError

  /** `restoreBackup`; the safety manifest's text depends on the clock and is a parameter. */
  method RestoreBackup(fs: FileSystem, root: Path, backup: Path, safety: Path, report: string, sha: Sha,
                       version: Option<string>, allowMismatch: bool, serviceStopped: bool)
    returns (r: Result<seq<Path>, RestoreError>)
    requires FileTree.WellFormed(fs.nodes) && CleanBundle(fs.nodes, backup)
    modifies fs
    ensures !serviceStopped ==> r == Err(NotStopped) && fs.nodes == old(fs.nodes)
    ensures serviceStopped ==>
              match Verify(old(fs.nodes), backup, sha, version, allowMismatch)
              case None => r == Err(NotVerified) && fs.nodes == old(fs.nodes)
              case Some(m) =>
                match Restore(old(fs.nodes), root, backup, safety, report, m)
                case None => r == Err(FileSystemError)
                case Some(u) => r == Ok(RestoredPaths(m.sections)) && fs.nodes == u
  {
    if !serviceStopped {
      return Err(NotStopped);
    }
    var verified := VerifyBackup(fs, backup, sha, version, allowMismatch);
    if verified.None? {
      return Err(NotVerified);
    }
    r := RestoreVerified(fs, root, backup, safety, report, verified.value);
  }

  method RestoreVerified(fs: FileSystem, root: Path, backup: Path, safety: Path, report: string, m: Manifest)
    returns (r: Result<seq<Path>, RestoreError>)
    modifies fs
    ensures match Restore(old(fs.nodes), root, backup, safety, report, m)
            case None => r == Err(FileSystemError)
            case Some(u) => r == Ok(RestoredPaths(m.sections)) && fs.nodes == u
  {
    var kept, ok := PrepareSafety(fs, root, safety, report, m.sections);
    if !ok {
      return Err(FileSystemError);
    }
    ghost var t := fs.nodes;
    ghost var ms := MovesFor(RestorePlan(root, backup), m.sections);
    var paths;
    paths, ok := RestoreSections(fs, root, backup, m.sections);
    if !ok {
      ghost var all := FinalMoves(root, backup, safety, m.sections, kept);
      FailureStays(ReplaceOne, t, ms, all[|ms|..]);
      assert all == ms + all[|ms|..];
      return Err(FileSystemError);
    }
    if kept.Some? {
      InTurnStep(ReplaceOne, t, ms, Move(safety + [PRESERVED], root + kept.value));
      ok := fs.Replace(safety + [PRESERVED], root + kept.value);
    } else {
      assert ms + [] == ms;
    }
    r := if ok then Ok(paths) else Err(FileSystemError);
  }

  method PrepareSafety(fs: FileSystem, root: Path, safety: Path, report: string, sections: seq<Section>)
    returns (kept: Option<Path>, ok: bool)
    modifies fs
    ensures ok <==> Prepare(old(fs.nodes), root, safety, report, sections).Some?
    ensures ok ==> Prepared(fs.nodes, kept) == Prepare(old(fs.nodes), root, safety, report, sections).value
  {
    kept := None;
    ok := CreateSafetyCopy(fs, root, safety, report, sections);
    if !ok {
      return;
    }
    var log := LogsToKeep(sections);
    if log.None? || root + log.value !in fs.nodes {
      return;
    }
    ok := fs.Copy(root + log.value, safety + [PRESERVED]);
    kept := log;
  }

  method CreateSafetyCopy(fs: FileSystem, root: Path, safety: Path, report: string, sections: seq<Section>)
    returns (ok: bool)
    modifies fs
    ensures var saved := match EnsureDir(old(fs.nodes), safety)
                         case None => None
                         case Some(t1) => SaveAll(t1, MovesFor(SafetyPlan(root, safety), sections));
            var done := if saved.None? then None else WriteFile(saved.value, safety + [MANIFEST], Content.Text(report));
            (ok <==> done.Some?) && (ok ==> fs.nodes == done.value)
  {
    ok := fs.MakeDir(safety);
    if !ok {
      return;
    }
    ghost var t1, plan := fs.nodes, SafetyPlan(root, safety);
    for i := 0 to |sections|
      invariant InTurn(SaveOne, t1, MovesFor(plan, sections[..i])) == Some(fs.nodes)
    {
      var s := sections[i];
      MovesAt(plan, sections, i);
      if !s.included {
        assert MovesFor(plan, sections[..i]) + [] == MovesFor(plan, sections[..i]);
        continue;
      }
      InTurnStep(SaveOne, t1, MovesFor(plan, sections[..i]), plan(s));
      if root + s.restorePath !in fs.nodes {
        continue;
      }
      ok := fs.Copy(root + s.restorePath, safety + s.bundlePath);
      if !ok {
        FailureStays(SaveOne, t1, MovesFor(plan, sections[..i + 1]), MovesFor(plan, sections[i + 1..]));
        return;
      }
    }
    assert sections[..|sections|] == sections;
    ok := fs.Write(safety + [MANIFEST], Content.Text(report));
  }

  method RestoreSections(fs: FileSystem, root: Path, backup: Path, sections: seq<Section>)
    returns (paths: seq<Path>, ok: bool)
    modifies fs
    ensures ok <==> ReplaceAll(old(fs.nodes), MovesFor(RestorePlan(root, backup), sections)).Some?
    ensures ok ==> fs.nodes == ReplaceAll(old(fs.nodes), MovesFor(RestorePlan(root, backup), sections)).value
    ensures ok ==> paths == RestoredPaths(sections)
  {
    paths, ok := [], true;
    ghost var t, plan := fs.nodes, RestorePlan(root, backup);
    for i := 0 to |sections|
      invariant paths == RestoredPaths(sections[..i])
      invariant InTurn(ReplaceOne, t, MovesFor(plan, sections[..i])) == Some(fs.nodes)
    {
      var s := sections[i];
      assert sections[..i + 1][..i] == sections[..i];
      MovesAt(plan, sections, i);
      if !s.included {
        assert MovesFor(plan, sections[..i]) + [] == MovesFor(plan, sections[..i]);
        continue;
      }
      InTurnStep(ReplaceOne, t, MovesFor(plan, sections[..i]), plan(s));
      ok := fs.Replace(backup + s.bundlePath, root + s.restorePath);
      if !ok {
        FailureStays(ReplaceOne, t, MovesFor(plan, sections[..i + 1]), MovesFor(plan, sections[i + 1..]));
        return;
      }
      paths := paths + [s.restorePath];
    }
    assert sections[..|sections|] == sections;
    ok := true;
  }
}
