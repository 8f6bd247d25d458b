/** A backup just created, as pruning sees it: in which group it counts, and that the newest one stays. */
module BackupRetention {
  import opened Common
  import opened Manifests
  import opened FileTree
  import opened BundleFiles
  import opened TreeMoves
  import opened BackupVerify
  import opened BackupCreate
  import opened BackupRoundTrip
  import P = BackupPrune

  lemma DescribedManifestIsRead(t: Tree, c: Config, bundle: Path, o: BackupCreate.Options, version: string, m: Manifest,
                                license: bool, logs: bool)
    requires Get(t, bundle + [MANIFEST]) == Some(File(ManifestJson(m))) && version != ""
    requires Describes(m, o, version, logs) && SectionsFor(c, m.sections, license, logs)
    ensures ReadManifest(t, bundle) == if o.id != "" && o.maxLogFiles >= 0 then Some(m) else None
  {
    ManifestReadsBack(c, m, license, logs, o, version);
  }

  /** The manifest in a finished bundle, field by field; it can be read back exactly when the backup has an id and
      its log limit is not negative. */
  lemma CreatedManifestIsRead(t0: Tree, t1: Tree, t2: Tree, c: Config, bundle: Path, sha: Sha, o: BackupCreate.Options,
                              version: string, m: Manifest, selected: seq<Path>)
    requires Captured(t0, t1, c, bundle, sha, o, version, m, selected) && SameBelow(t1, t2, bundle) && version != ""
    requires selected != [] ==> TakesLogs(t0, c, o.includeLogs)
    ensures Get(t2, bundle + [MANIFEST]) == Some(File(ManifestJson(m)))
    ensures m.restorePointId == o.id && m.createdAt == o.createdAt && m.backupMode == o.mode
    ensures m.appVersion == version && m.requiredVersion == version
    ensures m.maxLogFiles == o.maxLogFiles && (m.logsIncluded <==> selected != [])
    ensures ReadManifest(t2, bundle) == if o.id != "" && o.maxLogFiles >= 0 then Some(m) else None
  {
    BundleStillHolds(t0, t1, t2, c, bundle, sha, o, version, m, selected);
    DescribedManifestIsRead(t2, c, bundle, o, version, m, HasLicense(t0, c), selected != []);
  }

  /** What a finished bundle captured: the license directory exactly when it is configured, not empty and there; of the
      logs as many as the limit allows, a negative one counting from the end, when they were asked for and are there. */
  lemma CapturedExactly(t0: Tree, u: Tree, c: Config, bundle: Path, sha: Sha, o: BackupCreate.Options, version: string,
                        m: Manifest, mtime: Path -> int, selected: seq<Path>)
    requires Captured(t0, u, c, bundle, sha, o, version, m, selected) && LogsChosen(t0, c, o, mtime, selected)
    ensures |m.sections| == 4 && (m.sections[3].included <==> |selected| > 0)
    ensures m.sections[2].included <==>
            c.license.Some? && c.license.value != [] && Get(t0, c.root + c.license.value).Some?
    ensures var files := |FilesUnder(t0, c.root + c.log)|;
            |selected| == (if !o.includeLogs || Get(t0, c.root + c.log).None? then 0
                           else if o.maxLogFiles >= 0 then Min(o.maxLogFiles, files)
                           else Max(0, files + o.maxLogFiles))
  {
    ChosenExactly(t0, c, o, mtime, selected);
    assert m.sections[2].included <==> HasLicense(t0, c);
  }

  lemma ChosenExactly(t0: Tree, c: Config, o: BackupCreate.Options, mtime: Path -> int, selected: seq<Path>)
    requires LogsChosen(t0, c, o, mtime, selected)
    ensures var files := |FilesUnder(t0, c.root + c.log)|;
            |selected| == (if !o.includeLogs || Get(t0, c.root + c.log).None? then 0
                           else if o.maxLogFiles >= 0 then Min(o.maxLogFiles, files)
                           else Max(0, files + o.maxLogFiles))
  {}

  lemma BundleIsChild(t1: Tree, t2: Tree, bundle: Path, dir: Path, n: string)
    requires IsDir(t1, bundle) && SameBelow(t1, t2, bundle) && bundle == dir + [n]
    ensures bundle in Children(t2, dir) && t2[bundle] == Dir && bundle[|dir|] == n
  {
    assert bundle + [] == bundle;
    assert Get(t2, bundle + []) == Get(t1, bundle + []);
  }

  /** A finished bundle counts for the mode it was made with and for no other, unless its name is private or its
      manifest cannot be read; it is as old as it says. */
  lemma CreatedBundleIsGrouped(t0: Tree, t1: Tree, t2: Tree, c: Config, dir: Path, n: string, sha: Sha,
                               o: BackupCreate.Options, version: string, m: Manifest, selected: seq<Path>, mode: Mode)
    requires Captured(t0, t1, c, dir + [n], sha, o, version, m, selected) && SameBelow(t1, t2, dir + [n])
    requires version != "" && (selected != [] ==> TakesLogs(t0, c, o.includeLogs))
    ensures P.IsBundle(t2, dir, mode, dir + [n]) <==>
            mode == o.mode && o.id != "" && o.maxLogFiles >= 0 && (n == "" || n[0] != '_')
    ensures P.CreatedAt(t2, dir + [n]) == if o.id != "" && o.maxLogFiles >= 0 then o.createdAt else 0
  {
    var bundle := dir + [n];
    CreatedManifestIsRead(t0, t1, t2, c, bundle, sha, o, version, m, selected);
    BundleIsChild(t1, t2, bundle, dir, n);
    ChildIsBundle(t2, dir, bundle, n, mode);
  }

  lemma ChildIsBundle(t: Tree, dir: Path, p: Path, n: string, mode: Mode)
    requires p in Children(t, dir) && t[p] == Dir && p[|dir|] == n
    ensures P.IsBundle(t, dir, mode, p) <==>
            && (n == "" || n[0] != '_')
            && ReadManifest(t, p).Some? && ReadManifest(t, p).value.backupMode == mode
  {
    assert ['_'] <= n <==> n != "" && n[0] == '_';
  }

  // ---------------------------------------------------------------- the newest one stays

  /** How many bundles of a mode are kept. */
  function KeepFor(po: P.Options, mode: Mode): int {
    match mode
    case Nightly => po.nightlyKeep
    case PreUpdate => po.preUpdateKeep
  }

  lemma SomethingIsKept(all: set<Path>, gone: set<Path>)
    requires gone <= all && |gone| < |all|
    ensures exists q :: q in all && q !in gone
  {
    assert all - gone != {} by {
      assert |all - gone| == |all| - |gone|;
    }
    var q :| q in all - gone;
  }

  /** What is removed has something at least as new that stays. */
  lemma RemovedIsNoNewer(t: Tree, all: set<Path>, gone: set<Path>, keep: int, p: Path)
    requires P.Retains(t, all, gone, keep) && keep >= 1
    ensures p in gone ==> exists q :: q in all && q !in gone && P.CreatedAt(t, p) <= P.CreatedAt(t, q)
  {
    if p in gone {
      SomethingIsKept(all, gone);
      var q :| q in all && q !in gone;
      assert P.CreatedAt(t, p) <= P.CreatedAt(t, q);
    }
  }

  lemma NewestIsRetained(t: Tree, all: set<Path>, gone: set<Path>, keep: int, p: Path)
    requires P.Retains(t, all, gone, keep) && keep >= 1 && p in all
    requires forall q :: q in all && q != p ==> P.CreatedAt(t, q) < P.CreatedAt(t, p)
    ensures p !in gone
  {
    RemovedIsNoNewer(t, all, gone, keep, p);
  }

  /** Main result: a finished backup that is newer than every other bundle is, after a prune that keeps at least one
      of its mode and the logs of at least one, whole and verifies; `RestoreUndoesChanges` then restores it. */
  lemma NewestBackupSurvivesPrune(t0: Tree, t1: Tree, t2: Tree, t3: Tree, c: Config, dir: Path, n: string, sha: Sha,
                                  o: BackupCreate.Options, version: string, m: Manifest, selected: seq<Path>,
                                  po: P.Options, removed: seq<Path>, older: seq<Path>)
    requires EnvFile(c) in t0 && DataDir(c) in t0 && !(c.log <= c.data) && version != ""
    requires Captured(t0, t1, c, dir + [n], sha, o, version, m, selected) && SameBelow(t1, t2, dir + [n])
    requires selected != [] ==> TakesLogs(t0, c, o.includeLogs)
    requires o.id != "" && o.maxLogFiles >= 0 && (n == "" || n[0] != '_')
    requires forall q :: q in P.AllBundles(t2, dir) && q != dir + [n] ==> P.CreatedAt(t2, q) < o.createdAt
    requires KeepFor(po, o.mode) >= 1 && (po.logBackupsKeep.Some? ==> po.logBackupsKeep.value >= 1)
    requires P.RemovedRightly(t2, dir, po, removed)
    requires P.TrimmedRightly(t2, dir, removed, po.logBackupsKeep, older)
    requires P.Outcome(t2, t3, removed, older, sha)
    ensures SameBelow(t1, t3, dir + [n]) && Verify(t3, dir + [n], sha, Some(version), false) == Some(m)
  {
    var p := dir + [n];
    CreatedBundleIsGrouped(t0, t1, t2, c, dir, n, sha, o, version, m, selected, o.mode);
    assert p in P.Bundles(t2, dir, o.mode);
    StaysUntouched(t2, t3, dir, po, o.mode, removed, older, sha, p);
    assert SameBelow(t1, t3, p);
    BundleVerifiesExactly(t0, t1, t3, c, p, sha, o, version, m, selected, Some(version), false);
  }

  lemma StaysUntouched(t: Tree, u: Tree, dir: Path, po: P.Options, mode: Mode, removed: seq<Path>, older: seq<Path>,
                       sha: Sha, p: Path)
    requires P.RemovedRightly(t, dir, po, removed) && P.TrimmedRightly(t, dir, removed, po.logBackupsKeep, older)
    requires P.Outcome(t, u, removed, older, sha) && p in P.Bundles(t, dir, mode)
    requires forall q :: q in P.AllBundles(t, dir) && q != p ==> P.CreatedAt(t, q) < P.CreatedAt(t, p)
    requires KeepFor(po, mode) >= 1 && (po.logBackupsKeep.Some? ==> po.logBackupsKeep.value >= 1)
    ensures SameBelow(t, u, p)
  {
    var all := P.Bundles(t, dir, mode);
    NewestIsRetained(t, all, Elements(removed) * all, KeepFor(po, mode), p);
    assert p !in removed;
    if po.logBackupsKeep.Some? {
      NewestIsRetained(t, P.AllBundles(t, dir) - Elements(removed), Elements(older), po.logBackupsKeep.value, p);
    }
    P.OlderAreBundles(t, dir, removed, po.logBackupsKeep, older);
    P.OthersUntouched(t, u, dir, removed, older, sha, p);
  }
}
