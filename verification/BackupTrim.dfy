/** Dropping the captured logs of one bundle (the loop body of `trimLogs`, src/ops/backup/backup-prune.ts). */
module BackupTrim {
  import opened Common
  import opened Manifests
  import opened FileTree
  import opened TreeMoves
  import opened Checksums
  import opened BundleFiles
  import opened BackupVerify

  function Emptied(s: Section): Section { s.(included := false, fileCount := 0) }

  /** The first log section is marked as not captured. */
  function Uncapture(sections: seq<Section>): seq<Section> {
    if sections == [] then []
    else if sections[0].name == Logs then [Emptied(sections[0])] + sections[1..]
    else [sections[0]] + Uncapture(sections[1..])
  }

  function WithoutLogs(m: Manifest): Manifest { m.(sections := Uncapture(m.sections), logsIncluded := false) }

  /** Place of the logs a trim would remove. */
  function LogsToTrim(t: Tree, p: Path): Option<Path> {
    match ReadManifest(t, p)
    case None => None
    case Some(m) =>
      match FindSection(m.sections, Logs)
      case None => None
      case Some(s) => if s.included && p + s.bundlePath in t then Some(s.bundlePath) else None
  }

  lemma {:induction false} UncaptureFinds(sections: seq<Section>)
    requires FindSection(sections, Logs).Some?
    ensures FindSection(Uncapture(sections), Logs) == Some(Emptied(FindSection(sections, Logs).value))
  {
    if sections[0].name != Logs {
      UncaptureFinds(sections[1..]);
      assert Uncapture(sections)[1..] == Uncapture(sections[1..]);
    }
  }

  /** The entry at one position, before and after. */
  ghost predicate Uncaptures(sections: seq<Section>, was: Section, now: Section) {
    && now.bundlePath == was.bundlePath
    && (now == was ||
        (FindSection(sections, Logs) == Some(was) && now == was.(included := false, fileCount := 0)))
  }

  lemma {:induction false} UncaptureEach(sections: seq<Section>)
    ensures |Uncapture(sections)| == |sections|
    ensures forall i :: 0 <= i < |sections| ==> Uncaptures(sections, sections[i], Uncapture(sections)[i])
  {
    if sections != [] && sections[0].name != Logs {
      var rest := sections[1..];
      UncaptureEach(rest);
      forall i | 0 < i < |sections| ensures Uncaptures(sections, sections[i], Uncapture(sections)[i]) {
        assert Uncaptures(rest, rest[i - 1], Uncapture(rest)[i - 1]);
        assert sections[i] == rest[i - 1] && Uncapture(sections)[i] == Uncapture(rest)[i - 1];
      }
    }
  }

  lemma UncaptureMeaning(sections: seq<Section>)
    ensures |Uncapture(sections)| == |sections|
    ensures forall i :: 0 <= i < |sections| ==> Uncaptures(sections, sections[i], Uncapture(sections)[i])
    ensures FindSection(sections, Logs).Some? ==>
              FindSection(Uncapture(sections), Logs) ==
              Some(FindSection(sections, Logs).value.(included := false, fileCount := 0))
  {
    UncaptureEach(sections);
    if FindSection(sections, Logs).Some? {
      UncaptureFinds(sections);
    }
  }

  /** The manifest of a trimmed bundle says that no logs are captured; everything else it says about the backup
      stays. */
  lemma TrimmedManifestSays(m: Manifest)
    ensures var w := WithoutLogs(m);
            && !w.logsIncluded && w.sections == Uncapture(m.sections)
            && w.restorePointId == m.restorePointId && w.createdAt == m.createdAt && w.backupMode == m.backupMode
            && w.appVersion == m.appVersion && w.requiredVersion == m.requiredVersion && w.maxLogFiles == m.maxLogFiles
  {}

  /** Section `i` is the first of its name. */
  ghost predicate FirstNamed(sections: seq<Section>, name: SectionName, i: nat) {
    i < |sections| && sections[i].name == name && forall j :: 0 <= j < i ==> sections[j].name != name
  }

  lemma {:induction false} FoundIsFirst(sections: seq<Section>, name: SectionName, i: nat)
    requires FirstNamed(sections, name, i)
    ensures FindSection(sections, name) == Some(sections[i])
  {
    if i > 0 {
      assert sections[0].name != name;
      FoundIsFirst(sections[1..], name, i - 1);
    }
  }

  /** The logs to trim are those of the first log section, exactly when it is included and they are there. */
  lemma TrimsExactly(t: Tree, p: Path, m: Manifest, i: nat)
    requires ReadManifest(t, p) == Some(m) && FirstNamed(m.sections, Logs, i)
    ensures var s := m.sections[i];
            LogsToTrim(t, p) == if s.included && Get(t, p + s.bundlePath).Some? then Some(s.bundlePath) else None
  {
    FoundIsFirst(m.sections, Logs, i);
  }

  /** A trimmed bundle has no logs to trim. */
  lemma TrimmedOnce(t: Tree, p: Path, m: Manifest)
    requires ReadManifest(t, p) == Some(WithoutLogs(m))
    ensures LogsToTrim(t, p) == None
  {
    if FindSection(m.sections, Logs).Some? {
      UncaptureFinds(m.sections);
    } else {
      NothingUncaptured(m.sections);
    }
  }

  lemma {:induction false} NothingUncaptured(sections: seq<Section>)
    requires FindSection(sections, Logs).None?
    ensures Uncapture(sections) == sections
  {
    if sections != [] {
      NothingUncaptured(sections[1..]);
      assert sections == [sections[0]] + sections[1..];
    }
  }

  /** A found section is one of the list, so a readable manifest gives it a proper place. */
  lemma {:induction false} FoundIsMember(sections: seq<Section>, name: SectionName)
    ensures FindSection(sections, name).Some? ==> FindSection(sections, name).value in sections
  {
    if sections != [] && sections[0].name != name {
      FoundIsMember(sections[1..], name);
    }
  }

  lemma ProperLogPlace(t: Tree, p: Path)
    requires LogsToTrim(t, p).Some?
    ensures LogsToTrim(t, p).value != []
  {
    var m := ReadManifest(t, p).value;
    FoundIsMember(m.sections, Logs);
    var s := FindSection(m.sections, Logs).value;
    var i :| 0 <= i < |m.sections| && m.sections[i] == s;
  }

  /** The logs are gone, the manifest says so, the list of checksums passes, and nothing else in the bundle
      changed. */
  ghost predicate Trimmed(t: Tree, u: Tree, p: Path, log: Path, m: Manifest, sha: Sha) {
    && FileTree.WellFormed(u) && CleanBundle(u, p)
    && Get(u, p + [MANIFEST]) == Some(File(ManifestJson(m)))
    && ChecksumsPass(u, p, sha)
    && forall q :: p <= q && q != p + [MANIFEST] && q != p + [CHECKSUMS] ==>
         Get(u, q) == if p + log <= q then None else Get(t, q)
  }

  /** After the logs are gone the manifest can be rewritten. */
  lemma ReadyForManifest(t: Tree, p: Path, log: Path, m: Manifest)
    requires FileTree.WellFormed(t) && ReadManifest(t, p).Some? && log != [] && CleanBundle(t, p)
    ensures var u := RemoveAll(t, p + log);
            var v := u[p + [MANIFEST] := File(ManifestJson(m))];
            && WriteFile(u, p + [MANIFEST], ManifestJson(m)) == Some(v)
            && FileTree.WellFormed(v) && IsDir(v, p) && CleanBundle(v, p)
            && forall q :: q != p + [MANIFEST] ==> Get(v, q) == if p + log <= q then None else Get(t, q)
  {
    var u, f := RemoveAll(t, p + log), p + [MANIFEST];
    var v := u[f := File(ManifestJson(m))];
    BundleIsDir(t, p);
    RemoveAllMeaning(t, p + log);
    assert Get(u, p) == Get(t, p) && Parent(f) == p;
    assert !IsDir(u, f) by { assert Get(u, f) == if p + log <= f then None else Get(t, f); }
    FileReplacesNothing(u, v, f, ManifestJson(m));
    MetadataNames();
    forall q, i | q in v && p <= q && |p| <= i < |q| ensures CleanName(q[i]) {
      if q != f { assert Get(u, q) == if p + log <= q then None else Get(t, q); }
    }
  }

  lemma NothingAbove(t: Tree, v: Tree, w: Tree, p: Path, log: Path)
    requires forall q :: q != p + [MANIFEST] ==> Get(v, q) == if p + log <= q then None else Get(t, q)
    requires forall q :: q != p + [CHECKSUMS] ==> Get(w, q) == Get(v, q)
    ensures OnlyBelow(t, w, p)
  {
    forall q | !(p <= q) ensures Get(w, q) == Get(t, q) { PrefixChain(p, p + log, q); }
  }

  /** It fails only when something other than a file stands at `checksums.txt`. */
  predicate ChecksumsBlocked(t: Tree, p: Path, log: Path) { IsDir(t, p + [CHECKSUMS]) && !(p + log <= p + [CHECKSUMS]) }

  /** The logs are gone and the manifest says so, but the list is as it was. */
  ghost predicate HalfTrimmed(t: Tree, u: Tree, p: Path, log: Path, m: Manifest) {
    && FileTree.WellFormed(u)
    && Get(u, p + [MANIFEST]) == Some(File(ManifestJson(m)))
    && forall q :: p <= q && q != p + [MANIFEST] ==> Get(u, q) == if p + log <= q then None else Get(t, q)
  }

  /** What a trim that fails leaves behind. */
  ghost predicate Halved(t: Tree, u: Tree, p: Path) {
    LogsToTrim(t, p).Some? && HalfTrimmed(t, u, p, LogsToTrim(t, p).value, WithoutLogs(ReadManifest(t, p).value))
  }

  method TrimBundle(fs: FileSystem, p: Path, sha: Sha) returns (removed: Option<Path>, ok: bool)
    requires FileTree.WellFormed(fs.nodes) && ReadManifest(fs.nodes, p).Some? && CleanBundle(fs.nodes, p)
    requires HashTexts(sha)
    modifies fs
    ensures ok <==> LogsToTrim(old(fs.nodes), p).None? ||
                    !ChecksumsBlocked(old(fs.nodes), p, LogsToTrim(old(fs.nodes), p).value)
    ensures ok ==> match LogsToTrim(old(fs.nodes), p)
                   case None => removed == None && fs.nodes == old(fs.nodes)
                   case Some(log) =>
                     && removed == Some(p + log) && OnlyBelow(old(fs.nodes), fs.nodes, p)
                     && Trimmed(old(fs.nodes), fs.nodes, p, log, WithoutLogs(ReadManifest(old(fs.nodes), p).value), sha)
    ensures !ok ==> OnlyBelow(old(fs.nodes), fs.nodes, p) && Halved(old(fs.nodes), fs.nodes, p)
  {
    ghost var t := fs.nodes;
    removed, ok := None, true;
    var m := ReadManifest(fs.nodes, p).value;
    var logs := FindSection(m.sections, Logs);
    if logs.None? || !logs.value.included {
      return;
    }
    var log := logs.value.bundlePath;
    if p + log !in fs.nodes {
      return;
    }
    ProperLogPlace(t, p);
    ReadyForManifest(t, p, log, WithoutLogs(m));
    fs.Remove(p + log);
    ok := fs.Write(p + [MANIFEST], ManifestJson(WithoutLogs(m)));
    MetadataNames();
    assert p + [MANIFEST] != p + [CHECKSUMS] by { assert (p + [MANIFEST])[|p|] != (p + [CHECKSUMS])[|p|]; }
    ghost var v := fs.nodes;
    assert Get(v, p + [CHECKSUMS]) == if p + log <= p + [CHECKSUMS] then None else Get(t, p + [CHECKSUMS]);
    ok := WriteBundleChecksums(fs, p, sha);
    NothingAbove(t, v, fs.nodes, p, log);
    if ok {
      StillClean(v, fs.nodes, p);
      removed := Some(p + log);
    }
  }

  // ---------------------------------------------------------------- a trimmed bundle is still a bundle

  /** Another captured section lies in the logs that are removed. */
  ghost predicate TakesOthers(sections: seq<Section>, log: Path) {
    var others := Uncapture(sections);
    exists i :: 0 <= i < |others| && others[i].included && log <= others[i].bundlePath
                && others[i].bundlePath != [MANIFEST] && others[i].bundlePath != [CHECKSUMS]
  }

  lemma StillPresent(t: Tree, u: Tree, p: Path, log: Path, m: Manifest, sha: Sha, r: Path)
    requires Trimmed(t, u, p, log, m, sha)
    ensures p + r in u <==> r == [MANIFEST] || r == [CHECKSUMS] || (p + r in t && !(log <= r))
  {
    OrderBelow(p, log, r);
    SameRest(p, r, [MANIFEST]);
    SameRest(p, r, [CHECKSUMS]);
    assert r != [MANIFEST] && r != [CHECKSUMS] ==> Get(u, p + r) == if log <= r then None else Get(t, p + r);
  }

  lemma SectionsStillPresent(t: Tree, u: Tree, p: Path, log: Path, m: Manifest, sha: Sha)
    requires SectionsPresent(t, p, m.sections) && Trimmed(t, u, p, log, WithoutLogs(m), sha)
    ensures SectionsPresent(u, p, Uncapture(m.sections)) <==> !TakesOthers(m.sections, log)
  {
    UncaptureMeaning(m.sections);
    forall i | 0 <= i < |m.sections| && Uncapture(m.sections)[i].included
      ensures p + m.sections[i].bundlePath in u <==>
              || !(log <= m.sections[i].bundlePath)
              || m.sections[i].bundlePath == [MANIFEST] || m.sections[i].bundlePath == [CHECKSUMS]
    {
      StillPresent(t, u, p, log, WithoutLogs(m), sha, m.sections[i].bundlePath);
    }
  }

  /** Main result: a trimmed bundle that verified before verifies with the updated manifest, exactly when
      the removed logs held no other captured section. */
  lemma TrimKeepsBundleValid(t: Tree, u: Tree, p: Path, log: Path, m: Manifest, sha: Sha, version: Option<string>,
                             allowMismatch: bool)
    requires Verify(t, p, sha, version, allowMismatch) == Some(m) && Trimmed(t, u, p, log, WithoutLogs(m), sha)
    ensures Verify(u, p, sha, version, allowMismatch) ==
            if TakesOthers(m.sections, log) then None else Some(WithoutLogs(m))
  {
    SectionsStillPresent(t, u, p, log, m, sha);
    StillWellTyped(m);
    VerifiesByParts(u, p, sha, WithoutLogs(m), version, allowMismatch);
  }

  lemma StillWellTyped(m: Manifest)
    requires WellTyped(m)
    ensures WellTyped(WithoutLogs(m))
  {
    UncaptureMeaning(m.sections);
    forall i | 0 <= i < |m.sections|
      ensures WithoutLogs(m).sections[i].bundlePath != [] && WithoutLogs(m).sections[i].fileCount >= 0
    {
      assert m.sections[i].bundlePath != [];
    }
  }

  /** A bundle whose data section lies among its logs, still without its list. */
  function NestedBundle(c: Content, m: Manifest): Tree {
    map[[] := Dir, ["p"] := Dir, ["p", "logs"] := Dir, ["p", "logs", "a"] := File(c),
        ["p", MANIFEST] := File(ManifestJson(m))]
  }

  function NestedSections(): seq<Section> {
    [Section(Adapter, ["d"], ["logs", "a"], ["d"], false, true, 1),
     Section(Logs, ["l"], ["logs"], ["l"], true, true, 1)]
  }

  lemma NestedBundleIsTree(c: Content, m: Manifest)
    ensures FileTree.WellFormed(NestedBundle(c, m)) && IsDir(NestedBundle(c, m), ["p"])
  {
    var t := NestedBundle(c, m);
    forall p | p in t && p != [] ensures IsDir(t, Parent(p)) {
      assert Parent(["p"]) == [] && Parent(["p", "logs"]) == ["p"] && Parent(["p", "logs", "a"]) == ["p", "logs"];
      assert Parent(["p", MANIFEST]) == ["p"];
    }
  }

  lemma NestedBundleIsClean(c: Content, m: Manifest)
    ensures CleanBundle(NestedBundle(c, m), ["p"]) && ["p"] + [CHECKSUMS] !in NestedBundle(c, m)
  {
    var t := NestedBundle(c, m);
    MetadataNames();
    assert CleanName("logs") && CleanName("a");
    forall q, i | q in t && ["p"] <= q && 1 <= i < |q| ensures q[i] in {"logs", "a", MANIFEST} {}
    assert |CHECKSUMS| == 13 && (["p"] + [CHECKSUMS])[1] == CHECKSUMS && |["p"] + [CHECKSUMS]| == 2;
  }

  lemma NestedSectionsAreTaken()
    ensures FindSection(NestedSections(), Logs) == Some(NestedSections()[1])
    ensures TakesOthers(NestedSections(), ["logs"])
  {
    var s := NestedSections();
    assert s[1..] == [s[1]];
    assert FindSection(s, Logs) == FindSection(s[1..], Logs);
    assert Uncapture(s)[0] == s[0] && ["logs"] <= ["logs", "a"];
    assert ["logs", "a"] != [MANIFEST] && ["logs", "a"] != [CHECKSUMS];
  }

  lemma NestedBundleIsComplete(c: Content, m: Manifest)
    ensures SectionsPresent(NestedBundle(c, m), ["p"], NestedSections())
    ensures Get(NestedBundle(c, m), ["p"] + [MANIFEST]) == Some(File(ManifestJson(m)))
  {
    assert ["p"] + ["logs", "a"] == ["p", "logs", "a"] && ["p"] + ["logs"] == ["p", "logs"];
    assert ["p"] + [MANIFEST] == ["p", MANIFEST];
  }

  /** A bundle that verifies and can be trimmed, and does not verify once it is. */
  ghost predicate TrimBreaks(t: Tree, p: Path, log: Path, m: Manifest, sha: Sha) {
    && FileTree.WellFormed(t) && CleanBundle(t, p)
    && Verify(t, p, sha, Some(m.requiredVersion), false) == Some(m)
    && LogsToTrim(t, p) == Some(log) && !Blocked(t, p)
    && forall u: Tree :: Trimmed(t, u, p, log, WithoutLogs(m), sha) ==>
         Verify(u, p, sha, Some(m.requiredVersion), false) == None
  }

  lemma TakenSectionBreaks(t: Tree, p: Path, log: Path, m: Manifest, sha: Sha)
    requires FileTree.WellFormed(t) && CleanBundle(t, p)
    requires Verify(t, p, sha, Some(m.requiredVersion), false) == Some(m)
    requires FindSection(m.sections, Logs).Some? && FindSection(m.sections, Logs).value.included
    requires log == FindSection(m.sections, Logs).value.bundlePath && TakesOthers(m.sections, log)
    ensures TrimBreaks(t, p, log, m, sha)
  {
    FoundIsMember(m.sections, Logs);
    var i :| 0 <= i < |m.sections| && m.sections[i] == FindSection(m.sections, Logs).value;
    assert p + m.sections[i].bundlePath in t;
    forall u: Tree | Trimmed(t, u, p, log, WithoutLogs(m), sha)
      ensures Verify(u, p, sha, Some(m.requiredVersion), false) == None
    {
      TrimKeepsBundleValid(t, u, p, log, m, sha, Some(m.requiredVersion), false);
    }
  }

  lemma ListedBundleBreaks(base: Tree, p: Path, log: Path, m: Manifest, sha: Sha)
    requires FileTree.WellFormed(base) && CleanBundle(base, p) && HashTexts(sha) && p + [CHECKSUMS] !in base
    requires Get(base, p + [MANIFEST]) == Some(File(ManifestJson(m)))
    requires WellTyped(m) && SectionsPresent(base, p, m.sections)
    requires FindSection(m.sections, Logs).Some? && FindSection(m.sections, Logs).value.included
    requires log == FindSection(m.sections, Logs).value.bundlePath && TakesOthers(m.sections, log)
    ensures exists t: Tree :: TrimBreaks(t, p, log, m, sha)
  {
    var text := ListedBundleVerifies(base, p, m, sha);
    TakenSectionBreaks(base[p + [CHECKSUMS] := File(Content.Text(text))], p, log, m, sha);
  }

  /** The exception does occur, with whatever hash and contents. */
  lemma TrimmedBundleCanFail(c: Content, m: Manifest, sha: Sha)
    requires HashTexts(sha) && WellTyped(m) && m.sections == NestedSections()
    ensures exists t: Tree :: TrimBreaks(t, ["p"], ["logs"], m, sha)
  {
    NestedBundleIsTree(c, m);
    NestedBundleIsClean(c, m);
    NestedBundleIsComplete(c, m);
    NestedSectionsAreTaken();
    ListedBundleBreaks(NestedBundle(c, m), ["p"], ["logs"], m, sha);
  }

  /** Captured sections apart from the logs keep their exact contents. */
  lemma OtherSectionsKept(t: Tree, u: Tree, p: Path, log: Path, m: Manifest, sha: Sha, i: nat)
    requires Trimmed(t, u, p, log, m, sha) && i < |m.sections|
    requires !Overlap(m.sections[i].bundlePath, log)
    requires !Overlap(m.sections[i].bundlePath, [MANIFEST]) && !Overlap(m.sections[i].bundlePath, [CHECKSUMS])
    ensures SameBelow(t, u, p + m.sections[i].bundlePath)
  {
    var s := m.sections[i].bundlePath;
    forall r ensures Get(u, p + s + r) == Get(t, p + s + r) {
      assert p + s + r == p + (s + r);
      ApartBelow(s, r, log);
      ApartBelow(s, r, [MANIFEST]);
      ApartBelow(s, r, [CHECKSUMS]);
      KeptByTrim(t, u, p, log, m, sha, s + r);
    }
  }

  lemma KeptByTrim(t: Tree, u: Tree, p: Path, log: Path, m: Manifest, sha: Sha, r: Path)
    requires Trimmed(t, u, p, log, m, sha) && !(log <= r) && r != [MANIFEST] && r != [CHECKSUMS]
    ensures Get(u, p + r) == Get(t, p + r)
  {
    OrderBelow(p, log, r);
    SameRest(p, r, [MANIFEST]);
    SameRest(p, r, [CHECKSUMS]);
  }

  // ---------------------------------------------------------------- several bundles

  /** The bundle is trimmed if it has logs to trim, and otherwise untouched. */
  ghost predicate Done(t: Tree, u: Tree, p: Path, sha: Sha) {
    match LogsToTrim(t, p)
    case None => SameBelow(t, u, p)
    case Some(log) => Trimmed(t, u, p, log, WithoutLogs(ReadManifest(t, p).value), sha)
  }

  predicate Blocked(t: Tree, p: Path) {
    LogsToTrim(t, p).Some? && ChecksumsBlocked(t, p, LogsToTrim(t, p).value)
  }

  /** Trees that agree below `p` look the same there. */
  lemma SameLook(t: Tree, u: Tree, p: Path)
    requires SameBelow(t, u, p)
    ensures ReadManifest(u, p) == ReadManifest(t, p) && LogsToTrim(u, p) == LogsToTrim(t, p)
    ensures Blocked(u, p) == Blocked(t, p)
    ensures CleanBundle(t, p) ==> CleanBundle(u, p)
  {
    FromBelow(t, u, p);
    assert Get(u, p + [MANIFEST]) == Get(t, p + [MANIFEST]) && Get(u, p + [CHECKSUMS]) == Get(t, p + [CHECKSUMS]);
    forall r ensures p + r in u <==> p + r in t { assert Get(u, p + r) == Get(t, p + r); }
    if CleanBundle(t, p) {
      forall q | q in u && p <= q ensures q in t { assert Get(u, q) == Get(t, q); }
    }
  }

  /** A later step elsewhere leaves a finished bundle finished. */
  lemma DoneStays(t: Tree, u: Tree, v: Tree, p: Path, sha: Sha)
    requires Done(t, u, p, sha) && SameBelow(u, v, p) && FileTree.WellFormed(u) && FileTree.WellFormed(v)
    ensures Done(t, v, p, sha)
  {
    FromBelow(u, v, p);
    match LogsToTrim(t, p)
    case None =>
      forall r ensures Get(v, p + r) == Get(t, p + r) { BeneathOf(p, r); assert Get(u, p + r) == Get(t, p + r); }
    case Some(log) =>
      SameLook(u, v, p);
      BundleOfManifest(u, p);
      ChecksumsOnlyReadBundle(u, v, p, sha);
  }

  lemma BundleOfManifest(u: Tree, p: Path)
    requires FileTree.WellFormed(u)
    ensures p + [MANIFEST] in u ==> IsDir(u, p)
  {
    assert Parent(p + [MANIFEST]) == p;
  }

  /** A step that starts from a tree agreeing below `p` finishes the bundle as seen from the first tree. */
  lemma DoneFrom(t: Tree, u: Tree, v: Tree, p: Path, sha: Sha)
    requires SameBelow(t, u, p) && Done(u, v, p, sha)
    ensures Done(t, v, p, sha)
  {
    SameLook(t, u, p);
    FromBelow(t, u, p);
    if LogsToTrim(t, p).None? {
      forall r ensures Get(v, p + r) == Get(t, p + r) { assert Get(u, p + r) == Get(t, p + r); }
    }
  }

  lemma SiblingsSame(u: Tree, v: Tree, p: Path, q: Path)
    requires OnlyBelow(u, v, p) && |p| == |q| && p != q
    ensures SameBelow(u, v, q)
  {
    forall r ensures Get(v, q + r) == Get(u, q + r) {
      assert (q + r)[..|q|] == q;
    }
  }

  ghost predicate Siblings(ps: seq<Path>) {
    forall i, j :: 0 <= i < j < |ps| ==> ps[i] != ps[j] && |ps[i]| == |ps[j]|
  }

  /** Loop state: the first `i` bundles are finished, the others and everything else untouched. */
  ghost predicate TrimmedUpTo(t: Tree, u: Tree, ps: seq<Path>, i: nat, sha: Sha)
    requires i <= |ps|
  {
    && FileTree.WellFormed(u)
    && (forall k :: 0 <= k < i ==> Done(t, u, ps[k], sha))
    && (forall k :: i <= k < |ps| ==> SameBelow(t, u, ps[k]))
    && forall q :: (forall k :: 0 <= k < i ==> !(ps[k] <= q)) ==> Get(u, q) == Get(t, q)
  }

  lemma OneTrimmedMore(t: Tree, u: Tree, v: Tree, ps: seq<Path>, i: nat, sha: Sha)
    requires Siblings(ps) && i < |ps| && TrimmedUpTo(t, u, ps, i, sha)
    requires FileTree.WellFormed(v) && OnlyBelow(u, v, ps[i]) && Done(u, v, ps[i], sha)
    ensures TrimmedUpTo(t, v, ps, i + 1, sha)
  {
    DoneFrom(t, u, v, ps[i], sha);
    forall k | 0 <= k < i ensures Done(t, v, ps[k], sha) {
      SiblingsSame(u, v, ps[i], ps[k]);
      DoneStays(t, u, v, ps[k], sha);
    }
    forall k | i + 1 <= k < |ps| ensures SameBelow(t, v, ps[k]) {
      SiblingsSame(u, v, ps[i], ps[k]);
      forall r ensures Get(v, ps[k] + r) == Get(t, ps[k] + r) { assert Get(u, ps[k] + r) == Get(t, ps[k] + r); }
    }
    forall q | forall k :: 0 <= k < i + 1 ==> !(ps[k] <= q) ensures Get(v, q) == Get(t, q) {
      assert !(ps[i] <= q);
    }
  }

  /** Places of the removed logs, in order. */
  function TrimmedLogs(t: Tree, ps: seq<Path>): seq<Path> {
    if ps == [] then []
    else
      var p := ps[|ps| - 1];
      TrimmedLogs(t, ps[..|ps| - 1]) + match LogsToTrim(t, p) case None => [] case Some(log) => [p + log]
  }

  /** Loop state of `trimLogs` after `i` bundles. */
  ghost predicate TrimState(t: Tree, u: Tree, ps: seq<Path>, i: nat, removed: seq<Path>, sha: Sha)
    requires i <= |ps|
  {
    && TrimmedUpTo(t, u, ps, i, sha) && removed == TrimmedLogs(t, ps[..i])
    && forall k :: 0 <= k < i ==> !Blocked(t, ps[k])
  }

  lemma LogsMore(t: Tree, ps: seq<Path>, i: nat, removed: seq<Path>, log: Option<Path>)
    requires i < |ps| && removed == TrimmedLogs(t, ps[..i])
    requires log == match LogsToTrim(t, ps[i]) case None => None case Some(l) => Some(ps[i] + l)
    ensures removed + (if log.Some? then [log.value] else []) == TrimmedLogs(t, ps[..i + 1])
  {
    assert ps[..i + 1][..i] == ps[..i] && ps[..i + 1][i] == ps[i];
  }

  lemma OneUnblockedMore(t: Tree, ps: seq<Path>, i: nat)
    requires i < |ps| && !Blocked(t, ps[i]) && forall k :: 0 <= k < i ==> !Blocked(t, ps[k])
    ensures forall k :: 0 <= k < i + 1 ==> !Blocked(t, ps[k])
  {}

  lemma TrimStep(t: Tree, u: Tree, v: Tree, ps: seq<Path>, i: nat, removed: seq<Path>, log: Option<Path>, sha: Sha)
    requires Siblings(ps) && i < |ps| && TrimState(t, u, ps, i, removed, sha) && !Blocked(u, ps[i])
    requires FileTree.WellFormed(v) && OnlyBelow(u, v, ps[i]) && Done(u, v, ps[i], sha)
    requires log == match LogsToTrim(u, ps[i]) case None => None case Some(l) => Some(ps[i] + l)
    ensures TrimState(t, v, ps, i + 1, removed + (if log.Some? then [log.value] else []), sha)
  {
    SameLook(t, u, ps[i]);
    LogsMore(t, ps, i, removed, log);
    OneUnblockedMore(t, ps, i);
    OneTrimmedMore(t, u, v, ps, i, sha);
  }

  /** What one call of `TrimBundle` contributes. */
  lemma TrimmedIsDone(u: Tree, v: Tree, p: Path, sha: Sha)
    requires FileTree.WellFormed(u)
    requires match LogsToTrim(u, p)
             case None => v == u
             case Some(log) => Trimmed(u, v, p, log, WithoutLogs(ReadManifest(u, p).value), sha) && OnlyBelow(u, v, p)
    ensures FileTree.WellFormed(v) && OnlyBelow(u, v, p) && Done(u, v, p, sha)
  {}

  /** A trim that fails at one bundle: the earlier ones are finished, this one is half done, the later ones
      and everything else are untouched. */
  ghost predicate StoppedAt(t: Tree, u: Tree, ps: seq<Path>, i: nat, sha: Sha) {
    && i < |ps| && FileTree.WellFormed(u)
    && Blocked(t, ps[i]) && Halved(t, u, ps[i])
    && (forall k :: 0 <= k < i ==> !Blocked(t, ps[k]) && Done(t, u, ps[k], sha))
    && (forall k :: i < k < |ps| ==> SameBelow(t, u, ps[k]))
    && forall q :: (forall k :: 0 <= k <= i ==> !(ps[k] <= q)) ==> Get(u, q) == Get(t, q)
  }

  lemma HalvedFrom(t: Tree, u: Tree, v: Tree, p: Path)
    requires SameBelow(t, u, p) && Halved(u, v, p)
    ensures Halved(t, v, p)
  {
    SameLook(t, u, p);
    FromBelow(t, u, p);
  }

  lemma StopsHere(t: Tree, u: Tree, v: Tree, ps: seq<Path>, i: nat, removed: seq<Path>, sha: Sha)
    requires Siblings(ps) && i < |ps| && TrimState(t, u, ps, i, removed, sha) && Blocked(u, ps[i])
    requires FileTree.WellFormed(v) && OnlyBelow(u, v, ps[i]) && Halved(u, v, ps[i])
    ensures StoppedAt(t, v, ps, i, sha)
  {
    SameLook(t, u, ps[i]);
    HalvedFrom(t, u, v, ps[i]);
    forall k | 0 <= k < i ensures Done(t, v, ps[k], sha) {
      SiblingsSame(u, v, ps[i], ps[k]);
      DoneStays(t, u, v, ps[k], sha);
    }
    forall k | i < k < |ps| ensures SameBelow(t, v, ps[k]) {
      SiblingsSame(u, v, ps[i], ps[k]);
      SameThrough(t, u, v, ps[k]);
    }
    forall q | forall k :: 0 <= k <= i ==> !(ps[k] <= q) ensures Get(v, q) == Get(t, q) {
      assert !(ps[i] <= q);
    }
  }

  lemma SameThrough(t: Tree, u: Tree, v: Tree, p: Path)
    requires SameBelow(t, u, p) && SameBelow(u, v, p)
    ensures SameBelow(t, v, p)
  {
    forall r ensures Get(v, p + r) == Get(t, p + r) { assert Get(u, p + r) == Get(t, p + r); }
  }

  method TrimAll(fs: FileSystem, ps: seq<Path>, sha: Sha) returns (removed: seq<Path>, ok: bool)
    requires FileTree.WellFormed(fs.nodes) && Siblings(ps) && HashTexts(sha)
    requires forall k :: 0 <= k < |ps| ==> ReadManifest(fs.nodes, ps[k]).Some? && CleanBundle(fs.nodes, ps[k])
    modifies fs
    ensures ok <==> forall k :: 0 <= k < |ps| ==> !Blocked(old(fs.nodes), ps[k])
    ensures ok ==> TrimmedUpTo(old(fs.nodes), fs.nodes, ps, |ps|, sha) && removed == TrimmedLogs(old(fs.nodes), ps)
    ensures !ok ==> exists i :: StoppedAt(old(fs.nodes), fs.nodes, ps, i, sha)
  {
    ghost var t := fs.nodes;
    removed, ok := [], true;
    for i := 0 to |ps|
      invariant ok && TrimState(t, fs.nodes, ps, i, removed, sha)
    {
      ghost var u := fs.nodes;
      SameLook(t, u, ps[i]);
      var log;
      log, ok := TrimBundle(fs, ps[i], sha);
      if !ok {
        StopsHere(t, u, fs.nodes, ps, i, removed, sha);
        return;
      }
      TrimmedIsDone(u, fs.nodes, ps[i], sha);
      TrimStep(t, u, fs.nodes, ps, i, removed, log, sha);
      removed := removed + if log.Some? then [log.value] else [];
    }
    assert ps[..|ps|] == ps;
  }
}
