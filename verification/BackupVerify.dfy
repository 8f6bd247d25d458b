/** Verifying a bundle (src/ops/backup/backup-verify.ts), and writing and checking its checksum file
    (src/ops/backup/backup-checksums.ts) in the file tree. */
module BackupVerify {
  import opened Common
  import opened Manifests
  import opened FileTree
  import opened BundleFiles
  import opened Checksums

  type Sha = Content -> string

  /** The manifest in a file node; None when it is missing, unreadable or not well typed. */
  function ManifestIn(n: Option<Node>): Option<Manifest> {
    if n.Some? && n.value.File? && n.value.content.ManifestJson? && WellTyped(n.value.content.manifest)
    then Some(n.value.content.manifest)
    else None
  }

  /** `readManifest`. */
  function ReadManifest(t: Tree, bundle: Path): Option<Manifest> { ManifestIn(Get(t, bundle + [MANIFEST])) }

  /** The checksum list agrees with an inventory, in whatever order the files were listed. */
  predicate ListAgrees(text: string, sha: Sha, inv: map<string, Content>) {
    && Parse(text).Some?
    && |Parse(text).value| == |inv|
    && (forall p :: p in inv ==> Mentioned(Parse(text).value, p))
    && forall j :: 0 <= j < |Parse(text).value| ==>
         HashesOf(sha, inv)(Parse(text).value[j].path) == Some(Parse(text).value[j].hash)
  }

  predicate NodeAgrees(n: Option<Node>, sha: Sha, inv: map<string, Content>) {
    n.Some? && n.value.File? && n.value.content.Text? && ListAgrees(n.value.content.text, sha, inv)
  }

  predicate ChecksumsPass(t: Tree, bundle: Path, sha: Sha) {
    NodeAgrees(Get(t, bundle + [CHECKSUMS]), sha, Inventory(t, bundle))
  }

  predicate SectionsPresent(t: Tree, bundle: Path, sections: seq<Section>) {
    forall i :: 0 <= i < |sections| && sections[i].included ==> bundle + sections[i].bundlePath in t
  }

  /** The manifest of a bundle that passes every check. */
  function Verify(t: Tree, bundle: Path, sha: Sha, version: Option<string>, allowMismatch: bool): Option<Manifest> {
    match ReadManifest(t, bundle)
    case None => None
    case Some(m) =>
      if SectionsPresent(t, bundle, m.sections) && (allowMismatch || version == Some(m.requiredVersion)) &&
         ChecksumsPass(t, bundle, sha)
      then Some(m) else None
  }

  lemma PassesInAnyOrder(text: string, files: seq<string>, sha: Sha, inv: map<string, Content>)
    requires Lists(files, inv)
    ensures Passes(text, files, sha, inv) <==> ListAgrees(text, sha, inv)
  {
    DistinctCardinality(files);
    assert |inv| == |inv.Keys|;
    if Parse(text).Some? {
      var es := Parse(text).value;
      if forall i :: 0 <= i < |files| ==> Mentioned(es, files[i]) {
        forall p | p in inv ensures Mentioned(es, p) {
          assert p in Elements(files);
          var i :| 0 <= i < |files| && files[i] == p;
        }
      }
      if forall p :: p in inv ==> Mentioned(es, p) {
        forall i | 0 <= i < |files| ensures Mentioned(es, files[i]) {
          assert files[i] in Elements(files);
        }
      }
    }
  }

  lemma VerifiesByParts(t: Tree, bundle: Path, sha: Sha, m: Manifest, current: Option<string>, allowMismatch: bool)
    requires Get(t, bundle + [MANIFEST]) == Some(File(ManifestJson(m))) && ChecksumsPass(t, bundle, sha)
    ensures Verify(t, bundle, sha, current, allowMismatch) ==
            if WellTyped(m) && SectionsPresent(t, bundle, m.sections) &&
               (allowMismatch || current == Some(m.requiredVersion))
            then Some(m) else None
  {}

  lemma BundleIsDir(t: Tree, p: Path)
    requires FileTree.WellFormed(t) && ReadManifest(t, p).Some?
    ensures IsDir(t, p)
  {
    assert Parent(p + [MANIFEST]) == p && p + [MANIFEST] in t;
  }

  method VerifyBackup(fs: FileSystem, bundle: Path, sha: Sha, version: Option<string>, allowMismatch: bool)
    returns (r: Option<Manifest>)
    requires FileTree.WellFormed(fs.nodes) && CleanBundle(fs.nodes, bundle)
    ensures r == Verify(fs.nodes, bundle, sha, version, allowMismatch)
  {
    var t := fs.nodes;
    var read := ReadManifest(t, bundle);
    if read.None? {
      return None;
    }
    var m := read.value;
    for i := 0 to |m.sections|
      invariant forall k :: 0 <= k < i && m.sections[k].included ==> bundle + m.sections[k].bundlePath in t
    {
      if !m.sections[i].included {
        continue;
      }
      if bundle + m.sections[i].bundlePath !in t {
        assert !SectionsPresent(t, bundle, m.sections);
        return None;
      }
    }
    assert SectionsPresent(t, bundle, m.sections);
    if !allowMismatch && version != Some(m.requiredVersion) {
      return None;
    }
    BundleIsDir(t, bundle);
    var ok := VerifyBundleChecksums(t, bundle, sha);
    r := if ok then Some(m) else None;
  }

  /** Checking the list against the files of the bundle. */
  method VerifyBundleChecksums(t: Tree, bundle: Path, sha: Sha) returns (ok: bool)
    requires FileTree.WellFormed(t) && CleanBundle(t, bundle) && IsDir(t, bundle)
    ensures ok <==> ChecksumsPass(t, bundle, sha)
  {
    var list := bundle + [CHECKSUMS];
    if !IsFile(t, list) || !t[list].content.Text? {
      return false;
    }
    var files := ListBundleFiles(t, bundle);
    PassesInAnyOrder(t[list].content.text, files, sha, Inventory(t, bundle));
    var failure := VerifyChecksums(sha, t[list].content.text, files, Inventory(t, bundle));
    ok := failure.None?;
  }

  // ---------------------------------------------------------------- writing the list

  lemma SameListing(t: Tree, u: Tree, bundle: Path)
    requires forall r :: r != [CHECKSUMS] ==> Get(u, bundle + r) == Get(t, bundle + r)
    ensures Listed(t, bundle) <= Listed(u, bundle)
  {
    forall r | r in Listed(t, bundle) ensures r in Listed(u, bundle) {
      var q :| q in FilesUnder(t, bundle) && q != bundle + [CHECKSUMS] && r == q[|bundle|..];
      Beneath(bundle, q);
      assert Get(u, bundle + r) == Get(t, bundle + r);
      assert q in FilesUnder(u, bundle);
    }
  }

  lemma {:induction false} SetAsList(names: set<string>) returns (files: seq<string>)
    ensures Distinct(files) && Elements(files) == names
  {
    files := [];
    if names != {} {
      var n :| n in names;
      var rest := SetAsList(names - {n});
      assert Distinct([n]) && Elements([n]) == {n};
      ConcatDistinct([n], rest);
      files := [n] + rest;
    }
  }

  /** Every clean bundle has a list that passes. */
  lemma ListExists(t: Tree, bundle: Path, sha: Sha) returns (text: string)
    requires FileTree.WellFormed(t) && IsDir(t, bundle) && CleanBundle(t, bundle) && HashTexts(sha)
    requires !IsDir(t, bundle + [CHECKSUMS])
    ensures var u := t[bundle + [CHECKSUMS] := File(Content.Text(text))];
            FileTree.WellFormed(u) && ChecksumsPass(u, bundle, sha)
  {
    var files := SetAsList(Inventory(t, bundle).Keys);
    ListedAreIn(files, Inventory(t, bundle));
    text := Format(EntriesFor(sha, files, Inventory(t, bundle)));
    assert Parent(bundle + [CHECKSUMS]) == bundle;
    ListWritten(t, t[bundle + [CHECKSUMS] := File(Content.Text(text))], bundle, sha, files, text);
  }

  lemma StillClean(t: Tree, u: Tree, p: Path)
    requires CleanBundle(t, p) && forall q :: q != p + [CHECKSUMS] ==> Get(u, q) == Get(t, q)
    ensures CleanBundle(u, p)
  {
    MetadataNames();
    forall q, i | q in u && p <= q && |p| <= i < |q| ensures CleanName(q[i]) {
      if q != p + [CHECKSUMS] { assert Get(u, q) == Get(t, q); }
    }
  }

  /** A clean bundle that has its manifest and its sections verifies once it has such a list. */
  lemma ListedBundleVerifies(t: Tree, bundle: Path, m: Manifest, sha: Sha) returns (text: string)
    requires FileTree.WellFormed(t) && CleanBundle(t, bundle) && HashTexts(sha) && bundle + [CHECKSUMS] !in t
    requires Get(t, bundle + [MANIFEST]) == Some(File(ManifestJson(m)))
    requires WellTyped(m) && SectionsPresent(t, bundle, m.sections)
    ensures var u := t[bundle + [CHECKSUMS] := File(Content.Text(text))];
            && FileTree.WellFormed(u) && CleanBundle(u, bundle)
            && Verify(u, bundle, sha, Some(m.requiredVersion), false) == Some(m)
  {
    BundleIsDir(t, bundle);
    text := ListExists(t, bundle, sha);
    var u := t[bundle + [CHECKSUMS] := File(Content.Text(text))];
    StillClean(t, u, bundle);
    assert Get(u, bundle + [MANIFEST]) == Get(t, bundle + [MANIFEST]);
    VerifiesByParts(u, bundle, sha, m, Some(m.requiredVersion), false);
  }

  /** Two trees whose bundles differ at most in the checksum list have the same inventory. */
  lemma SameInventory(t: Tree, u: Tree, bundle: Path)
    requires FileTree.WellFormed(t) && IsDir(t, bundle) && CleanBundle(t, bundle)
    requires forall r :: r != [CHECKSUMS] ==> Get(u, bundle + r) == Get(t, bundle + r)
    ensures Inventory(u, bundle) == Inventory(t, bundle)
  {
    SameListing(t, u, bundle);
    SameListing(u, t, bundle);
    InventoryMeaning(t, bundle);
    forall r | r in Listed(t, bundle)
      ensures Unrender(Render(r)) == r && Get(u, bundle + r) == Get(t, bundle + r) && IsFile(t, bundle + r)
    {
      ListedIsNotChecksums(t, bundle, r);
    }
    SameEntries(t, u, bundle);
  }

  lemma SameEntries(t: Tree, u: Tree, bundle: Path)
    requires Listed(u, bundle) == Listed(t, bundle)
    requires forall r :: r in Listed(t, bundle) ==>
               Unrender(Render(r)) == r && Get(u, bundle + r) == Get(t, bundle + r) && IsFile(t, bundle + r)
    ensures Inventory(u, bundle) == Inventory(t, bundle)
  {
    forall s | s in Names(Listed(t, bundle)) ensures Get(u, bundle + Unrender(s)) == Get(t, bundle + Unrender(s)) {
      var r :| r in Listed(t, bundle) && Render(r) == s;
    }
  }

  lemma ListedIsNotChecksums(t: Tree, bundle: Path, r: Path)
    requires r in Listed(t, bundle)
    ensures r != [CHECKSUMS]
  {
    var q :| q in FilesUnder(t, bundle) && q != bundle + [CHECKSUMS] && r == q[|bundle|..];
    Beneath(bundle, q);
  }

  lemma ListedAreIn<C>(files: seq<string>, inv: map<string, C>)
    requires Lists(files, inv)
    ensures forall i :: 0 <= i < |files| ==> files[i] in inv
  {
    forall i | 0 <= i < |files| ensures files[i] in inv {
      assert files[i] in Elements(files);
    }
  }

  /** `writeChecksums`: afterwards the list passes, and nothing else changed. */
  method WriteBundleChecksums(fs: FileSystem, bundle: Path, sha: Sha) returns (ok: bool)
    requires FileTree.WellFormed(fs.nodes) && IsDir(fs.nodes, bundle) && CleanBundle(fs.nodes, bundle) && HashTexts(sha)
    modifies fs
    ensures ok <==> !IsDir(old(fs.nodes), bundle + [CHECKSUMS])
    ensures ok ==> forall q :: q != bundle + [CHECKSUMS] ==> Get(fs.nodes, q) == Get(old(fs.nodes), q)
    ensures ok ==> FileTree.WellFormed(fs.nodes) && ChecksumsPass(fs.nodes, bundle, sha)
    ensures !ok ==> fs.nodes == old(fs.nodes)
  {
    ghost var t := fs.nodes;
    var files := ListBundleFiles(fs.nodes, bundle);
    var inv := Inventory(fs.nodes, bundle);
    ListedAreIn(files, inv);
    var text := WriteChecksums(sha, files, inv);
    assert Parent(bundle + [CHECKSUMS]) == bundle;
    ok := fs.Write(bundle + [CHECKSUMS], Content.Text(text));
    if ok {
      ListWritten(t, fs.nodes, bundle, sha, files, text);
    }
  }

  lemma ListWritten(t: Tree, u: Tree, bundle: Path, sha: Sha, files: seq<string>, text: string)
    requires FileTree.WellFormed(t) && IsDir(t, bundle) && CleanBundle(t, bundle) && HashTexts(sha)
    requires Lists(files, Inventory(t, bundle)) && forall i :: 0 <= i < |files| ==> files[i] in Inventory(t, bundle)
    requires text == Format(EntriesFor(sha, files, Inventory(t, bundle)))
    requires WriteFile(t, bundle + [CHECKSUMS], Content.Text(text)) == Some(u)
    ensures FileTree.WellFormed(u) && ChecksumsPass(u, bundle, sha)
    ensures forall q :: q != bundle + [CHECKSUMS] ==> Get(u, q) == Get(t, q)
  {
    WrittenListPasses(t, bundle, sha, files);
    FileReplacesNothing(t, u, bundle + [CHECKSUMS], Content.Text(text));
  }

  lemma WrittenListPasses(t: Tree, bundle: Path, sha: Sha, files: seq<string>)
    requires FileTree.WellFormed(t) && IsDir(t, bundle) && CleanBundle(t, bundle) && HashTexts(sha)
    requires Lists(files, Inventory(t, bundle)) && forall i :: 0 <= i < |files| ==> files[i] in Inventory(t, bundle)
    ensures var list := File(Content.Text(Format(EntriesFor(sha, files, Inventory(t, bundle)))));
            ChecksumsPass(t[bundle + [CHECKSUMS] := list], bundle, sha)
  {
    var inv := Inventory(t, bundle);
    var text := Format(EntriesFor(sha, files, inv));
    var u := t[bundle + [CHECKSUMS] := File(Content.Text(text))];
    forall r | r != [CHECKSUMS] ensures Get(u, bundle + r) == Get(t, bundle + r) {
      BeneathOf(bundle, r);
      BeneathOf(bundle, [CHECKSUMS]);
    }
    SameInventory(t, u, bundle);
    assert CleanPaths(inv) by { InventoryMeaning(t, bundle); }
    ListPassesItself(text, sha, files, inv);
  }

  lemma ListPassesItself(text: string, sha: Sha, files: seq<string>, inv: map<string, Content>)
    requires HashTexts(sha) && CleanPaths(inv) && Lists(files, inv) && forall i :: 0 <= i < |files| ==> files[i] in inv
    requires text == Format(EntriesFor(sha, files, inv))
    ensures ListAgrees(text, sha, inv)
  {
    VerificationIsExact(sha, files, inv, files, inv);
    PassesInAnyOrder(text, files, sha, inv);
  }

  /** Verification looks at nothing outside the bundle. */
  lemma VerifyOnlyReadsBundle(t: Tree, u: Tree, bundle: Path, sha: Sha, version: Option<string>, allowMismatch: bool)
    requires FileTree.WellFormed(t) && CleanBundle(t, bundle)
    requires forall q :: bundle <= q ==> Get(u, q) == Get(t, q)
    ensures Verify(u, bundle, sha, version, allowMismatch) == Verify(t, bundle, sha, version, allowMismatch)
  {
    forall r ensures Get(u, bundle + r) == Get(t, bundle + r) { BeneathOf(bundle, r); }
    assert ReadManifest(u, bundle) == ReadManifest(t, bundle);
    if ReadManifest(t, bundle).Some? {
      assert Parent(bundle + [MANIFEST]) == bundle;
      ChecksumsOnlyReadBundle(t, u, bundle, sha);
      SamePresence(t, u, bundle, ReadManifest(t, bundle).value.sections);
    }
  }

  lemma ChecksumsOnlyReadBundle(t: Tree, u: Tree, bundle: Path, sha: Sha)
    requires FileTree.WellFormed(t) && IsDir(t, bundle) && CleanBundle(t, bundle)
    requires forall r :: Get(u, bundle + r) == Get(t, bundle + r)
    ensures ChecksumsPass(u, bundle, sha) == ChecksumsPass(t, bundle, sha)
  {
    SameInventory(t, u, bundle);
  }

  lemma SamePresence(t: Tree, u: Tree, bundle: Path, sections: seq<Section>)
    requires forall r :: Get(u, bundle + r) == Get(t, bundle + r)
    ensures SectionsPresent(u, bundle, sections) == SectionsPresent(t, bundle, sections)
  {
    forall i | 0 <= i < |sections|
      ensures bundle + sections[i].bundlePath in u <==> bundle + sections[i].bundlePath in t
    {
      assert Get(u, bundle + sections[i].bundlePath) == Get(t, bundle + sections[i].bundlePath);
    }
  }
}
