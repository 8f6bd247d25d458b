/** What verification of a bundle detects, and what it demands (src/ops/backup/backup-verify.ts,
    src/ops/backup/backup-checksums.ts, src/ops/backup/backup-manifest.ts). */
module BackupIntegrity {
  import opened Common
  import opened Manifests
  import opened FileTree
  import opened Checksums
  import opened BundleFiles
  import opened BackupVerify

  // ---------------------------------------------------------------- changed bundles

  ghost predicate Sound(t: Tree, bundle: Path) {
    FileTree.WellFormed(t) && IsDir(t, bundle) && CleanBundle(t, bundle)
  }

  lemma ListedFile(t: Tree, bundle: Path, r: Path)
    requires Sound(t, bundle) && IsFile(t, bundle + r) && r != [CHECKSUMS]
    ensures Render(r) in Inventory(t, bundle) && Inventory(t, bundle)[Render(r)] == t[bundle + r].content
    ensures Unrender(Render(r)) == r
  {
    var q := bundle + r;
    assert q in FilesUnder(t, bundle) && q != bundle + [CHECKSUMS] && q[|bundle|..] == r;
    assert r in Listed(t, bundle);
    InventoryMeaning(t, bundle);
  }

  lemma InventoriedFile(t: Tree, bundle: Path, r: Path)
    requires Sound(t, bundle) && Render(r) in Inventory(t, bundle) && Unrender(Render(r)) == r
    ensures IsFile(t, bundle + r) && Inventory(t, bundle)[Render(r)] == t[bundle + r].content
  {
    InventoryMeaning(t, bundle);
    var r' :| r' in Listed(t, bundle) && Render(r') == Render(r);
    assert r' == r;
  }

  /** A list that agrees with two inventories makes them agree. */
  lemma OneListOneInventory(text: string, sha: Sha, inv: map<string, Content>, inv': map<string, Content>, p: string)
    requires ListAgrees(text, sha, inv) && ListAgrees(text, sha, inv') && p in inv
    ensures p in inv' && sha(inv'[p]) == sha(inv[p])
  {
    var es := Parse(text).value;
    assert Mentioned(es, p);
    var j :| 0 <= j < |es| && es[j].path == p;
    assert HashesOf(sha, inv)(es[j].path) == Some(es[j].hash) == HashesOf(sha, inv')(es[j].path);
  }

  lemma KeptFile(t: Tree, u: Tree, bundle: Path, sha: Sha, r: Path)
    requires Sound(t, bundle) && Sound(u, bundle) && ChecksumsPass(t, bundle, sha) && ChecksumsPass(u, bundle, sha)
    requires Get(u, bundle + [CHECKSUMS]) == Get(t, bundle + [CHECKSUMS]) && IsFile(t, bundle + r)
    ensures IsFile(u, bundle + r) && sha(u[bundle + r].content) == sha(t[bundle + r].content)
  {
    if r != [CHECKSUMS] {
      var text := t[bundle + [CHECKSUMS]].content.text;
      ListedFile(t, bundle, r);
      OneListOneInventory(text, sha, Inventory(t, bundle), Inventory(u, bundle), Render(r));
      InventoriedFile(u, bundle, r);
    }
  }

  /** Main result: when a bundle verifies, one with the same list and a file added, removed or edited does not, unless
      the hash confuses the old and the new content. */
  lemma ChangeIsDetected(t: Tree, u: Tree, bundle: Path, sha: Sha, m: Manifest, version: Option<string>,
                         allowMismatch: bool, r: Path)
    requires Sound(t, bundle) && Sound(u, bundle)
    requires Verify(t, bundle, sha, version, allowMismatch) == Some(m)
    requires Get(u, bundle + [CHECKSUMS]) == Get(t, bundle + [CHECKSUMS])
    requires if IsFile(t, bundle + r) && IsFile(u, bundle + r)
             then sha(u[bundle + r].content) != sha(t[bundle + r].content)
             else IsFile(t, bundle + r) || IsFile(u, bundle + r)
    ensures Verify(u, bundle, sha, version, allowMismatch) == None
  {
    if Verify(u, bundle, sha, version, allowMismatch).Some? {
      if IsFile(t, bundle + r) {
        KeptFile(t, u, bundle, sha, r);
      } else {
        KeptFile(u, t, bundle, sha, r);
      }
    }
  }

  // ---------------------------------------------------------------- what is demanded

  /** As many entries as files, every file mentioned, and every entry with the hash of its file. */
  ghost predicate ListsExactly(es: seq<Entry>, sha: Sha, inv: map<string, Content>) {
    && |es| == |inv| && (forall p :: p in inv ==> exists e :: e in es && e.path == p)
    && forall e :: e in es ==> e.path in inv && sha(inv[e.path]) == e.hash
  }

  lemma ListsByMention(es: seq<Entry>, sha: Sha, inv: map<string, Content>)
    ensures (forall p :: p in inv ==> Mentioned(es, p)) <==> forall p :: p in inv ==> exists e :: e in es && e.path == p
    ensures (forall j :: 0 <= j < |es| ==> HashesOf(sha, inv)(es[j].path) == Some(es[j].hash)) <==>
            forall e :: e in es ==> e.path in inv && sha(inv[e.path]) == e.hash
  {
    forall p ensures Mentioned(es, p) <==> exists e :: e in es && e.path == p {
      if e :| e in es && e.path == p {
        var j :| 0 <= j < |es| && es[j] == e;
      }
    }
  }

  /** The bundle's list has this text and these entries, and they are right. */
  ghost predicate PassingList(t: Tree, bundle: Path, sha: Sha, text: string, es: seq<Entry>) {
    && Get(t, bundle + [CHECKSUMS]) == Some(File(Content.Text(text))) && Parse(text) == Some(es)
    && ListsExactly(es, sha, Inventory(t, bundle))
  }

  lemma PassesExactly(t: Tree, bundle: Path, sha: Sha)
    ensures ChecksumsPass(t, bundle, sha) <==> exists text, es :: PassingList(t, bundle, sha, text, es)
  {
    if ChecksumsPass(t, bundle, sha) {
      var text := t[bundle + [CHECKSUMS]].content.text;
      ListsByMention(Parse(text).value, sha, Inventory(t, bundle));
      assert PassingList(t, bundle, sha, text, Parse(text).value);
    }
    if text, es :| PassingList(t, bundle, sha, text, es) {
      ListsByMention(es, sha, Inventory(t, bundle));
    }
  }

  lemma SectionsByMember(t: Tree, bundle: Path, sections: seq<Section>)
    ensures (forall i :: 0 <= i < |sections| ==> sections[i].bundlePath != [] && sections[i].fileCount >= 0) <==>
            forall s :: s in sections ==> s.bundlePath != [] && s.fileCount >= 0
    ensures SectionsPresent(t, bundle, sections) <==>
            forall s :: s in sections && s.included ==> bundle + s.bundlePath in t
  {}

  /** A bundle verifies, with its manifest, exactly when the manifest is complete, every included section is there, the
      version is the required one or need not be, and the list has one line per file with the file's hash. */
  lemma VerifiesExactly(t: Tree, bundle: Path, sha: Sha, m: Manifest, version: Option<string>, allowMismatch: bool)
    ensures Verify(t, bundle, sha, version, allowMismatch) == Some(m) <==>
            && Get(t, bundle + [MANIFEST]) == Some(File(ManifestJson(m)))
            && m.restorePointId != "" && m.appVersion != "" && m.requiredVersion != "" && m.maxLogFiles >= 0
            && |m.sections| >= 2
            && (forall s :: s in m.sections ==> s.bundlePath != [] && s.fileCount >= 0)
            && (forall s :: s in m.sections && s.included ==> bundle + s.bundlePath in t)
            && (allowMismatch || version == Some(m.requiredVersion))
            && exists text, es :: PassingList(t, bundle, sha, text, es)
  {
    SectionsByMember(t, bundle, m.sections);
    PassesExactly(t, bundle, sha);
  }
}
