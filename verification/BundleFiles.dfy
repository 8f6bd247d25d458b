/** Listing the files below a directory (`walkFiles` of src/ops/backup/backup-utils.ts), and the bundle
    inventory the checksum list is about (src/ops/backup/backup-checksums.ts). */
module BundleFiles {
  import opened Common
  import opened Text
  import opened Manifests
  import opened FileTree
  import opened Checksums

  // ---------------------------------------------------------------- walking

  function FilesUnder(t: Tree, dir: Path): set<Path> {
    set q | q in t && dir <= q && t[q].File?
  }

  function Below(t: Tree, dir: Path): set<Path> {
    set q | q in t && dir <= q
  }

  /** Entries of a directory. */
  function Children(t: Tree, dir: Path): set<Path> {
    set q | q in t && dir <= q && |q| == |dir| + 1
  }

  /** The directory entry through which `q` is reached. */
  function Via(dir: Path, q: Path): Path
    requires dir <= q && |q| > |dir|
  {
    q[..|dir| + 1]
  }

  lemma ReachedThroughChild(t: Tree, dir: Path, q: Path)
    requires WellFormed(t) && q in t && dir <= q && q != dir
    ensures |q| > |dir| && Via(dir, q) in Children(t, dir) && Via(dir, q) <= q
  {
    var c := Via(dir, q);
    if c != q {
      AncestorsAreDirs(t, q, |dir| + 1);
    } else {
      assert q[..|q|] == q;
    }
    assert dir <= c by { assert c[..|dir|] == q[..|dir|] == dir; }
  }

  lemma ChildIsSmaller(t: Tree, dir: Path, c: Path)
    requires dir in t && c in Children(t, dir)
    ensures |Below(t, c)| < |Below(t, dir)|
  {
    assert Below(t, c) <= Below(t, dir) - {dir};
    SubsetCardinality(Below(t, c), Below(t, dir) - {dir});
  }

  /** Files reached through the children not in `todo`. */
  ghost function Walked(t: Tree, dir: Path, todo: set<Path>): set<Path> {
    set q | q in FilesUnder(t, dir) && |q| > |dir| && Via(dir, q) !in todo
  }

  lemma WalkedMore(t: Tree, dir: Path, todo: set<Path>, c: Path)
    requires c in todo && todo <= Children(t, dir)
    ensures Walked(t, dir, todo - {c}) == Walked(t, dir, todo) + FilesUnder(t, c)
    ensures Walked(t, dir, todo) !! FilesUnder(t, c)
  {
    forall q | q in t && c <= q ensures dir <= q && |q| > |dir| && Via(dir, q) == c {
      assert c == q[..|c|];
      assert dir == c[..|dir|] == q[..|dir|];
    }
  }

  lemma NothingWalked(t: Tree, dir: Path)
    requires WellFormed(t) && IsDir(t, dir)
    ensures Walked(t, dir, Children(t, dir)) == {}
  {
    forall q | q in FilesUnder(t, dir) ensures |q| > |dir| && Via(dir, q) in Children(t, dir) {
      ReachedThroughChild(t, dir, q);
    }
  }

  lemma AllWalked(t: Tree, dir: Path)
    requires WellFormed(t) && IsDir(t, dir)
    ensures Walked(t, dir, {}) == FilesUnder(t, dir)
  {
    forall q | q in FilesUnder(t, dir) ensures |q| > |dir| {
      ReachedThroughChild(t, dir, q);
    }
  }

  lemma ConcatDistinct<T>(a: seq<T>, b: seq<T>)
    requires Distinct(a) && Distinct(b) && Elements(a) !! Elements(b)
    ensures Distinct(a + b) && Elements(a + b) == Elements(a) + Elements(b)
  {
    forall i, j | 0 <= i < j < |a + b| ensures (a + b)[i] != (a + b)[j] {
      if i < |a| <= j {
        assert a[i] in Elements(a) && b[j - |a|] in Elements(b);
      }
    }
  }

  /** Every file below the directory exactly once, in whatever order the directories are read. */
  method WalkFiles(t: Tree, dir: Path) returns (files: seq<Path>)
    requires WellFormed(t) && IsDir(t, dir)
    ensures Distinct(files) && Elements(files) == FilesUnder(t, dir)
    decreases |Below(t, dir)|
  {
    files := [];
    var todo := Children(t, dir);
    NothingWalked(t, dir);
    while todo != {}
      invariant todo <= Children(t, dir)
      invariant Distinct(files) && Elements(files) == Walked(t, dir, todo)
      decreases |todo|
    {
      var c :| c in todo;
      var found;
      if t[c] == Dir {
        ChildIsSmaller(t, dir, c);
        found := WalkFiles(t, c);
      } else {
        found := [c];
        FileIsAlone(t, c);
      }
      OneChildMore(t, dir, todo, c, files, found);
      files := files + found;
      todo := todo - {c};
    }
    AllWalked(t, dir);
  }

  lemma OneChildMore(t: Tree, dir: Path, todo: set<Path>, c: Path, files: seq<Path>, found: seq<Path>)
    requires c in todo && todo <= Children(t, dir)
    requires Distinct(files) && Elements(files) == Walked(t, dir, todo)
    requires Distinct(found) && Elements(found) == FilesUnder(t, c)
    ensures Distinct(files + found) && Elements(files + found) == Walked(t, dir, todo - {c})
  {
    WalkedMore(t, dir, todo, c);
    ConcatDistinct(files, found);
  }

  lemma FileHasNothingBelow(t: Tree, c: Path)
    requires WellFormed(t) && c in t && t[c].File?
    ensures FilesUnder(t, c) == {c}
    ensures forall q :: q in t && c <= q ==> q == c
  {
    forall q | q in t && c <= q ensures q == c {
      assert q[..|c|] == c;
      if |q| > |c| {
        AncestorsAreDirs(t, q, |c|);
      }
    }
  }

  lemma FileIsAlone(t: Tree, c: Path)
    requires WellFormed(t) && c in t && t[c].File?
    ensures Distinct([c]) && Elements([c]) == FilesUnder(t, c)
  {
    FileHasNothingBelow(t, c);
    assert c in [c];
  }

  // ---------------------------------------------------------------- relative paths as text

  const CHECKSUMS := "checksums.txt"
  const MANIFEST := "manifest.json"

  function Render(r: Path): string { Join(r, "/") }

  function CutAt(s: string): (n: nat)
    ensures n <= |s|
  {
    if s != "" && s[0] != '/' then 1 + CutAt(s[1..]) else 0
  }

  function Unrender(s: string): Path
    decreases |s|
  {
    var n := CutAt(s);
    if n == |s| then [s] else [s[..n]] + Unrender(s[n + 1..])
  }

  /** A file name without slashes, line terminators, or white space at its ends. */
  predicate CleanName(n: string) {
    CleanPath(n) && forall i :: 0 <= i < |n| ==> n[i] != '/' && n[i] != '\\'
  }

  lemma MetadataNames()
    ensures CleanName(MANIFEST) && CleanName(CHECKSUMS) && MANIFEST != CHECKSUMS
  {
    assert MANIFEST[0] == 'm' && CHECKSUMS[0] == 'c';
  }

  lemma {:induction false} CutAtName(n: string, more: string)
    requires (forall i :: 0 <= i < |n| ==> n[i] != '/') && (more != "" ==> more[0] == '/')
    ensures CutAt(n + more) == |n|
  {
    if n == "" {
      assert n + more == more;
    } else {
      assert (n + more)[1..] == n[1..] + more;
      CutAtName(n[1..], more);
    }
  }

  lemma {:induction false} RenderReadBack(r: Path)
    requires r != [] && forall i :: 0 <= i < |r| ==> CleanName(r[i])
    ensures Unrender(Render(r)) == r && CleanPath(Render(r))
  {
    var n := r[0];
    assert CleanName(n);
    if |r| == 1 {
      CutAtName(n, "");
      assert n + "" == n;
    } else {
      RenderReadBack(r[1..]);
      var more := "/" + Render(r[1..]);
      var s := n + more;
      assert Render(r) == s by { assert n + "/" + Render(r[1..]) == s; }
      CutAtName(n, more);
      assert s[..|n|] == n && s[|n| + 1..] == Render(r[1..]);
      assert r == [n] + r[1..];
      JoinedIsClean(n, Render(r[1..]));
    }
  }

  lemma JoinedIsClean(a: string, b: string)
    requires CleanPath(a) && CleanPath(b)
    ensures CleanPath(a + ("/" + b))
  {
    var s := a + ("/" + b);
    forall i | 0 <= i < |s| ensures s[i] != '\n' && s[i] != '\r' && s[i] != '\U{2028}' && s[i] != '\U{2029}' {
      if i < |a| { assert s[i] == a[i]; } else if i > |a| { assert s[i] == b[i - |a| - 1]; }
    }
    assert s[0] == a[0] && s[|s| - 1] == b[|b| - 1];
  }

  // ---------------------------------------------------------------- the inventory of a bundle

  /** All names below the bundle are clean. */
  ghost predicate CleanBundle(t: Tree, bundle: Path) {
    forall q :: q in t && bundle <= q ==> forall i :: |bundle| <= i < |q| ==> CleanName(q[i])
  }

  /** Relative paths of the bundle's files other than the checksum list. */
  function Listed(t: Tree, bundle: Path): set<Path> {
    set q | q in FilesUnder(t, bundle) && q != bundle + [CHECKSUMS] :: q[|bundle|..]
  }

  function Names(rs: set<Path>): set<string> { set r | r in rs :: Render(r) }

  function Inventory(t: Tree, bundle: Path): map<string, Content> {
    map s | s in Names(Listed(t, bundle)) && IsFile(t, bundle + Unrender(s)) :: t[bundle + Unrender(s)].content
  }

  predicate IsFile(t: Tree, p: Path) { p in t && t[p].File? }

  lemma InventoryMeaning(t: Tree, bundle: Path)
    requires WellFormed(t) && IsDir(t, bundle) && CleanBundle(t, bundle)
    ensures Inventory(t, bundle).Keys == Names(Listed(t, bundle)) && CleanPaths(Inventory(t, bundle))
    ensures forall r :: r in Listed(t, bundle) ==>
              Render(r) in Inventory(t, bundle) && Unrender(Render(r)) == r &&
              IsFile(t, bundle + r) && Inventory(t, bundle)[Render(r)] == t[bundle + r].content
  {
    forall r | r in Listed(t, bundle)
      ensures Unrender(Render(r)) == r && CleanPath(Render(r)) && IsFile(t, bundle + r)
    {
      var q :| q in FilesUnder(t, bundle) && q != bundle + [CHECKSUMS] && r == q[|bundle|..];
      Beneath(bundle, q);
      assert forall i :: 0 <= i < |r| ==> r[i] == q[|bundle| + i];
      assert r == [] ==> q == bundle;
      RenderReadBack(r);
    }
  }

  lemma RenderedLists(t: Tree, bundle: Path, kept: seq<Path>)
    requires WellFormed(t) && IsDir(t, bundle) && CleanBundle(t, bundle)
    requires Distinct(kept) && Elements(kept) == Listed(t, bundle)
    ensures Lists(RenderAll(kept), Inventory(t, bundle))
  {
    InventoryMeaning(t, bundle);
    RenderedNames(kept, Listed(t, bundle));
  }

  lemma RenderedNames(kept: seq<Path>, rs: set<Path>)
    requires Distinct(kept) && Elements(kept) == rs && forall r :: r in rs ==> Unrender(Render(r)) == r
    ensures Distinct(RenderAll(kept)) && Elements(RenderAll(kept)) == Names(rs)
  {
    var files := RenderAll(kept);
    forall i, j | 0 <= i < j < |files| ensures files[i] != files[j] {
      assert kept[i] in rs && kept[j] in rs;
      assert Unrender(files[i]) == kept[i] && Unrender(files[j]) == kept[j];
    }
    forall s | s in Names(rs) ensures s in files {
      var r :| r in rs && Render(r) == s;
      assert r in Elements(kept);
      var i :| 0 <= i < |kept| && kept[i] == r;
      assert files[i] == s;
    }
    forall s | s in files ensures s in Names(rs) {
      var i :| 0 <= i < |files| && files[i] == s;
      assert kept[i] in Elements(kept);
    }
  }

  function RenderAll(kept: seq<Path>): seq<string> {
    seq(|kept|, i requires 0 <= i < |kept| => Render(kept[i]))
  }

  ghost function Relative(walked: seq<Path>, bundle: Path): set<Path>
    requires forall i :: 0 <= i < |walked| ==> bundle <= walked[i]
  {
    set i | 0 <= i < |walked| && walked[i] != bundle + [CHECKSUMS] :: walked[i][|bundle|..]
  }

  lemma RelativeMore(walked: seq<Path>, bundle: Path, i: nat)
    requires Distinct(walked) && i < |walked| && forall k :: 0 <= k < |walked| ==> bundle <= walked[k]
    ensures var r := walked[i][|bundle|..];
            && r !in Relative(walked[..i], bundle)
            && Relative(walked[..i + 1], bundle) ==
               Relative(walked[..i], bundle) + (if walked[i] != bundle + [CHECKSUMS] then {r} else {})
  {
    var w := walked[..i + 1];
    assert forall k :: 0 <= k < i ==> w[k] == walked[..i][k];
    forall k | 0 <= k < i ensures walked[k][|bundle|..] != walked[i][|bundle|..] {
      Beneath(bundle, walked[k]);
      Beneath(bundle, walked[i]);
    }
  }

  lemma KeptMore(walked: seq<Path>, bundle: Path, i: nat, kept: seq<Path>)
    requires Distinct(walked) && i < |walked| && forall k :: 0 <= k < |walked| ==> bundle <= walked[k]
    requires Distinct(kept) && Elements(kept) == Relative(walked[..i], bundle)
    ensures var more := if walked[i] != bundle + [CHECKSUMS] then kept + [walked[i][|bundle|..]] else kept;
            Distinct(more) && Elements(more) == Relative(walked[..i + 1], bundle)
  {
    var r := walked[i][|bundle|..];
    RelativeMore(walked, bundle, i);
    assert Distinct([r]) && Elements([r]) == {r};
    ConcatDistinct(kept, [r]);
  }

  /** `listBundleFiles` up to order. */
  method ListBundleFiles(t: Tree, bundle: Path) returns (files: seq<string>)
    requires WellFormed(t) && IsDir(t, bundle) && CleanBundle(t, bundle)
    ensures Lists(files, Inventory(t, bundle))
  {
    var walked := WalkFiles(t, bundle);
    forall i | 0 <= i < |walked| ensures bundle <= walked[i] {
      assert walked[i] in Elements(walked);
    }
    var kept := KeepListed(walked, bundle);
    RelativeIsListed(t, bundle, walked);
    RenderedLists(t, bundle, kept);
    files := RenderAll(kept);
  }

  /** Relative paths, without the checksum list. */
  method KeepListed(walked: seq<Path>, bundle: Path) returns (kept: seq<Path>)
    requires Distinct(walked) && forall k :: 0 <= k < |walked| ==> bundle <= walked[k]
    ensures Distinct(kept) && Elements(kept) == Relative(walked, bundle)
  {
    kept := [];
    for i := 0 to |walked|
      invariant Distinct(kept) && Elements(kept) == Relative(walked[..i], bundle)
    {
      KeptMore(walked, bundle, i, kept);
      if walked[i] != bundle + [CHECKSUMS] {
        kept := kept + [walked[i][|bundle|..]];
      }
    }
    assert walked[..|walked|] == walked;
  }

  lemma RelativeIsListed(t: Tree, bundle: Path, walked: seq<Path>)
    requires Elements(walked) == FilesUnder(t, bundle) && forall k :: 0 <= k < |walked| ==> bundle <= walked[k]
    ensures Relative(walked, bundle) == Listed(t, bundle)
  {
    forall r | r in Listed(t, bundle) ensures r in Relative(walked, bundle) {
      var q :| q in FilesUnder(t, bundle) && q != bundle + [CHECKSUMS] && r == q[|bundle|..];
      assert q in Elements(walked);
      var i :| 0 <= i < |walked| && walked[i] == q;
    }
    forall r | r in Relative(walked, bundle) ensures r in Listed(t, bundle) {
      var i :| 0 <= i < |walked| && walked[i] != bundle + [CHECKSUMS] && r == walked[i][|bundle|..];
      assert walked[i] in Elements(walked);
    }
  }
}
