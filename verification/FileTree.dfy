/** An abstract file system and the tree operations of src/ops/backup/backup-utils.ts. */
module FileTree {
  import opened Common
  import opened Manifests

  /** Directories are explicit, so an empty one exists. */
  datatype Node = Dir | File(content: Content)

  type Tree = map<Path, Node>

  function Get(t: Tree, p: Path): Option<Node> { if p in t then Some(t[p]) else None }

  function Parent(p: Path): Path
    requires p != []
  {
    p[..|p| - 1]
  }

  predicate IsDir(t: Tree, p: Path) { p in t && t[p] == Dir }

  /** The root exists and every other entry lies in a directory. */
  ghost predicate WellFormed(t: Tree) {
    IsDir(t, []) && forall p :: p in t && p != [] ==> IsDir(t, Parent(p))
  }

  /** One path lies at or below the other. */
  predicate Overlap(a: Path, b: Path) { a <= b || b <= a }

  ghost predicate NothingAt(t: Tree, p: Path) { forall q :: q in t ==> !(p <= q) }

  /** No file stands where a directory of the path is needed. */
  ghost predicate Openable(t: Tree, p: Path) { forall k :: 0 <= k <= |p| && p[..k] in t ==> t[p[..k]] == Dir }

  lemma {:induction false} AncestorsAreDirs(t: Tree, p: Path, k: nat)
    requires WellFormed(t) && p in t && k < |p|
    ensures IsDir(t, p[..k])
    decreases |p|
  {
    assert IsDir(t, Parent(p));
    if k < |p| - 1 {
      AncestorsAreDirs(t, Parent(p), k);
      assert Parent(p)[..k] == p[..k];
    }
  }

  lemma PrefixesCompare(a: Path, b: Path, c: Path)
    requires a <= c && b <= c
    ensures Overlap(a, b)
  {
    if |a| <= |b| {
      assert a == c[..|a|] && b == c[..|b|];
      assert b[..|a|] == a;
    } else {
      assert a[..|b|] == b;
    }
  }

  lemma PrefixChain(a: Path, b: Path, c: Path)
    ensures a <= b && b <= c ==> a <= c
  {
    if a <= b && b <= c {
      assert a == b[..|a|] == c[..|a|];
    }
  }

  lemma Beneath(d: Path, q: Path)
    requires d <= q
    ensures d + q[|d|..] == q
  {}

  lemma BeneathOf(d: Path, r: Path)
    ensures d <= d + r && (d + r)[|d|..] == r
  {}

  /** A place apart from `d` stays apart from it further down. */
  lemma ApartBelow(s: Path, r: Path, d: Path)
    requires !Overlap(s, d)
    ensures !Overlap(s + r, d)
  {
    BeneathOf(s, r);
    if d <= s + r {
      PrefixesCompare(s, d, s + r);
    }
    PrefixChain(s, s + r, d);
  }

  lemma OrderBelow(d: Path, a: Path, b: Path)
    ensures d + a <= d + b <==> a <= b
  {
    if d + a <= d + b {
      assert forall k :: 0 <= k < |a| ==> a[k] == (d + a)[|d| + k] && b[k] == (d + b)[|d| + k];
    }
  }

  // ---------------------------------------------------------------- primitive operations

  /** `rmSync(path, { recursive, force })`. */
  function RemoveAll(t: Tree, p: Path): Tree { map q | q in t && !(p <= q) :: t[q] }

  /** `mkdirSync(path, { recursive })`; None when a file is in the way. */
  function EnsureDir(t: Tree, p: Path): Option<Tree>
    decreases |p|
  {
    if p in t then if t[p] == Dir then Some(t) else None
    else if p == [] then None
    else match EnsureDir(t, Parent(p))
         case None => None
         case Some(u) => Some(u[p := Dir])
  }

  /** The tree with everything at `src` also at `dst`. */
  function Overlay(t: Tree, src: Path, dst: Path): Tree {
    map q | q in t.Keys + (set r | r in t && src <= r :: dst + r[|src|..]) ::
      if dst <= q && src + q[|dst|..] in t then t[src + q[|dst|..]]
      else if q in t then t[q] else Dir
  }

  /** A directory meets a file at the same place of a merge. */
  predicate Conflicts(t: Tree, src: Path, dst: Path) {
    exists r :: r in t && src <= r && dst + r[|src|..] in t && (t[r] == Dir) != (t[dst + r[|src|..]] == Dir)
  }

  /** `cpSync`; None when the source is missing, is copied into itself, or kinds conflict. */
  function CopySync(t: Tree, src: Path, dst: Path): Option<Tree> {
    if src !in t || src <= dst || Conflicts(t, src, dst) then None else Some(Overlay(t, src, dst))
  }

  /** `copyPath`. */
  function CopyPath(t: Tree, src: Path, dst: Path): Option<Tree> {
    if src !in t || dst == [] then None
    else match EnsureDir(t, Parent(dst))
         case None => None
         case Some(u) => CopySync(u, src, dst)
  }

  /** `replacePath`. */
  function ReplacePath(t: Tree, src: Path, dst: Path): Option<Tree> { CopyPath(RemoveAll(t, dst), src, dst) }

  /** `writeFileSync` into an existing directory. */
  function WriteFile(t: Tree, p: Path, c: Content): Option<Tree> {
    if p == [] || !IsDir(t, Parent(p)) || IsDir(t, p) then None else Some(t[p := File(c)])
  }

  /** Something stands at both places, a directory at one and a file at the other. */
  ghost predicate KindsDiffer(a: Option<Node>, b: Option<Node>) {
    a.Some? && b.Some? && a != b && (a.value == Dir || b.value == Dir)
  }

  lemma ConflictsByPlace(t: Tree, src: Path, dst: Path)
    ensures Conflicts(t, src, dst) <==> exists r :: KindsDiffer(Get(t, src + r), Get(t, dst + r))
  {
    if q :| q in t && src <= q && dst + q[|src|..] in t && (t[q] == Dir) != (t[dst + q[|src|..]] == Dir) {
      var r := q[|src|..];
      assert q == src + r;
      assert KindsDiffer(Get(t, src + r), Get(t, dst + r));
    }
    if r :| KindsDiffer(Get(t, src + r), Get(t, dst + r)) {
      assert (src + r)[|src|..] == r && src <= src + r;
    }
  }

  /** A copy onto what exists merges: it fails exactly when there is no source, when it is copied into itself, or when
      a file meets a directory; otherwise the copied nodes stand at the destination over what was there. */
  lemma MergeMeaning(t: Tree, src: Path, dst: Path)
    ensures CopySync(t, src, dst).None? <==>
            Get(t, src).None? || src <= dst || exists r :: KindsDiffer(Get(t, src + r), Get(t, dst + r))
    ensures CopySync(t, src, dst).Some? ==>
              var u := CopySync(t, src, dst).value;
              && (forall r :: Get(u, dst + r) == if src + r in t then Get(t, src + r) else Get(t, dst + r))
              && forall q :: !(dst <= q) ==> Get(u, q) == Get(t, q)
  {
    ConflictsByPlace(t, src, dst);
    forall r ensures Get(Overlay(t, src, dst), dst + r) == if src + r in t then Get(t, src + r) else Get(t, dst + r) {
      assert (dst + r)[|dst|..] == r && (src + r)[|src|..] == r && src <= src + r;
      forall q | q in t && src <= q && dst + q[|src|..] == dst + r ensures src + r in t {
        assert (dst + q[|src|..])[|dst|..] == q[|src|..];
        assert q == src + q[|src|..];
      }
    }
  }

  // ---------------------------------------------------------------- what they do

  lemma RemoveAllMeaning(t: Tree, p: Path)
    requires WellFormed(t) && p != []
    ensures WellFormed(RemoveAll(t, p)) && NothingAt(RemoveAll(t, p), p)
    ensures forall q :: Get(RemoveAll(t, p), q) == if p <= q then None else Get(t, q)
  {
    var u := RemoveAll(t, p);
    forall q | q in u && q != [] ensures IsDir(u, Parent(q)) {
      assert IsDir(t, Parent(q));
      PrefixOfParent(q, p);
    }
  }

  lemma PrefixOfParent(p: Path, q: Path)
    requires p != []
    ensures q <= p <==> q <= Parent(p) || q == p
  {
    if q <= p && q != p {
      assert q == p[..|q|] && Parent(p)[..|q|] == q;
    }
  }

  lemma OpenableParent(t: Tree, p: Path)
    requires p != [] && p !in t
    ensures Openable(t, p) <==> Openable(t, Parent(p))
  {
    var d := Parent(p);
    forall k | 0 <= k <= |d| ensures d[..k] == p[..k] {}
    assert p[..|p|] == p;
    if Openable(t, d) {
      forall k | 0 <= k <= |p| && p[..k] in t ensures t[p[..k]] == Dir {
        if k <= |d| { assert d[..k] == p[..k]; }
      }
    }
  }

  lemma ExistingIsOpenable(t: Tree, p: Path)
    requires WellFormed(t) && p in t
    ensures Openable(t, p) <==> t[p] == Dir
    ensures t[p] == Dir ==> forall q :: q <= p ==> Get(t, q) == Some(Dir)
  {
    assert p[..|p|] == p;
    forall k | 0 <= k < |p| ensures IsDir(t, p[..k]) {
      AncestorsAreDirs(t, p, k);
    }
    forall q | q <= p && q != p ensures Get(t, q) == Some(Dir) {
      assert q == p[..|q|];
    }
  }

  /** `u` is `t` with the directory and its ancestors present. */
  ghost predicate DirEnsured(t: Tree, p: Path, u: Tree) {
    WellFormed(u) && forall q :: Get(u, q) == if q <= p then Some(Dir) else Get(t, q)
  }

  lemma OneMoreDir(t: Tree, u: Tree, p: Path)
    requires p != [] && p !in t && DirEnsured(t, Parent(p), u)
    ensures DirEnsured(t, p, u[p := Dir])
  {
    var d := Parent(p);
    var v := u[p := Dir];
    assert Get(u, d) == Some(Dir) && Get(u, p) == Get(t, p);
    forall q ensures Get(v, q) == if q <= p then Some(Dir) else Get(t, q) {
      PrefixOfParent(p, q);
      if q == p {
        assert v[q] == Dir;
      } else {
        assert Get(v, q) == Get(u, q) == if q <= d then Some(Dir) else Get(t, q);
      }
    }
  }

  lemma {:induction false} EnsureDirMeaning(t: Tree, p: Path)
    requires WellFormed(t)
    ensures EnsureDir(t, p).Some? <==> Openable(t, p)
    ensures EnsureDir(t, p).Some? ==> DirEnsured(t, p, EnsureDir(t, p).value)
    decreases |p|
  {
    if p in t {
      ExistingIsOpenable(t, p);
    } else {
      EnsureDirMeaning(t, Parent(p));
      OpenableParent(t, p);
      if EnsureDir(t, Parent(p)).Some? {
        OneMoreDir(t, EnsureDir(t, Parent(p)).value, p);
      }
    }
  }

  /** Everything at `src` now also stands at `dst`, directories lead to it, and nothing else changed. */
  ghost predicate Placed(t: Tree, src: Path, dst: Path, u: Tree) {
    forall q :: Get(u, q) == if dst <= q then Get(t, src + q[|dst|..]) else if q <= dst then Some(Dir) else Get(t, q)
  }

  lemma OverlayMeaning(t: Tree, src: Path, dst: Path)
    requires WellFormed(t) && NothingAt(t, dst) && src in t && dst != [] && IsDir(t, Parent(dst)) && !(src <= dst)
    ensures var u := Overlay(t, src, dst);
            forall q :: Get(u, q) == if dst <= q then Get(t, src + q[|dst|..]) else Get(t, q)
  {
    var u := Overlay(t, src, dst);
    forall q ensures Get(u, q) == if dst <= q then Get(t, src + q[|dst|..]) else Get(t, q) {
      CopiedAt(t, src, dst, q);
    }
  }

  lemma CopiedAt(t: Tree, src: Path, dst: Path, q: Path)
    ensures (exists s :: s in t && src <= s && q == dst + s[|src|..]) <==> dst <= q && src + q[|dst|..] in t
  {
    if exists s :: s in t && src <= s && q == dst + s[|src|..] {
      var s :| s in t && src <= s && q == dst + s[|src|..];
      BeneathOf(dst, s[|src|..]);
      Beneath(src, s);
    }
    if dst <= q && src + q[|dst|..] in t {
      var r := src + q[|dst|..];
      BeneathOf(src, q[|dst|..]);
      Beneath(dst, q);
      assert r in t && src <= r && q == dst + r[|src|..];
    }
  }

  lemma ParentBelow(src: Path, dst: Path, p: Path)
    requires p != [] && dst <= Parent(p)
    ensures dst <= p && src + p[|dst|..] != [] && Parent(src + p[|dst|..]) == src + Parent(p)[|dst|..]
  {}

  lemma OverlayKeepsWellFormed(t: Tree, src: Path, dst: Path)
    requires WellFormed(t) && NothingAt(t, dst) && src in t && dst != [] && IsDir(t, Parent(dst)) && !(src <= dst)
    ensures WellFormed(Overlay(t, src, dst))
  {
    OverlayMeaning(t, src, dst);
    var u := Overlay(t, src, dst);
    assert Get(u, []) == Get(t, []);
    forall p | p in u && p != [] ensures IsDir(u, Parent(p)) {
      var d := Parent(p);
      assert Get(u, p) == if dst <= p then Get(t, src + p[|dst|..]) else Get(t, p);
      assert Get(u, d) == if dst <= d then Get(t, src + d[|dst|..]) else Get(t, d);
      PrefixOfParent(p, dst);
      if dst <= d {
        ParentBelow(src, dst, p);
      }
    }
  }

  /** Copying to a free place succeeds exactly when no file blocks the way. */
  lemma CopyPathMeaning(t: Tree, src: Path, dst: Path)
    requires WellFormed(t) && NothingAt(t, dst) && src in t && dst != [] && !(src <= dst)
    ensures CopyPath(t, src, dst).Some? <==> Openable(t, Parent(dst))
    ensures CopyPath(t, src, dst).Some? ==>
              WellFormed(CopyPath(t, src, dst).value) && Placed(t, src, dst, CopyPath(t, src, dst).value)
  {
    var d := Parent(dst);
    EnsureDirMeaning(t, d);
    if Openable(t, d) {
      var u := EnsureDir(t, d).value;
      forall q | q in u ensures !(dst <= q) {
        assert Get(u, q) == if q <= d then Some(Dir) else Get(t, q);
        if q <= d { assert |q| < |dst|; }
      }
      assert Get(u, src) == Get(t, src) && Get(u, d) == Some(Dir);
      NoConflict(u, src, dst);
      OverlayMeaning(u, src, dst);
      OverlayKeepsWellFormed(u, src, dst);
      PlacedThroughDirs(t, u, src, dst, Overlay(u, src, dst));
    }
  }

  lemma NoConflict(t: Tree, src: Path, dst: Path)
    requires NothingAt(t, dst)
    ensures !Conflicts(t, src, dst)
  {
    forall r | r in t && src <= r ensures dst + r[|src|..] !in t {
      BeneathOf(dst, r[|src|..]);
    }
  }

  lemma AboveParent(a: Path, b: Path, p: Path)
    requires p != []
    ensures a <= b && b <= Parent(p) ==> a <= p
  {
    if a <= b && b <= Parent(p) {
      assert a == b[..|a|] == p[..|a|];
    }
  }

  lemma PlacedThroughDirs(t: Tree, u: Tree, src: Path, dst: Path, v: Tree)
    requires dst != [] && !(src <= dst)
    requires forall q :: Get(u, q) == if q <= Parent(dst) then Some(Dir) else Get(t, q)
    requires forall q :: Get(v, q) == if dst <= q then Get(u, src + q[|dst|..]) else Get(u, q)
    ensures Placed(t, src, dst, v)
  {
    forall q
      ensures Get(v, q) == if dst <= q then Get(t, src + q[|dst|..]) else if q <= dst then Some(Dir) else Get(t, q)
    {
      if dst <= q {
        var r := src + q[|dst|..];
        BeneathOf(src, q[|dst|..]);
        AboveParent(src, r, dst);
      } else if q <= dst {
        assert q == dst[..|q|] && Parent(dst)[..|q|] == q;
      }
    }
  }

  /** Replacing a path by a copy of a place apart from it. */
  lemma ReplacePathMeaning(t: Tree, src: Path, dst: Path)
    requires WellFormed(t) && src in t && dst != [] && !Overlap(src, dst)
    ensures ReplacePath(t, src, dst).Some? <==> Openable(t, Parent(dst))
    ensures ReplacePath(t, src, dst).Some? ==>
              WellFormed(ReplacePath(t, src, dst).value) && Placed(t, src, dst, ReplacePath(t, src, dst).value)
  {
    var u := RemoveAll(t, dst);
    RemoveAllMeaning(t, dst);
    CopyPathMeaning(u, src, dst);
    var d := Parent(dst);
    forall k | 0 <= k <= |d| ensures Get(u, d[..k]) == Get(t, d[..k]) {}
    if Openable(t, d) {
      assert Openable(u, d) by {
        forall k | 0 <= k <= |d| && d[..k] in u ensures u[d[..k]] == Dir { assert Get(u, d[..k]) == Get(t, d[..k]); }
      }
    }
    if Openable(u, d) {
      assert Openable(t, d) by {
        forall k | 0 <= k <= |d| && d[..k] in t ensures t[d[..k]] == Dir { assert Get(u, d[..k]) == Get(t, d[..k]); }
      }
      var v := CopyPath(u, src, dst).value;
      forall q
        ensures Get(v, q) == if dst <= q then Get(t, src + q[|dst|..]) else if q <= dst then Some(Dir) else Get(t, q)
      {
        assert Get(v, q) == if dst <= q then Get(u, src + q[|dst|..]) else if q <= dst then Some(Dir) else Get(u, q);
        if dst <= q {
          BeneathOf(src, q[|dst|..]);
          if dst <= src + q[|dst|..] { PrefixesCompare(dst, src, src + q[|dst|..]); }
        }
      }
    }
  }

  lemma FileReplacesNothing(t: Tree, u: Tree, f: Path, c: Content)
    requires WellFormed(t) && f != [] && IsDir(t, Parent(f)) && !IsDir(t, f) && u == t[f := File(c)]
    ensures WellFormed(u)
  {
    forall p | p in u && p != [] ensures IsDir(u, Parent(p)) {
      if p != f { assert IsDir(t, Parent(p)); }
    }
  }

  // ---------------------------------------------------------------- the mutable file system

  /** Each method answers whether the operation went through; after a failure nothing is promised unless the
      method says so. */
  class FileSystem {
    var nodes: Tree

    constructor (t: Tree)
      ensures nodes == t
    {
      nodes := t;
    }

    method MakeDir(p: Path) returns (ok: bool)
      modifies this
      ensures ok <==> EnsureDir(old(nodes), p).Some?
      ensures ok ==> nodes == EnsureDir(old(nodes), p).value
    {
      var u := EnsureDir(nodes, p);
      ok := u.Some?;
      if ok { nodes := u.value; }
    }

    method Copy(src: Path, dst: Path) returns (ok: bool)
      modifies this
      ensures ok <==> CopyPath(old(nodes), src, dst).Some?
      ensures ok ==> nodes == CopyPath(old(nodes), src, dst).value
    {
      if src !in nodes || dst == [] {
        return false;
      }
      ok := MakeDir(Parent(dst));
      if !ok {
        return;
      }
      var u := CopySync(nodes, src, dst);
      ok := u.Some?;
      if ok { nodes := u.value; }
    }

    method Remove(p: Path)
      modifies this
      ensures nodes == RemoveAll(old(nodes), p)
    {
      nodes := RemoveAll(nodes, p);
    }

    method Replace(src: Path, dst: Path) returns (ok: bool)
      modifies this
      ensures ok <==> ReplacePath(old(nodes), src, dst).Some?
      ensures ok ==> nodes == ReplacePath(old(nodes), src, dst).value
    {
      Remove(dst);
      ok := Copy(src, dst);
    }

    method Write(p: Path, c: Content) returns (ok: bool)
      modifies this
      ensures ok <==> WriteFile(old(nodes), p, c).Some?
      ensures nodes == if ok then WriteFile(old(nodes), p, c).value else old(nodes)
    {
      var u := WriteFile(nodes, p, c);
      ok := u.Some?;
      if ok { nodes := u.value; }
    }
  }
}
