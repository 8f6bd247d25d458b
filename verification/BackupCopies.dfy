/** The two copiers that do not copy a whole tree (src/ops/backup/backup-utils.ts): a directory without
    the log directory, and a selection of files. */
module BackupCopies {
  import opened Common
  import opened Manifests
  import opened FileTree
  import opened BundleFiles

  // ---------------------------------------------------------------- a directory without an excluded place

  /** What stands at `src + r` unless it lies at or below the excluded place. */
  function Filtered(t: Tree, src: Path, excl: Path, r: Path): Option<Node> {
    if excl <= src + r then None else Get(t, src + r)
  }

  /** The filtered directory stands at `dst`; nothing else changed. */
  ghost predicate GraftedAt(t: Tree, src: Path, excl: Path, dst: Path, u: Tree) {
    forall q :: Get(u, q) == if dst <= q then Filtered(t, src, excl, q[|dst|..]) else Get(t, q)
  }

  /** Midway: the entries in `todo` are still missing. */
  ghost function PartAt(t: Tree, src: Path, excl: Path, dst: Path, todo: set<Path>, q: Path): Option<Node> {
    if !(dst <= q) then Get(t, q)
    else if q == dst then Some(Dir)
    else if src + [q[|dst|]] in todo then None
    else Filtered(t, src, excl, q[|dst|..])
  }

  ghost predicate PartlyGrafted(t: Tree, src: Path, excl: Path, dst: Path, todo: set<Path>, u: Tree) {
    FileTree.WellFormed(u) && forall q :: Get(u, q) == PartAt(t, src, excl, dst, todo, q)
  }

  ghost predicate CopyReady(t: Tree, src: Path, dst: Path) {
    && FileTree.WellFormed(t) && IsDir(t, src) && !Overlap(src, dst)
    && dst != [] && NothingAt(t, dst) && IsDir(t, Parent(dst))
  }

  method CopyDirectoryFiltered(fs: FileSystem, src: Path, dst: Path, excl: Path) returns (ok: bool)
    requires CopyReady(fs.nodes, src, dst) && !(excl <= src)
    modifies fs
    ensures ok && FileTree.WellFormed(fs.nodes) && GraftedAt(old(fs.nodes), src, excl, dst, fs.nodes)
    decreases |Below(fs.nodes, src)|
  {
    ghost var t := fs.nodes;
    var todo := Children(fs.nodes, src);
    DestinationCanBeMade(t, src, excl, dst);
    ok := fs.MakeDir(dst);
    while todo != {}
      invariant ok && todo <= Children(t, src)
      invariant PartlyGrafted(t, src, excl, dst, todo, fs.nodes)
      decreases |todo|
    {
      var c :| c in todo;
      ghost var u := fs.nodes;
      var target := dst + [c[|src|]];
      NextEntry(t, src, excl, dst, todo, u, c);
      if excl <= c {
        EntryLeftOut(t, src, excl, dst, todo, u, c);
      } else {
        if fs.nodes[c] == Dir {
          SmallerSubtree(t, u, src, c);
          ok := CopyDirectoryFiltered(fs, c, target, excl);
        } else {
          FileIsGrafted(u, c, excl, target);
          ok := fs.Copy(c, target);
        }
        EntryGrafted(t, src, excl, dst, todo, u, c, fs.nodes);
      }
      todo := todo - {c};
    }
    AllGrafted(t, src, excl, dst, fs.nodes);
  }

  lemma DestinationCanBeMade(t: Tree, src: Path, excl: Path, dst: Path)
    requires CopyReady(t, src, dst) && !(excl <= src)
    ensures EnsureDir(t, dst).Some? && PartlyGrafted(t, src, excl, dst, Children(t, src), EnsureDir(t, dst).value)
  {
    var d := Parent(dst);
    ExistingIsOpenable(t, d);
    assert dst !in t;
    OpenableParent(t, dst);
    EnsureDirMeaning(t, dst);
    var u := EnsureDir(t, dst).value;
    forall q ensures Get(u, q) == PartAt(t, src, excl, dst, Children(t, src), q) {
      PrefixOfParent(dst, q);
      if dst <= q && q != dst {
        var r := q[|dst|..];
        assert !(q <= dst);
        EntryLeadsThere(t, src, r);
      }
    }
  }

  lemma EntryLeadsThere(t: Tree, src: Path, r: Path)
    requires FileTree.WellFormed(t) && r != []
    ensures src + r in t ==> src + [r[0]] in t
  {
    if src + r in t {
      var p := src + r;
      assert p[..|src| + 1] == src + [r[0]];
      if |r| > 1 {
        AncestorsAreDirs(t, p, |src| + 1);
      } else {
        assert r == [r[0]];
      }
    }
  }

  lemma EntryShape(t: Tree, src: Path, c: Path)
    requires c in Children(t, src)
    ensures |c| == |src| + 1 && c == src + [c[|src|]]
  {
    assert c == src + c[|src|..] && c[|src|..] == [c[|src|]];
  }

  lemma EntryUnchanged(t: Tree, src: Path, excl: Path, dst: Path, todo: set<Path>, u: Tree, c: Path)
    requires CopyReady(t, src, dst) && PartlyGrafted(t, src, excl, dst, todo, u)
    requires |c| == |src| + 1 && c == src + [c[|src|]]
    ensures forall r :: Get(u, c + r) == Get(t, c + r)
  {
    forall r ensures Get(u, c + r) == Get(t, c + r) {
      BelowEntryIsOutside(src, dst, c, r);
      OutsideUnchanged(t, src, excl, dst, todo, u, c + r);
    }
  }

  lemma BelowEntryIsOutside(src: Path, dst: Path, c: Path, r: Path)
    requires !Overlap(src, dst) && |c| == |src| + 1 && c == src + [c[|src|]]
    ensures !(dst <= c + r)
  {
    assert c + r == src + ([c[|src|]] + r);
    ApartBelow(src, [c[|src|]] + r, dst);
  }

  lemma OutsideUnchanged(t: Tree, src: Path, excl: Path, dst: Path, todo: set<Path>, u: Tree, q: Path)
    requires PartlyGrafted(t, src, excl, dst, todo, u) && !(dst <= q)
    ensures Get(u, q) == Get(t, q)
  {}

  lemma EntryHasRoom(t: Tree, src: Path, excl: Path, dst: Path, todo: set<Path>, u: Tree, c: Path)
    requires CopyReady(t, src, dst) && PartlyGrafted(t, src, excl, dst, todo, u) && c in todo
    requires |c| == |src| + 1 && c == src + [c[|src|]]
    ensures NothingAt(u, dst + [c[|src|]]) && IsDir(u, dst)
  {
    var d := dst + [c[|src|]];
    forall q | d <= q ensures q !in u {
      PrefixChain(dst, d, q);
      assert d[|dst|] == q[|dst|];
      assert Get(u, q) == None;
    }
    assert Get(u, dst) == Some(Dir);
  }

  /** The next entry is unchanged in the partly filled tree, and its destination is free. */
  lemma NextEntry(t: Tree, src: Path, excl: Path, dst: Path, todo: set<Path>, u: Tree, c: Path)
    requires CopyReady(t, src, dst) && PartlyGrafted(t, src, excl, dst, todo, u) && c in todo
    requires todo <= Children(t, src)
    ensures |c| == |src| + 1 && c == src + [c[|src|]] && c in u && u[c] == t[c]
    ensures forall r :: Get(u, c + r) == Get(t, c + r)
    ensures !Overlap(c, dst + [c[|src|]]) && NothingAt(u, dst + [c[|src|]]) && IsDir(u, dst)
    ensures Parent(dst + [c[|src|]]) == dst
  {
    EntryShape(t, src, c);
    EntryUnchanged(t, src, excl, dst, todo, u, c);
    EntryHasRoom(t, src, excl, dst, todo, u, c);
    assert c + [] == c && Get(u, c + []) == Get(t, c + []);
    ApartBelow(src, [c[|src|]], dst);
    ApartBelow(dst, [c[|src|]], c);
  }

  lemma SmallerSubtree(t: Tree, u: Tree, src: Path, c: Path)
    requires src in t && c in Children(t, src) && forall r :: Get(u, c + r) == Get(t, c + r)
    ensures |Below(u, c)| < |Below(t, src)|
  {
    ChildIsSmaller(t, src, c);
    forall q | q in Below(u, c) ensures q in Below(t, c) {
      Beneath(c, q);
      assert Get(u, c + q[|c|..]) == Get(t, c + q[|c|..]);
    }
    forall q | q in Below(t, c) ensures q in Below(u, c) {
      Beneath(c, q);
      assert Get(u, c + q[|c|..]) == Get(t, c + q[|c|..]);
    }
    assert Below(u, c) == Below(t, c);
  }

  lemma FileIsGrafted(u: Tree, c: Path, excl: Path, d: Path)
    requires FileTree.WellFormed(u) && c in u && u[c].File? && !(excl <= c) && !Overlap(c, d)
    requires d != [] && NothingAt(u, d) && IsDir(u, Parent(d))
    ensures CopyPath(u, c, d).Some?
    ensures FileTree.WellFormed(CopyPath(u, c, d).value) && GraftedAt(u, c, excl, d, CopyPath(u, c, d).value)
  {
    ExistingIsOpenable(u, Parent(d));
    CopyPathMeaning(u, c, d);
    var v := CopyPath(u, c, d).value;
    FileHasNothingBelow(u, c);
    forall q ensures Get(v, q) == if d <= q then Filtered(u, c, excl, q[|d|..]) else Get(u, q) {
      PrefixOfParent(d, q);
      if d <= q {
        var r := q[|d|..];
        BeneathOf(c, r);
        if r == [] { assert c + r == c; }
      }
    }
  }

  lemma EntryLeftOut(t: Tree, src: Path, excl: Path, dst: Path, todo: set<Path>, u: Tree, c: Path)
    requires PartlyGrafted(t, src, excl, dst, todo, u) && c in todo && |c| == |src| + 1 && c == src + [c[|src|]]
    requires excl <= c
    ensures PartlyGrafted(t, src, excl, dst, todo - {c}, u)
  {
    forall q ensures PartAt(t, src, excl, dst, todo - {c}, q) == PartAt(t, src, excl, dst, todo, q) {
      if dst <= q && q != dst && src + [q[|dst|]] == c {
        var r := q[|dst|..];
        assert src + r == c + r[1..] by { assert r == [r[0]] + r[1..]; }
        BeneathOf(c, r[1..]);
        PrefixChain(excl, c, src + r);
      }
    }
  }

  lemma EntryGrafted(t: Tree, src: Path, excl: Path, dst: Path, todo: set<Path>, u: Tree, c: Path, v: Tree)
    requires PartlyGrafted(t, src, excl, dst, todo, u) && c in todo && |c| == |src| + 1 && c == src + [c[|src|]]
    requires forall r :: Get(u, c + r) == Get(t, c + r)
    requires FileTree.WellFormed(v) && GraftedAt(u, c, excl, dst + [c[|src|]], v)
    ensures PartlyGrafted(t, src, excl, dst, todo - {c}, v)
  {
    var d := dst + [c[|src|]];
    forall q ensures Get(v, q) == PartAt(t, src, excl, dst, todo - {c}, q) {
      assert Get(v, q) == if d <= q then Filtered(u, c, excl, q[|d|..]) else Get(u, q);
      if d <= q {
        InsideEntry(src, dst, c, q);
        assert Get(u, c + q[|d|..]) == Get(t, c + q[|d|..]);
      } else if dst <= q && q != dst {
        BesideEntry(src, dst, c, q);
      }
    }
  }

  lemma InsideEntry(src: Path, dst: Path, c: Path, q: Path)
    requires |c| == |src| + 1 && c == src + [c[|src|]] && dst + [c[|src|]] <= q
    ensures dst <= q && q != dst && src + [q[|dst|]] == c && src + q[|dst|..] == c + q[|dst| + 1..]
  {
    var d := dst + [c[|src|]];
    PrefixChain(dst, d, q);
    assert q[|dst|] == d[|dst|] == c[|src|];
    assert q[|dst|..] == [c[|src|]] + q[|dst| + 1..];
  }

  lemma BesideEntry(src: Path, dst: Path, c: Path, q: Path)
    requires |c| == |src| + 1 && c == src + [c[|src|]] && dst <= q && q != dst
    ensures src + [q[|dst|]] == c ==> dst + [c[|src|]] <= q
  {
    assert (src + [q[|dst|]])[|src|] == q[|dst|];
  }

  lemma AllGrafted(t: Tree, src: Path, excl: Path, dst: Path, u: Tree)
    requires IsDir(t, src) && !(excl <= src) && PartlyGrafted(t, src, excl, dst, {}, u)
    ensures GraftedAt(t, src, excl, dst, u)
  {
    assert src + [] == src;
    forall q ensures Get(u, q) == if dst <= q then Filtered(t, src, excl, q[|dst|..]) else Get(t, q) {
      assert Get(u, q) == PartAt(t, src, excl, dst, {}, q);
    }
  }

  // ---------------------------------------------------------------- a selection of files

  /** The place is a selected file or leads to one. */
  ghost predicate TowardsSelected(rels: seq<Path>, r: Path) {
    exists k :: 0 <= k < |rels| && r <= rels[k]
  }

  /** The selected files of `src`, and nothing else, stand below `dst`. */
  ghost predicate SelectedAt(t: Tree, src: Path, rels: seq<Path>, dst: Path, u: Tree) {
    forall q :: Get(u, q) ==
      if dst <= q then if q == dst then Some(Dir)
                       else if TowardsSelected(rels, q[|dst|..]) then Get(t, src + q[|dst|..]) else None
      else Get(t, q)
  }

  method CopySelectedFiles(fs: FileSystem, src: Path, dst: Path, rels: seq<Path>) returns (ok: bool)
    requires CopyReady(fs.nodes, src, dst)
    requires Distinct(rels) && forall k :: 0 <= k < |rels| ==> rels[k] != [] && IsFile(fs.nodes, src + rels[k])
    modifies fs
    ensures ok && FileTree.WellFormed(fs.nodes) && SelectedAt(old(fs.nodes), src, rels, dst, fs.nodes)
  {
    ghost var t := fs.nodes;
    NoneSelected(t, src, dst);
    ok := fs.MakeDir(dst);
    for i := 0 to |rels|
      invariant ok && FileTree.WellFormed(fs.nodes) && SelectedAt(t, src, rels[..i], dst, fs.nodes)
    {
      ghost var u := fs.nodes;
      OneMoreSelected(t, src, rels, dst, i, u);
      ok := fs.Copy(src + rels[i], dst + rels[i]);
    }
    assert rels[..|rels|] == rels;
  }

  lemma NoneSelected(t: Tree, src: Path, dst: Path)
    requires CopyReady(t, src, dst)
    ensures EnsureDir(t, dst).Some? && FileTree.WellFormed(EnsureDir(t, dst).value)
    ensures SelectedAt(t, src, [], dst, EnsureDir(t, dst).value)
  {
    ExistingIsOpenable(t, Parent(dst));
    assert dst !in t;
    OpenableParent(t, dst);
    EnsureDirMeaning(t, dst);
    var u := EnsureDir(t, dst).value;
    forall q ensures Get(u, q) == if dst <= q then if q == dst then Some(Dir) else None else Get(t, q) {
      PrefixOfParent(dst, q);
      assert dst <= q && q != dst ==> !(q <= dst);
    }
  }

  /** The next selected file has a free place, and copying it there completes one more selection. */
  lemma OneMoreSelected(t: Tree, src: Path, rels: seq<Path>, dst: Path, i: nat, u: Tree)
    requires CopyReady(t, src, dst) && i < |rels|
    requires Distinct(rels) && forall k :: 0 <= k < |rels| ==> rels[k] != [] && IsFile(t, src + rels[k])
    requires FileTree.WellFormed(u) && SelectedAt(t, src, rels[..i], dst, u)
    ensures CopyPath(u, src + rels[i], dst + rels[i]).Some?
    ensures var v := CopyPath(u, src + rels[i], dst + rels[i]).value;
            FileTree.WellFormed(v) && SelectedAt(t, src, rels[..i + 1], dst, v)
  {
    var s, d := src + rels[i], dst + rels[i];
    forall r ensures Get(u, src + r) == Get(t, src + r) { ApartBelow(src, r, dst); }
    assert Get(u, s) == Get(t, s);
    ApartBelow(src, rels[i], dst);
    ApartBelow(dst, rels[i], s);
    FreeForSelected(t, src, rels, dst, i, u);
    OpenForSelected(t, src, rels, dst, i, u);
    CopyPathMeaning(u, s, d);
    SelectionGrows(t, src, rels, dst, i, u, CopyPath(u, s, d).value);
  }

  lemma FreeForSelected(t: Tree, src: Path, rels: seq<Path>, dst: Path, i: nat, u: Tree)
    requires FileTree.WellFormed(t) && i < |rels| && Distinct(rels)
    requires forall k :: 0 <= k < |rels| ==> rels[k] != [] && IsFile(t, src + rels[k])
    requires SelectedAt(t, src, rels[..i], dst, u)
    ensures NothingAt(u, dst + rels[i])
  {
    FileHasNothingBelow(t, src + rels[i]);
    forall q | dst + rels[i] <= q ensures q !in u {
      PrefixChain(dst, dst + rels[i], q);
      var r := q[|dst|..];
      assert rels[i] <= r by { assert forall k :: 0 <= k < |rels[i]| ==> rels[i][k] == (dst + rels[i])[|dst| + k]; }
      forall k | 0 <= k < i ensures !(r <= rels[k]) {
        PrefixChain(rels[i], r, rels[k]);
        FilesDoNotNest(t, src, rels[i], rels[k]);
      }
      assert forall k :: 0 <= k < i ==> rels[..i][k] == rels[k];
      assert Get(u, q) == None;
    }
  }

  lemma FilesDoNotNest(t: Tree, src: Path, a: Path, b: Path)
    requires FileTree.WellFormed(t) && IsFile(t, src + a) && IsFile(t, src + b)
    ensures a <= b ==> a == b
  {
    if a <= b {
      FileHasNothingBelow(t, src + a);
      OrderBelow(src, a, b);
      assert src + b == src + a;
      assert b == (src + b)[|src|..] && a == (src + a)[|src|..];
    }
  }

  /** Places between the destination and a selected file are directories if present. */
  lemma OpenBelow(t: Tree, src: Path, rels: seq<Path>, dst: Path, i: nat, u: Tree, r: Path)
    requires FileTree.WellFormed(t) && i < |rels| && SelectedAt(t, src, rels[..i], dst, u)
    requires IsFile(t, src + rels[i]) && r <= rels[i] && r != rels[i]
    ensures dst + r in u ==> u[dst + r] == Dir
  {
    var q := dst + r;
    BeneathOf(dst, r);
    assert (src + rels[i])[..|src| + |r|] == src + r;
    AncestorsAreDirs(t, src + rels[i], |src| + |r|);
    assert Get(u, q) == if q == dst then Some(Dir) else if TowardsSelected(rels[..i], r) then Get(t, src + r) else None;
  }

  lemma OpenForSelected(t: Tree, src: Path, rels: seq<Path>, dst: Path, i: nat, u: Tree)
    requires CopyReady(t, src, dst) && i < |rels| && rels[i] != [] && IsFile(t, src + rels[i])
    requires FileTree.WellFormed(u) && SelectedAt(t, src, rels[..i], dst, u)
    ensures Openable(u, Parent(dst + rels[i]))
  {
    var p := Parent(dst + rels[i]);
    assert Get(u, dst) == Some(Dir);
    ExistingIsOpenable(u, dst);
    forall k | 0 <= k <= |p| && p[..k] in u ensures u[p[..k]] == Dir {
      StepsOfWay(dst, rels[i], k);
      if k > |dst| {
        OpenBelow(t, src, rels, dst, i, u, rels[i][..k - |dst|]);
      }
    }
  }

  lemma StepsOfWay(dst: Path, rel: Path, k: nat)
    requires rel != [] && k < |dst + rel|
    ensures Parent(dst + rel)[..k] == if k > |dst| then dst + rel[..k - |dst|] else dst[..k]
  {}

  lemma SelectionGrows(t: Tree, src: Path, rels: seq<Path>, dst: Path, i: nat, u: Tree, v: Tree)
    requires CopyReady(t, src, dst) && i < |rels| && rels[i] != [] && IsFile(t, src + rels[i])
    requires FileTree.WellFormed(u) && SelectedAt(t, src, rels[..i], dst, u)
    requires Placed(u, src + rels[i], dst + rels[i], v)
    ensures SelectedAt(t, src, rels[..i + 1], dst, v)
  {
    var s, d := src + rels[i], dst + rels[i];
    FileHasNothingBelow(t, s);
    forall q ensures Get(v, q) ==
      if dst <= q then if q == dst then Some(Dir)
                       else if TowardsSelected(rels[..i + 1], q[|dst|..]) then Get(t, src + q[|dst|..]) else None
      else Get(t, q)
    {
      assert Get(v, q) == if d <= q then Get(u, s + q[|d|..]) else if q <= d then Some(Dir) else Get(u, q);
      if dst <= q {
        SelectedOneMore(rels, i, q[|dst|..]);
        if q != dst { AtSelected(t, src, rels, dst, i, u, v, q); }
        else { assert q <= d; }
      } else {
        PrefixChain(dst, d, q);
        if q <= d {
          PrefixesCompare(q, dst, d);
          ExistingIsOpenable(t, Parent(dst));
          PrefixOfParent(dst, q);
        }
      }
    }
  }

  lemma SelectedOneMore(rels: seq<Path>, i: nat, r: Path)
    requires i < |rels|
    ensures TowardsSelected(rels[..i + 1], r) <==> TowardsSelected(rels[..i], r) || r <= rels[i]
  {
    var more := rels[..i + 1];
    if TowardsSelected(rels[..i], r) {
      var k :| 0 <= k < i && r <= rels[..i][k];
      assert more[k] == rels[k];
    }
    if r <= rels[i] { assert more[i] == rels[i]; }
    if TowardsSelected(more, r) {
      var k :| 0 <= k < |more| && r <= more[k];
      if k < i { assert rels[..i][k] == more[k]; }
    }
  }

  lemma AtSelected(t: Tree, src: Path, rels: seq<Path>, dst: Path, i: nat, u: Tree, v: Tree, q: Path)
    requires CopyReady(t, src, dst) && i < |rels| && rels[i] != [] && IsFile(t, src + rels[i])
    requires SelectedAt(t, src, rels[..i], dst, u) && Placed(u, src + rels[i], dst + rels[i], v)
    requires dst <= q && q != dst
    ensures Get(v, q) ==
            if q[|dst|..] <= rels[i] || TowardsSelected(rels[..i], q[|dst|..]) then Get(t, src + q[|dst|..]) else None
  {
    var r := q[|dst|..];
    Beneath(dst, q);
    if rels[i] <= r {
      AtOrBelowSelected(t, src, rels[..i], rels[i], dst, u, v, r);
    } else if r <= rels[i] {
      AboveSelected(t, src, rels[i], dst, u, v, r);
    } else {
      OrderBelow(dst, rels[i], r);
      OrderBelow(dst, r, rels[i]);
      assert Get(v, q) == Get(u, q);
    }
  }

  lemma AboveSelected(t: Tree, src: Path, rel: Path, dst: Path, u: Tree, v: Tree, r: Path)
    requires FileTree.WellFormed(t) && IsFile(t, src + rel) && Placed(u, src + rel, dst + rel, v)
    requires r <= rel && !(rel <= r)
    ensures Get(v, dst + r) == Get(t, src + r) == Some(Dir)
  {
    OrderBelow(dst, rel, r);
    OrderBelow(dst, r, rel);
    assert (src + rel)[..|src| + |r|] == src + r;
    AncestorsAreDirs(t, src + rel, |src| + |r|);
  }

  lemma Regroup(a: Path, b: Path, c: Path)
    ensures a + b + c == a + (b + c)
  {}

  lemma BelowFile(t: Tree, p: Path, x: Path)
    requires FileTree.WellFormed(t) && IsFile(t, p) && x != []
    ensures Get(t, p + x) == None
  {
    FileHasNothingBelow(t, p);
    BeneathOf(p, x);
  }

  lemma AtOrBelowSelected(t: Tree, src: Path, done: seq<Path>, rel: Path, dst: Path, u: Tree, v: Tree, r: Path)
    requires CopyReady(t, src, dst) && IsFile(t, src + rel)
    requires SelectedAt(t, src, done, dst, u) && Placed(u, src + rel, dst + rel, v)
    requires rel <= r
    ensures Get(v, dst + r) == Get(t, src + r)
    ensures Get(t, src + r) == if r <= rel || TowardsSelected(done, r) then Get(t, src + r) else None
  {
    var x := r[|rel|..];
    Beneath(rel, r);
    Regroup(dst, rel, x);
    Regroup(src, rel, x);
    BeneathOf(dst + rel, x);
    assert Get(v, dst + r) == Get(u, src + r);
    ApartBelow(src, r, dst);
    assert Get(u, src + r) == Get(t, src + r);
    if x == [] {
      assert r == rel;
    } else {
      BelowFile(t, src + rel, x);
    }
  }
}
