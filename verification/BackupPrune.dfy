/** Pruning old bundles (src/ops/backup/backup-prune.ts): per mode the newest are kept, and of those kept
    only the newest keep their captured logs. */
module BackupPrune {
  import opened Common
  import opened Sorting
  import opened Manifests
  import opened FileTree
  import opened Checksums
  import opened BundleFiles
  import opened TreeMoves
  import opened BackupVerify
  import opened BackupTrim

  // ---------------------------------------------------------------- which directories are bundles

  function CreatedAt(t: Tree, p: Path): int {
    match ReadManifest(t, p) case None => 0 case Some(m) => m.createdAt
  }

  /** A directory entry that is not private and whose manifest can be read. */
  predicate IsBundle(t: Tree, dir: Path, mode: Mode, p: Path) {
    && p in Children(t, dir) && t[p] == Dir
    && !(['_'] <= p[|dir|])
    && ReadManifest(t, p).Some? && ReadManifest(t, p).value.backupMode == mode
  }

  function Bundles(t: Tree, dir: Path, mode: Mode): set<Path> {
    set p | p in Children(t, dir) && IsBundle(t, dir, mode, p)
  }

  datatype Item = Item(dir: Path, createdAt: int)

  const AGE: Item -> int := (i: Item) => i.createdAt

  function Dirs(items: seq<Item>): seq<Path> {
    seq(|items|, k requires 0 <= k < |items| => items[k].dir)
  }

  /** The list holds exactly the given bundles, once each, with their creation times. */
  ghost predicate ItemsFor(t: Tree, items: seq<Item>, bundles: set<Path>) {
    && Distinct(Dirs(items)) && Elements(Dirs(items)) == bundles
    && forall k :: 0 <= k < |items| ==> items[k].createdAt == CreatedAt(t, items[k].dir)
  }

  /** `gone` leaves the `keep` newest, up to equal ages. */
  ghost predicate Retains(t: Tree, all: set<Path>, gone: set<Path>, keep: int) {
    && gone <= all && |gone| == Max(0, |all| - Max(keep, 0))
    && forall a, b :: a in gone && b in all && b !in gone ==> CreatedAt(t, a) <= CreatedAt(t, b)
  }

  lemma PushedItem(t: Tree, items: seq<Item>, bundles: set<Path>, p: Path)
    requires ItemsFor(t, items, bundles) && p !in bundles
    ensures ItemsFor(t, items + [Item(p, CreatedAt(t, p))], bundles + {p})
  {
    var more := items + [Item(p, CreatedAt(t, p))];
    assert Distinct([p]) && Elements([p]) == {p};
    ConcatDistinct(Dirs(items), [p]);
    assert Dirs(more) == Dirs(items) + [p];
  }

  /** The bundles of one mode met so far. */
  ghost function Met(t: Tree, dir: Path, mode: Mode, todo: set<Path>): set<Path> { Bundles(t, dir, mode) - todo }

  ghost function Added(t: Tree, dir: Path, mode: Mode, items: seq<Item>, p: Path): seq<Item> {
    if IsBundle(t, dir, mode, p) then items + [Item(p, CreatedAt(t, p))] else items
  }

  lemma OneEntry(t: Tree, dir: Path, mode: Mode, items: seq<Item>, todo: set<Path>, p: Path)
    requires p in todo && ItemsFor(t, items, Met(t, dir, mode, todo))
    ensures ItemsFor(t, Added(t, dir, mode, items, p), Met(t, dir, mode, todo - {p}))
  {
    if IsBundle(t, dir, mode, p) {
      PushedItem(t, items, Met(t, dir, mode, todo), p);
      assert Met(t, dir, mode, todo - {p}) == Met(t, dir, mode, todo) + {p};
    } else {
      assert Met(t, dir, mode, todo - {p}) == Met(t, dir, mode, todo);
    }
  }

  lemma NothingMet(t: Tree, dir: Path, mode: Mode)
    ensures ItemsFor(t, [], Met(t, dir, mode, Children(t, dir)))
    ensures Met(t, dir, mode, {}) == Bundles(t, dir, mode)
  {
    assert Dirs([]) == [];
    assert Met(t, dir, mode, Children(t, dir)) == {};
  }

  /** The grouping loop, over directory entries in any order. */
  method Group(t: Tree, dir: Path) returns (nightly: seq<Item>, preUpdate: seq<Item>)
    ensures ItemsFor(t, nightly, Bundles(t, dir, Nightly)) && ItemsFor(t, preUpdate, Bundles(t, dir, PreUpdate))
  {
    nightly, preUpdate := [], [];
    var todo := Children(t, dir);
    NothingMet(t, dir, Nightly);
    NothingMet(t, dir, PreUpdate);
    while todo != {}
      invariant todo <= Children(t, dir)
      invariant ItemsFor(t, nightly, Met(t, dir, Nightly, todo))
      invariant ItemsFor(t, preUpdate, Met(t, dir, PreUpdate, todo))
      decreases |todo|
    {
      var p :| p in todo;
      OneEntry(t, dir, Nightly, nightly, todo, p);
      OneEntry(t, dir, PreUpdate, preUpdate, todo, p);
      todo := todo - {p};
      if t[p] != Dir || ['_'] <= p[|dir|] {
        continue;
      }
      var m := ReadManifest(t, p);
      if m.None? {
        continue;
      }
      if m.value.backupMode == Nightly {
        nightly := nightly + [Item(p, m.value.createdAt)];
      } else {
        preUpdate := preUpdate + [Item(p, m.value.createdAt)];
      }
    }
  }

  // ---------------------------------------------------------------- removing the oldest

  /** Sorting, then everything past the number to keep. */
  function Oldest(items: seq<Item>, keep: int): seq<Item> { SliceFrom(SortDescending(AGE, items), Max(keep, 0)) }

  lemma {:induction false} SameDirs(a: seq<Item>, b: seq<Item>)
    requires multiset(a) == multiset(b) && Distinct(Dirs(a))
    ensures Distinct(Dirs(b)) && Elements(Dirs(b)) == Elements(Dirs(a))
  {
    forall i, j | 0 <= i < j < |a| ensures a[i] != a[j] { assert Dirs(a)[i] != Dirs(a)[j]; }
    forall x ensures x in a <==> x in b { assert x in multiset(a) <==> x in multiset(b); }
    DistinctAsMultiset(a);
    assert forall x :: x in b ==> multiset(b)[x] == 1;
    MultisetDistinct(b);
    forall i, j | 0 <= i < j < |b| ensures Dirs(b)[i] != Dirs(b)[j] {
      assert b[i] in a && b[j] in a;
      var k :| 0 <= k < |a| && a[k] == b[i];
      var l :| 0 <= l < |a| && a[l] == b[j];
      assert Dirs(a)[k] == b[i].dir && Dirs(a)[l] == b[j].dir;
    }
    DirsOfMembers(a, b);
    DirsOfMembers(b, a);
  }

  lemma DirsOfMembers(a: seq<Item>, b: seq<Item>)
    requires forall x :: x in a ==> x in b
    ensures Elements(Dirs(a)) <= Elements(Dirs(b))
  {
    forall p | p in Dirs(a) ensures p in Dirs(b) {
      var k :| 0 <= k < |Dirs(a)| && Dirs(a)[k] == p;
      assert a[k] in b;
      var l :| 0 <= l < |b| && b[l] == a[k];
      assert Dirs(b)[l] == p;
    }
  }

  lemma SortedItems(t: Tree, items: seq<Item>, all: set<Path>)
    requires ItemsFor(t, items, all)
    ensures ItemsFor(t, SortDescending(AGE, items), all) && |SortDescending(AGE, items)| == |items| == |all|
  {
    SortMeaning(AGE, items);
    var sorted := SortDescending(AGE, items);
    SameDirs(items, sorted);
    DistinctCardinality(Dirs(items));
    forall k | 0 <= k < |sorted| ensures sorted[k].createdAt == CreatedAt(t, sorted[k].dir) {
      assert sorted[k] in multiset(sorted);
      assert sorted[k] in multiset(items);
    }
  }

  lemma CutDirs(sorted: seq<Item>, n: nat, gone: seq<Item>)
    requires Distinct(Dirs(sorted)) && gone == SliceFrom(sorted, n)
    ensures Distinct(Dirs(gone)) && Elements(Dirs(gone)) <= Elements(Dirs(sorted))
    ensures |Elements(Dirs(gone))| == Max(0, |sorted| - n)
  {
    assert forall k :: 0 <= k < |gone| ==> Dirs(gone)[k] == Dirs(sorted)[n + k];
    DistinctCardinality(Dirs(gone));
  }

  lemma CutSorted(t: Tree, sorted: seq<Item>, all: set<Path>, n: nat, gone: seq<Item>)
    requires ItemsFor(t, sorted, all) && Descending(AGE, sorted) && gone == SliceFrom(sorted, n)
    ensures Distinct(Dirs(gone)) && Elements(Dirs(gone)) <= all && |Elements(Dirs(gone))| == Max(0, |sorted| - n)
    ensures forall a, b :: a in Elements(Dirs(gone)) && b in all && b !in Elements(Dirs(gone)) ==>
              CreatedAt(t, a) <= CreatedAt(t, b)
  {
    CutDirs(sorted, n, gone);
    forall a, b | a in Elements(Dirs(gone)) && b in all && b !in Elements(Dirs(gone))
      ensures CreatedAt(t, a) <= CreatedAt(t, b)
    {
      var k :| 0 <= k < |gone| && Dirs(gone)[k] == a;
      assert b in Elements(Dirs(sorted));
      var l :| 0 <= l < |sorted| && Dirs(sorted)[l] == b;
      OlderThan(t, sorted, n, gone, k, l);
    }
  }

  lemma OlderThan(t: Tree, sorted: seq<Item>, n: nat, gone: seq<Item>, k: nat, l: nat)
    requires Descending(AGE, sorted) && gone == SliceFrom(sorted, n) && k < |gone| && l < |sorted|
    requires forall i :: 0 <= i < |sorted| ==> sorted[i].createdAt == CreatedAt(t, sorted[i].dir)
    ensures sorted[l].dir in Elements(Dirs(gone)) || CreatedAt(t, gone[k].dir) <= CreatedAt(t, sorted[l].dir)
  {
    assert gone[k] == sorted[n + k];
    if l >= n {
      assert Dirs(gone)[l - n] == sorted[l].dir;
    } else {
      assert AGE(sorted[l]) >= AGE(sorted[n + k]);
    }
  }

  /** Cutting a sorted list leaves its newest part. */
  lemma NewestStay(t: Tree, items: seq<Item>, all: set<Path>, keep: int)
    requires ItemsFor(t, items, all)
    ensures Distinct(Dirs(Oldest(items, keep))) && Retains(t, all, Elements(Dirs(Oldest(items, keep))), keep)
  {
    SortedItems(t, items, all);
    SortMeaning(AGE, items);
    CutSorted(t, SortDescending(AGE, items), all, Max(keep, 0), Oldest(items, keep));
  }

  function RemoveEach(t: Tree, ps: seq<Path>): Tree {
    if ps == [] then t else RemoveAll(RemoveEach(t, ps[..|ps| - 1]), ps[|ps| - 1])
  }

  ghost predicate AtOrBelow(ps: seq<Path>, q: Path) { exists k :: 0 <= k < |ps| && ps[k] <= q }

  lemma OneMoreAbove(ps: seq<Path>, q: Path)
    requires ps != []
    ensures AtOrBelow(ps, q) <==> AtOrBelow(ps[..|ps| - 1], q) || ps[|ps| - 1] <= q
  {
    var init := ps[..|ps| - 1];
    if k :| 0 <= k < |init| && init[k] <= q {
      assert ps[k] <= q;
    }
    if k :| 0 <= k < |ps| && ps[k] <= q {
      assert k < |init| ==> init[k] <= q;
    }
  }

  lemma {:induction false} RemoveEachMeaning(t: Tree, ps: seq<Path>)
    requires FileTree.WellFormed(t) && forall k :: 0 <= k < |ps| ==> ps[k] != []
    ensures FileTree.WellFormed(RemoveEach(t, ps))
    ensures forall q :: Get(RemoveEach(t, ps), q) == if AtOrBelow(ps, q) then None else Get(t, q)
  {
    if ps != [] {
      var init, last := ps[..|ps| - 1], ps[|ps| - 1];
      RemoveEachMeaning(t, init);
      RemoveAllMeaning(RemoveEach(t, init), last);
      forall q ensures Get(RemoveEach(t, ps), q) == if AtOrBelow(ps, q) then None else Get(t, q) {
        OneMoreAbove(ps, q);
      }
    }
  }

  lemma {:induction false} RemoveMore(t: Tree, ps: seq<Path>, more: seq<Path>)
    ensures RemoveEach(t, ps + more) == RemoveEach(RemoveEach(t, ps), more)
  {
    if more == [] {
      assert ps + more == ps;
    } else {
      RemoveMore(t, ps, more[..|more| - 1]);
      assert (ps + more)[..|ps + more| - 1] == ps + more[..|more| - 1];
    }
  }

  method PruneGroup(fs: FileSystem, items: seq<Item>, keep: int) returns (sorted: seq<Item>, removed: seq<Path>)
    modifies fs
    ensures sorted == SortDescending(AGE, items) && removed == Dirs(Oldest(items, keep))
    ensures fs.nodes == RemoveEach(old(fs.nodes), removed)
  {
    sorted := SortDescending(AGE, items);
    var gone := SliceFrom(sorted, Max(keep, 0));
    removed := [];
    for i := 0 to |gone|
      invariant removed == Dirs(gone)[..i] && fs.nodes == RemoveEach(old(fs.nodes), removed)
    {
      ghost var before := removed;
      fs.Remove(gone[i].dir);
      removed := removed + [gone[i].dir];
      assert removed[..|removed| - 1] == before;
    }
  }

  // ---------------------------------------------------------------- those that stay

  /** `filter(item => !removed.includes(item.dirPath))`. */
  function Staying(items: seq<Item>, removed: seq<Path>): seq<Item> {
    if items == [] then []
    else (if items[0].dir in removed then [] else [items[0]]) + Staying(items[1..], removed)
  }

  lemma {:induction false} StayingMembers(items: seq<Item>, removed: seq<Path>)
    ensures forall x :: x in Staying(items, removed) <==> x in items && x.dir !in removed
  {
    if items != [] {
      StayingMembers(items[1..], removed);
      assert items == [items[0]] + items[1..];
    }
  }

  lemma DirsSplit(items: seq<Item>)
    requires items != [] && Distinct(Dirs(items))
    ensures Distinct(Dirs(items[1..])) && items[0].dir !in Dirs(items[1..])
    ensures Elements(Dirs(items)) == {items[0].dir} + Elements(Dirs(items[1..]))
  {
    var rest := Dirs(items[1..]);
    assert Dirs(items) == [items[0].dir] + rest;
    assert forall k :: 0 <= k < |rest| ==> rest[k] == Dirs(items)[k + 1];
    assert Dirs(items)[0] == items[0].dir;
  }

  lemma OneMoreStaying(item: Item, rest: seq<Item>)
    requires Distinct(Dirs(rest)) && item.dir !in Dirs(rest)
    ensures Distinct(Dirs([item] + rest)) && Elements(Dirs([item] + rest)) == {item.dir} + Elements(Dirs(rest))
  {
    assert Distinct([item.dir]) && Elements([item.dir]) == {item.dir};
    ConcatDistinct([item.dir], Dirs(rest));
    assert Dirs([item] + rest) == [item.dir] + Dirs(rest);
  }

  lemma {:induction false} StayingDirs(items: seq<Item>, removed: seq<Path>)
    requires Distinct(Dirs(items))
    ensures Distinct(Dirs(Staying(items, removed)))
    ensures Elements(Dirs(Staying(items, removed))) == Elements(Dirs(items)) - Elements(removed)
  {
    if items != [] {
      var rest := Staying(items[1..], removed);
      DirsSplit(items);
      StayingDirs(items[1..], removed);
      if items[0].dir in removed {
        assert [] + rest == rest;
      } else {
        assert items[0].dir !in Elements(Dirs(rest));
        OneMoreStaying(items[0], rest);
      }
    }
  }

  lemma BothItems(t: Tree, nightly: seq<Item>, preUpdate: seq<Item>, a: set<Path>, b: set<Path>)
    requires ItemsFor(t, nightly, a) && ItemsFor(t, preUpdate, b) && a !! b
    ensures ItemsFor(t, nightly + preUpdate, a + b)
    ensures forall x :: x in nightly + preUpdate ==> x.createdAt == CreatedAt(t, x.dir)
  {
    assert Dirs(nightly + preUpdate) == Dirs(nightly) + Dirs(preUpdate);
    ConcatDistinct(Dirs(nightly), Dirs(preUpdate));
  }

  lemma StayingItems(t: Tree, nightly: seq<Item>, preUpdate: seq<Item>, a: set<Path>, b: set<Path>, removed: seq<Path>)
    requires ItemsFor(t, nightly, a) && ItemsFor(t, preUpdate, b) && a !! b
    ensures ItemsFor(t, Staying(nightly + preUpdate, removed), a + b - Elements(removed))
  {
    var items := nightly + preUpdate;
    BothItems(t, nightly, preUpdate, a, b);
    StayingMembers(items, removed);
    StayingDirs(items, removed);
    var kept := Staying(items, removed);
    forall k | 0 <= k < |kept| ensures kept[k].createdAt == CreatedAt(t, kept[k].dir) {
      assert kept[k] in items;
    }
  }

  // ---------------------------------------------------------------- the whole prune

  datatype Options = Options(nightlyKeep: int, preUpdateKeep: int, logBackupsKeep: Option<int>)

  datatype PruneError = NotADirectory | NegativeLogKeep | ChecksumsUnwritable

  datatype Report = Report(removed: seq<Path>, trimmedLogs: seq<Path>)

  /** Bundles of both modes. */
  function AllBundles(t: Tree, dir: Path): set<Path> { Bundles(t, dir, Nightly) + Bundles(t, dir, PreUpdate) }

  /** In each mode the newest bundles are kept and no others. */
  ghost predicate RemovedRightly(t: Tree, dir: Path, o: Options, removed: seq<Path>) {
    && Distinct(removed) && Elements(removed) <= AllBundles(t, dir)
    && Retains(t, Bundles(t, dir, Nightly), Elements(removed) * Bundles(t, dir, Nightly), o.nightlyKeep)
    && Retains(t, Bundles(t, dir, PreUpdate), Elements(removed) * Bundles(t, dir, PreUpdate), o.preUpdateKeep)
  }

  /** Of the bundles that stay, only the newest may keep captured logs. */
  ghost predicate TrimmedRightly(t: Tree, dir: Path, removed: seq<Path>, keep: Option<int>, older: seq<Path>) {
    if keep.None? then older == []
    else Distinct(older) && Retains(t, AllBundles(t, dir) - Elements(removed), Elements(older), keep.value)
  }

  /** Removed bundles are gone, older ones are without logs, and nothing else changed. */
  ghost predicate Outcome(t: Tree, u: Tree, removed: seq<Path>, older: seq<Path>, sha: Sha) {
    && FileTree.WellFormed(u)
    && (forall k :: 0 <= k < |older| ==> Done(t, u, older[k], sha))
    && forall q :: !AtOrBelow(older, q) ==> Get(u, q) == if AtOrBelow(removed, q) then None else Get(t, q)
  }

  lemma BundleShape(t: Tree, dir: Path, p: Path)
    requires p in AllBundles(t, dir)
    ensures p in t && t[p] == Dir && dir <= p && |p| == |dir| + 1 && ReadManifest(t, p).Some?
  {}

  lemma ModesAreDisjoint(t: Tree, dir: Path)
    ensures Bundles(t, dir, Nightly) !! Bundles(t, dir, PreUpdate)
  {}

  lemma BothGroups(t: Tree, dir: Path, o: Options, a: seq<Path>, b: seq<Path>)
    requires Distinct(a) && Retains(t, Bundles(t, dir, Nightly), Elements(a), o.nightlyKeep)
    requires Distinct(b) && Retains(t, Bundles(t, dir, PreUpdate), Elements(b), o.preUpdateKeep)
    ensures RemovedRightly(t, dir, o, a + b) && Elements(a + b) == Elements(a) + Elements(b)
  {
    ModesAreDisjoint(t, dir);
    ConcatDistinct(a, b);
    assert (Elements(a) + Elements(b)) * Bundles(t, dir, Nightly) == Elements(a);
    assert (Elements(a) + Elements(b)) * Bundles(t, dir, PreUpdate) == Elements(b);
  }

  lemma SiblingBelow(a: Path, p: Path, r: Path)
    requires |a| == |p|
    ensures a <= p + r ==> a == p
  {
    assert (p + r)[..|p|] == p;
  }

  /** Bundles that stay are not touched by the removal of others. */
  lemma StaysWhole(t: Tree, dir: Path, removed: seq<Path>, p: Path)
    requires FileTree.WellFormed(t) && p in AllBundles(t, dir) && p !in removed
    requires Elements(removed) <= AllBundles(t, dir) && forall k :: 0 <= k < |removed| ==> removed[k] != []
    ensures SameBelow(t, RemoveEach(t, removed), p)
  {
    RemoveEachMeaning(t, removed);
    forall k | 0 <= k < |removed| ensures |removed[k]| == |p| {
      assert removed[k] in Elements(removed);
      BundleShape(t, dir, removed[k]);
      BundleShape(t, dir, p);
    }
    forall r ensures !AtOrBelow(removed, p + r) {
      forall k | 0 <= k < |removed| ensures !(removed[k] <= p + r) { SiblingBelow(removed[k], p, r); }
    }
  }

  lemma RemovedAreProper(t: Tree, dir: Path, removed: seq<Path>)
    requires Elements(removed) <= AllBundles(t, dir)
    ensures forall k :: 0 <= k < |removed| ==> removed[k] != []
  {
    forall k | 0 <= k < |removed| ensures removed[k] != [] {
      assert removed[k] in Elements(removed);
      BundleShape(t, dir, removed[k]);
    }
  }

  /** Where the removal leaves the bundles to trim. */
  lemma ReadyToTrim(t: Tree, dir: Path, removed: seq<Path>, older: seq<Path>)
    requires FileTree.WellFormed(t) && Elements(removed) <= AllBundles(t, dir)
    requires forall p :: p in AllBundles(t, dir) ==> CleanBundle(t, p)
    requires Distinct(older) && Elements(older) <= AllBundles(t, dir) - Elements(removed)
    ensures FileTree.WellFormed(RemoveEach(t, removed)) && Siblings(older)
    ensures forall k :: 0 <= k < |older| ==>
              && SameBelow(t, RemoveEach(t, removed), older[k])
              && ReadManifest(RemoveEach(t, removed), older[k]).Some? && CleanBundle(RemoveEach(t, removed), older[k])
              && Blocked(RemoveEach(t, removed), older[k]) == Blocked(t, older[k])
              && LogsToTrim(RemoveEach(t, removed), older[k]) == LogsToTrim(t, older[k])
  {
    RemovedAreProper(t, dir, removed);
    RemoveEachMeaning(t, removed);
    forall k | 0 <= k < |older|
      ensures older[k] in AllBundles(t, dir) && SameBelow(t, RemoveEach(t, removed), older[k])
    {
      assert older[k] in Elements(older);
      StaysWhole(t, dir, removed, older[k]);
    }
    forall k | 0 <= k < |older|
      ensures ReadManifest(RemoveEach(t, removed), older[k]).Some? && CleanBundle(RemoveEach(t, removed), older[k])
      ensures Blocked(RemoveEach(t, removed), older[k]) == Blocked(t, older[k])
      ensures LogsToTrim(RemoveEach(t, removed), older[k]) == LogsToTrim(t, older[k])
    {
      BundleShape(t, dir, older[k]);
      SameLook(t, RemoveEach(t, removed), older[k]);
    }
    forall i, j | 0 <= i < j < |older| ensures |older[i]| == |older[j]| {
      BundleShape(t, dir, older[i]);
      BundleShape(t, dir, older[j]);
    }
  }

  lemma TrimOutcome(t: Tree, u: Tree, dir: Path, removed: seq<Path>, older: seq<Path>, sha: Sha)
    requires FileTree.WellFormed(t) && Elements(removed) <= AllBundles(t, dir)
    requires forall k :: 0 <= k < |older| ==> SameBelow(t, RemoveEach(t, removed), older[k])
    requires TrimmedUpTo(RemoveEach(t, removed), u, older, |older|, sha)
    ensures Outcome(t, u, removed, older, sha)
  {
    RemovedAreProper(t, dir, removed);
    RemoveEachMeaning(t, removed);
    var v := RemoveEach(t, removed);
    forall k | 0 <= k < |older| ensures Done(t, u, older[k], sha) {
      DoneFrom(t, v, u, older[k], sha);
    }
    forall q | !AtOrBelow(older, q) ensures Get(u, q) == if AtOrBelow(removed, q) then None else Get(t, q) {
      assert Get(u, q) == Get(v, q);
    }
  }

  lemma {:induction false} SameTrimmedLogs(t: Tree, u: Tree, ps: seq<Path>)
    requires forall k :: 0 <= k < |ps| ==> LogsToTrim(u, ps[k]) == LogsToTrim(t, ps[k])
    ensures TrimmedLogs(u, ps) == TrimmedLogs(t, ps)
  {
    if ps != [] {
      SameTrimmedLogs(t, u, ps[..|ps| - 1]);
    }
  }

  method RemoveOldest(fs: FileSystem, dir: Path, o: Options) returns (removed: seq<Path>, staying: seq<Item>)
    requires FileTree.WellFormed(fs.nodes)
    modifies fs
    ensures RemovedRightly(old(fs.nodes), dir, o, removed) && fs.nodes == RemoveEach(old(fs.nodes), removed)
    ensures ItemsFor(old(fs.nodes), staying, AllBundles(old(fs.nodes), dir) - Elements(removed))
  {
    ghost var t := fs.nodes;
    var nightly, preUpdate := Group(fs.nodes, dir);
    var removedNightly, removedPreUpdate;
    NewestStay(t, nightly, Bundles(t, dir, Nightly), o.nightlyKeep);
    NewestStay(t, preUpdate, Bundles(t, dir, PreUpdate), o.preUpdateKeep);
    SortedItems(t, nightly, Bundles(t, dir, Nightly));
    SortedItems(t, preUpdate, Bundles(t, dir, PreUpdate));
    nightly, removedNightly := PruneGroup(fs, nightly, o.nightlyKeep);
    preUpdate, removedPreUpdate := PruneGroup(fs, preUpdate, o.preUpdateKeep);
    removed := removedNightly + removedPreUpdate;
    RemoveMore(t, removedNightly, removedPreUpdate);
    BothGroups(t, dir, o, removedNightly, removedPreUpdate);
    ModesAreDisjoint(t, dir);
    StayingItems(t, nightly, preUpdate, Bundles(t, dir, Nightly), Bundles(t, dir, PreUpdate), removed);
    staying := Staying(nightly + preUpdate, removed);
  }

  /** `pruneBackups`. A negative count of log backups is noticed only after old bundles are gone. */
  method PruneBackups(fs: FileSystem, dir: Path, o: Options, sha: Sha)
    returns (r: Result<Report, PruneError>, ghost older: seq<Path>)
    requires FileTree.WellFormed(fs.nodes) && HashTexts(sha)
    requires forall p :: p in AllBundles(fs.nodes, dir) ==> CleanBundle(fs.nodes, p)
    modifies fs
    ensures dir !in old(fs.nodes) ==> r == Ok(Report([], [])) && fs.nodes == old(fs.nodes)
    ensures dir in old(fs.nodes) && !IsDir(old(fs.nodes), dir) ==> r == Err(NotADirectory) && fs.nodes == old(fs.nodes)
    ensures IsDir(old(fs.nodes), dir) ==>
              (r == Err(NegativeLogKeep) <==> o.logBackupsKeep.Some? && o.logBackupsKeep.value < 0)
    ensures r.Err? && r.error == NegativeLogKeep ==>
              exists removed :: RemovedRightly(old(fs.nodes), dir, o, removed)
                  && fs.nodes == RemoveEach(old(fs.nodes), removed)
    ensures r.Err? && r.error == ChecksumsUnwritable ==> Interrupted(old(fs.nodes), fs.nodes, dir, o, sha)
    ensures r.Ok? && dir in old(fs.nodes) ==>
              && RemovedRightly(old(fs.nodes), dir, o, r.value.removed)
              && TrimmedRightly(old(fs.nodes), dir, r.value.removed, o.logBackupsKeep, older)
              && Outcome(old(fs.nodes), fs.nodes, r.value.removed, older, sha)
              && r.value.trimmedLogs == TrimmedLogs(old(fs.nodes), older)
  {
    ghost var t := fs.nodes;
    older := [];
    if dir !in fs.nodes {
      return Ok(Report([], [])), [];
    }
    if fs.nodes[dir] != Dir {
      return Err(NotADirectory), [];
    }
    var removed, staying := RemoveOldest(fs, dir, o);
    if o.logBackupsKeep.None? {
      ReadyToTrim(t, dir, removed, []);
      TrimOutcome(t, fs.nodes, dir, removed, [], sha);
      return Ok(Report(removed, [])), [];
    }
    var keep := o.logBackupsKeep.value;
    if keep < 0 {
      return Err(NegativeLogKeep), [];
    }
    r, older := TrimStaying(fs, t, dir, removed, staying, keep, sha);
    if r.Err? {
      ghost var i: nat :| StoppedAt(RemoveEach(t, removed), fs.nodes, older, i, sha);
      assert Interrupted(t, fs.nodes, dir, o, sha);
    }
  }

  /** The prune stopped at the first bundle whose list cannot be written: the removals are done, the trims
      before it are done, it is left half trimmed, and nothing else changed. */
  ghost predicate Interrupted(t: Tree, u: Tree, dir: Path, o: Options, sha: Sha) {
    exists removed, older, i: nat ::
      && RemovedRightly(t, dir, o, removed) && TrimmedRightly(t, dir, removed, o.logBackupsKeep, older)
      && StoppedAt(RemoveEach(t, removed), u, older, i, sha)
  }

  /** `trimLogs` on the bundles that stay, for a count that is not negative. */
  method TrimStaying(fs: FileSystem, ghost t: Tree, dir: Path, removed: seq<Path>, staying: seq<Item>, keep: int,
                     sha: Sha)
    returns (r: Result<Report, PruneError>, ghost older: seq<Path>)
    requires FileTree.WellFormed(t) && HashTexts(sha) && Elements(removed) <= AllBundles(t, dir)
    requires fs.nodes == RemoveEach(t, removed)
    requires forall p :: p in AllBundles(t, dir) ==> CleanBundle(t, p)
    requires ItemsFor(t, staying, AllBundles(t, dir) - Elements(removed))
    modifies fs
    ensures r.Err? ==>
              && r.error == ChecksumsUnwritable && TrimmedRightly(t, dir, removed, Some(keep), older)
              && exists i: nat :: StoppedAt(RemoveEach(t, removed), fs.nodes, older, i, sha)
    ensures r.Ok? ==>
              && r.value == Report(removed, TrimmedLogs(t, older))
              && TrimmedRightly(t, dir, removed, Some(keep), older)
              && Outcome(t, fs.nodes, removed, older, sha)
  {
    var candidates := Dirs(Oldest(staying, keep));
    NewestStay(t, staying, AllBundles(t, dir) - Elements(removed), keep);
    ReadyToTrim(t, dir, removed, candidates);
    ghost var v := fs.nodes;
    var trimmed, ok := TrimAll(fs, candidates, sha);
    older := candidates;
    if !ok {
      return Err(ChecksumsUnwritable), candidates;
    }
    TrimOutcome(t, fs.nodes, dir, removed, candidates, sha);
    SameTrimmedLogs(t, v, candidates);
    r := Ok(Report(removed, trimmed));
  }

  // ---------------------------------------------------------------- the bundles that survive

  /** A bundle lies below none of a list of other bundles. */
  lemma NotAmong(t: Tree, dir: Path, ps: seq<Path>, p: Path)
    requires p in AllBundles(t, dir) && Elements(ps) <= AllBundles(t, dir) && p !in ps
    ensures forall r :: !AtOrBelow(ps, p + r)
  {
    forall r, k | 0 <= k < |ps| ensures !(ps[k] <= p + r) {
      assert ps[k] in Elements(ps);
      BundleShape(t, dir, ps[k]);
      BundleShape(t, dir, p);
      SiblingBelow(ps[k], p, r);
    }
  }

  lemma OlderAreBundles(t: Tree, dir: Path, removed: seq<Path>, keep: Option<int>, older: seq<Path>)
    requires TrimmedRightly(t, dir, removed, keep, older)
    ensures Elements(older) <= AllBundles(t, dir)
  {
    if keep.None? {
      assert Elements(older) == {};
    }
  }

  /** A bundle that is neither removed nor among the trimmed ones is as before. */
  lemma OthersUntouched(t: Tree, u: Tree, dir: Path, removed: seq<Path>, older: seq<Path>, sha: Sha, p: Path)
    requires Outcome(t, u, removed, older, sha) && p in AllBundles(t, dir) && p !in removed && p !in older
    requires Elements(removed) <= AllBundles(t, dir) && Elements(older) <= AllBundles(t, dir)
    ensures SameBelow(t, u, p)
  {
    NotAmong(t, dir, removed, p);
    NotAmong(t, dir, older, p);
    forall r ensures Get(u, p + r) == Get(t, p + r) {
      assert !AtOrBelow(older, p + r) && !AtOrBelow(removed, p + r);
    }
  }

  lemma TrimmedVerifies(t: Tree, u: Tree, p: Path, sha: Sha, version: Option<string>, allowMismatch: bool)
    requires FileTree.WellFormed(t) && CleanBundle(t, p) && Done(t, u, p, sha)
    requires Verify(t, p, sha, version, allowMismatch).Some?
    ensures var m := Verify(t, p, sha, version, allowMismatch).value;
            Verify(u, p, sha, version, allowMismatch) ==
              if LogsToTrim(t, p).None? then Some(m)
              else if TakesOthers(m.sections, LogsToTrim(t, p).value) then None else Some(WithoutLogs(m))
  {
    var m := Verify(t, p, sha, version, allowMismatch).value;
    if LogsToTrim(t, p).None? {
      FromBelow(t, u, p);
      VerifyOnlyReadsBundle(t, u, p, sha, version, allowMismatch);
    } else {
      TrimKeepsBundleValid(t, u, p, LogsToTrim(t, p).value, m, sha, version, allowMismatch);
    }
  }

  /** Main result, for the outcome of any call: a bundle that was not removed and verified before verifies
      again, with its manifest or, if it was trimmed, with the manifest that says so. The one exception is a
      trimmed bundle that kept another captured section among its logs, and that one fails. */
  lemma SurvivorsVerify(t: Tree, u: Tree, dir: Path, o: Options, removed: seq<Path>, older: seq<Path>, sha: Sha,
                        p: Path, version: Option<string>, allowMismatch: bool)
    requires FileTree.WellFormed(t) && CleanBundle(t, p) && p in AllBundles(t, dir) && p !in removed
    requires RemovedRightly(t, dir, o, removed) && TrimmedRightly(t, dir, removed, o.logBackupsKeep, older)
    requires Outcome(t, u, removed, older, sha) && Verify(t, p, sha, version, allowMismatch).Some?
    ensures var m := Verify(t, p, sha, version, allowMismatch).value;
            Verify(u, p, sha, version, allowMismatch) ==
              if p !in older || LogsToTrim(t, p).None? then Some(m)
              else if TakesOthers(m.sections, LogsToTrim(t, p).value) then None else Some(WithoutLogs(m))
  {
    OlderAreBundles(t, dir, removed, o.logBackupsKeep, older);
    if p in older {
      var k :| 0 <= k < |older| && older[k] == p;
      assert Done(t, u, older[k], sha);
      TrimmedVerifies(t, u, p, sha, version, allowMismatch);
    } else {
      OthersUntouched(t, u, dir, removed, older, sha, p);
      FromBelow(t, u, p);
      VerifyOnlyReadsBundle(t, u, p, sha, version, allowMismatch);
    }
  }
}
