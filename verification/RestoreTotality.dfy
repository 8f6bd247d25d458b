/** When a restore goes through: exactly when no file stands where a directory on the way is needed. */
module RestoreTotality {
  import opened Common
  import opened Manifests
  import opened FileTree
  import opened TreeMoves
  import opened Checksums
  import opened BundleFiles
  import opened BackupVerify
  import opened BackupRestore
  import opened RestoreSafety

  // ---------------------------------------------------------------- replacing

  /** After the first `k` moves no file stands above the destination of the next. */
  ghost predicate WayIsOpen(t: Tree, ms: seq<Move>, k: nat)
    requires k < |ms|
  {
    forall j :: 0 <= j < |ms[k].dst| ==> After(t, ms[..k], ms[k].dst[..j]) in {None, Some(Dir)}
  }

  lemma OpenAbove(u: Tree, dst: Path)
    requires dst != []
    ensures Openable(u, Parent(dst)) <==> forall j :: 0 <= j < |dst| ==> Get(u, dst[..j]) in {None, Some(Dir)}
  {
    forall j | 0 <= j < |dst| ensures Parent(dst)[..j] == dst[..j] {}
    if Openable(u, Parent(dst)) {
      forall j | 0 <= j < |dst| ensures Get(u, dst[..j]) in {None, Some(Dir)} {
        assert Parent(dst)[..j] in u ==> u[Parent(dst)[..j]] == Dir;
      }
    }
    if forall j :: 0 <= j < |dst| ==> Get(u, dst[..j]) in {None, Some(Dir)} {
      forall j | 0 <= j <= |Parent(dst)| && Parent(dst)[..j] in u ensures u[Parent(dst)[..j]] == Dir {
        assert Get(u, dst[..j]) in {None, Some(Dir)};
      }
    }
  }

  ghost predicate AllWaysOpen(t: Tree, ms: seq<Move>) { forall k :: 0 <= k < |ms| ==> WayIsOpen(t, ms, k) }

  lemma LastWay(t: Tree, ms: seq<Move>)
    requires ms != []
    ensures AllWaysOpen(t, ms) <==> AllWaysOpen(t, ms[..|ms| - 1]) && WayIsOpen(t, ms, |ms| - 1)
  {
    var n := |ms| - 1;
    forall k | 0 <= k < n ensures WayIsOpen(t, ms[..n], k) == WayIsOpen(t, ms, k) { EarlierWay(t, ms, n, k); }
  }

  lemma {:induction false} ReplaceAllGoesThrough(t: Tree, ms: seq<Move>)
    requires FileTree.WellFormed(t) && Apart(ms) && forall i :: 0 <= i < |ms| ==> ms[i].src in t
    ensures ReplaceAll(t, ms).Some? <==> AllWaysOpen(t, ms)
  {
    if ms != [] {
      ReplaceAllGoesThrough(t, ms[..|ms| - 1]);
      LastWay(t, ms);
      OneMoreGoesThrough(t, ms);
    }
  }

  lemma EarlierWay(t: Tree, ms: seq<Move>, n: nat, k: nat)
    requires k < n <= |ms|
    ensures WayIsOpen(t, ms[..n], k) == WayIsOpen(t, ms, k)
  {
    assert ms[..n][..k] == ms[..k];
  }

  lemma OneMoreGoesThrough(t: Tree, ms: seq<Move>)
    requires FileTree.WellFormed(t) && ms != [] && Apart(ms) && forall i :: 0 <= i < |ms| ==> ms[i].src in t
    ensures ReplaceAll(t, ms).Some? <==> ReplaceAll(t, ms[..|ms| - 1]).Some? && WayIsOpen(t, ms, |ms| - 1)
  {
    var init, last := ms[..|ms| - 1], ms[|ms| - 1];
    if ReplaceAll(t, init).Some? {
      var u := ReplaceAll(t, init).value;
      ReplaceAllMeaning(t, init);
      SourceStays(t, ms, u);
      StepGoesThrough(t, init, u, last);
    }
  }

  lemma StepGoesThrough(t: Tree, init: seq<Move>, u: Tree, m: Move)
    requires FileTree.WellFormed(u) && m.src in u && m.dst != [] && !Overlap(m.src, m.dst)
    requires forall q :: Get(u, q) == After(t, init, q)
    ensures ReplaceOne(u, m).Some? <==> forall j :: 0 <= j < |m.dst| ==> After(t, init, m.dst[..j]) in {None, Some(Dir)}
  {
    ReplacePathMeaning(u, m.src, m.dst);
    OpenAbove(u, m.dst);
  }

  lemma SourceStays(t: Tree, ms: seq<Move>, u: Tree)
    requires ms != [] && Apart(ms) && ms[|ms| - 1].src in t
    requires forall q :: Get(u, q) == After(t, ms[..|ms| - 1], q)
    ensures ms[|ms| - 1].src in u
  {
    var init, last := ms[..|ms| - 1], ms[|ms| - 1];
    forall i | 0 <= i < |init| ensures !Overlap(last.src, init[i].dst) { assert init[i] == ms[i]; }
    AfterElsewhere(t, init, last.src);
    assert Get(u, last.src) == Get(t, last.src);
  }

  // ---------------------------------------------------------------- the safety copy

  lemma {:induction false} SaveAllGoesThrough(t: Tree, home: Path, ms: seq<Move>)
    requires FileTree.WellFormed(t) && Fresh(t, home, ms) && IsDir(t, home)
    requires forall q :: home <= q && q != home ==> q !in t
    ensures SaveAll(t, ms).Some?
  {
    if ms != [] {
      var init, last := ms[..|ms| - 1], ms[|ms| - 1];
      SaveAllGoesThrough(t, home, init);
      SaveAllMeaning(t, home, init);
      var u := SaveAll(t, init).value;
      FreshDestination(t, home, ms, u);
      if last.src in u {
        forall j | 0 <= j < |last.dst| ensures Get(u, last.dst[..j]) in {None, Some(Dir)} {
          WayToFresh(t, home, ms, last.dst[..j]);
        }
        OpenAbove(u, last.dst);
        CopyPathMeaning(u, last.src, last.dst);
      }
    }
  }

  /** On the way to the next destination there are only directories. */
  lemma WayToFresh(t: Tree, home: Path, ms: seq<Move>, q: Path)
    requires FileTree.WellFormed(t) && ms != [] && Fresh(t, home, ms) && IsDir(t, home)
    requires forall p :: home <= p && p != home ==> p !in t
    requires q <= ms[|ms| - 1].dst && q != ms[|ms| - 1].dst
    ensures Saved(t, ms[..|ms| - 1], q) in {None, Some(Dir)}
  {
    var init, last := ms[..|ms| - 1], ms[|ms| - 1];
    forall i | 0 <= i < |init| ensures !(init[i].dst <= q) {
      assert !Overlap(ms[i].dst, last.dst);
      PrefixChain(init[i].dst, q, last.dst);
    }
    SavedOnTheWay(t, init, q);
    ExistingIsOpenable(t, home);
    PrefixesCompare(home, q, last.dst);
  }

  lemma {:induction false} SavedOnTheWay(t: Tree, ms: seq<Move>, q: Path)
    requires forall i :: 0 <= i < |ms| ==> !(ms[i].dst <= q)
    ensures Saved(t, ms, q) == Get(t, q) || Saved(t, ms, q) == Some(Dir)
  {
    if ms != [] {
      SavedOnTheWay(t, ms[..|ms| - 1], q);
    }
  }

  // ---------------------------------------------------------------- the whole restore

  /** The logs a restore would keep. */
  function KeptLogs(t: Tree, root: Path, sections: seq<Section>): Option<Path> {
    match LogsToKeep(sections)
    case None => None
    case Some(log) => if root + log in t then Some(log) else None
  }

  lemma FreshHome(t: Tree, safety: Path, t1: Tree)
    requires NothingAt(t, safety) && DirEnsured(t, safety, t1)
    ensures IsDir(t1, safety) && forall q :: safety <= q && q != safety ==> q !in t1
  {
    assert Get(t1, safety) == Some(Dir);
    forall q | safety <= q && q != safety ensures q !in t1 {
      assert Get(t1, q) == if q <= safety then Some(Dir) else Get(t, q);
    }
  }

  /** The safety copy can be made wherever its directory can. */
  lemma SafetyCopyGoesThrough(t: Tree, root: Path, backup: Path, safety: Path, report: string, sections: seq<Section>)
    requires FileTree.WellFormed(t) && NothingAt(t, safety) && Openable(t, safety)
    requires TargetsApart(root, backup, safety, sections) && PlacesApart(sections)
    ensures EnsureDir(t, safety).Some?
    ensures SaveAll(EnsureDir(t, safety).value, MovesFor(SafetyPlan(root, safety), sections)).Some?
    ensures var t2 := SaveAll(EnsureDir(t, safety).value, MovesFor(SafetyPlan(root, safety), sections)).value;
            && SafetyHolds(t, t2, root, safety, sections)
            && WriteFile(t2, safety + [MANIFEST], Content.Text(report)).Some?
            && SafetyHolds(t, WriteFile(t2, safety + [MANIFEST], Content.Text(report)).value, root, safety, sections)
  {
    EnsureDirMeaning(t, safety);
    var t1 := EnsureDir(t, safety).value;
    var ms := MovesFor(SafetyPlan(root, safety), sections);
    SafetyMovesAreFresh(t, t1, root, backup, safety, sections);
    FreshHome(t, safety, t1);
    SaveAllGoesThrough(t1, safety, ms);
    SaveAllMeaning(t1, safety, ms);
    var t2 := SaveAll(t1, ms).value;
    SavedTree(t, t1, t2, root, backup, safety, sections);
    NoReportYet(t1, safety, sections, root, t2);
    var t3 := WriteFile(t2, safety + [MANIFEST], Content.Text(report)).value;
    ReportWritten(t, t2, t3, root, safety, Content.Text(report), sections);
  }

  lemma NoReportYet(t1: Tree, safety: Path, sections: seq<Section>, root: Path, t2: Tree)
    requires IsDir(t2, safety) && PlacesApart(sections) && forall q :: safety <= q && q != safety ==> q !in t1
    requires forall q :: Get(t2, q) == Saved(t1, MovesFor(SafetyPlan(root, safety), sections), q)
    ensures safety + [MANIFEST] !in t2 && forall c :: WriteFile(t2, safety + [MANIFEST], c).Some?
  {
    var f, ms := safety + [MANIFEST], MovesFor(SafetyPlan(root, safety), sections);
    forall k | 0 <= k < |ms| ensures !Overlap(f, ms[k].dst) {
      MoveFrom(SafetyPlan(root, safety), sections, k);
      var i :| 0 <= i < |sections| && sections[i].included && ms[k] == SafetyPlan(root, safety)(sections[i]);
      OverlapBelow(safety, [MANIFEST], sections[i].bundlePath);
    }
    SavedElsewhere(t1, ms, f);
    assert Get(t2, f) == Get(t1, f);
    assert Parent(f) == safety;
  }

  lemma PreservingGoesThrough(t: Tree, t3: Tree, root: Path, safety: Path, log: Path, sections: seq<Section>)
    requires SafetyHolds(t, t3, root, safety, sections) && !Overlap(root + log, safety) && root + log in t3
    ensures CopyPath(t3, root + log, safety + [PRESERVED]).Some?
  {
    var d := safety + [PRESERVED];
    ApartBelow(safety, [PRESERVED], root + log);
    CopyPathMeaning(t3, root + log, d);
    ExistingIsOpenable(t3, safety);
    assert Parent(d) == safety;
  }

  lemma PrepareGoesThrough(t: Tree, root: Path, backup: Path, safety: Path, report: string, sections: seq<Section>)
    requires FileTree.WellFormed(t) && NothingAt(t, safety)
    requires TargetsApart(root, backup, safety, sections) && PlacesApart(sections)
    ensures Prepare(t, root, safety, report, sections).Some? <==> Openable(t, safety)
    ensures Openable(t, safety) ==> Prepare(t, root, safety, report, sections).value.kept == KeptLogs(t, root, sections)
  {
    EnsureDirMeaning(t, safety);
    if Openable(t, safety) {
      SafetyCopyGoesThrough(t, root, backup, safety, report, sections);
      var t2 := SaveAll(EnsureDir(t, safety).value, MovesFor(SafetyPlan(root, safety), sections)).value;
      var t3 := WriteFile(t2, safety + [MANIFEST], Content.Text(report)).value;
      if LogsToKeep(sections).Some? {
        var log := LogsToKeep(sections).value;
        LogsAmongSections(sections);
        assert !Overlap(root + log, safety);
        assert Get(t3, root + log) == Get(t, root + log);
        if root + log in t3 {
          PreservingGoesThrough(t, t3, root, safety, log, sections);
        }
      }
    }
  }

  // ---------------------------------------------------------------- read off the tree before the call

  predicate OpenNode(n: Option<Node>) { n in {None, Some(Dir)} }

  /** The prepared tree differs from the one before only in directories leading to the safety directory. */
  ghost predicate SameOutside(t: Tree, mid: Tree, safety: Path) {
    forall q :: !(safety <= q) ==> Get(mid, q) == if q <= safety then Some(Dir) else Get(t, q)
  }

  lemma SeenThroughPreparation(t: Tree, mid: Tree, safety: Path, q: Path)
    requires SameOutside(t, mid, safety) && Openable(t, safety) && !(safety <= q)
    ensures OpenNode(Get(mid, q)) <==> OpenNode(Get(t, q))
    ensures !(q <= safety) ==> Get(mid, q) == Get(t, q)
  {
    if q <= safety {
      assert q == safety[..|q|];
    }
  }

  /** Moves that read from a place apart from the safety directory find the same way open in both trees. */
  lemma {:induction false} SameWay(t: Tree, mid: Tree, backup: Path, safety: Path, ms: seq<Move>, q: Path)
    requires SameOutside(t, mid, safety) && Openable(t, safety) && !Overlap(backup, safety) && !(safety <= q)
    requires forall i :: 0 <= i < |ms| ==> backup <= ms[i].src
    ensures OpenNode(After(mid, ms, q)) <==> OpenNode(After(t, ms, q))
  {
    if ms == [] {
      SeenThroughPreparation(t, mid, safety, q);
    } else {
      var last := ms[|ms| - 1];
      SameWay(t, mid, backup, safety, ms[..|ms| - 1], q);
      if last.dst <= q {
        ReadFromBundle(t, mid, backup, safety, last.src, q[|last.dst|..]);
      }
    }
  }

  lemma ReadFromBundle(t: Tree, mid: Tree, backup: Path, safety: Path, src: Path, r: Path)
    requires SameOutside(t, mid, safety) && !Overlap(backup, safety) && backup <= src
    ensures Get(mid, src + r) == Get(t, src + r)
  {
    Beneath(backup, src);
    ApartBelow(backup, src[|backup|..], safety);
    ApartBelow(src, r, safety);
  }

  lemma SameWaysOpen(t: Tree, mid: Tree, backup: Path, safety: Path, ms: seq<Move>)
    requires SameOutside(t, mid, safety) && Openable(t, safety) && !Overlap(backup, safety)
    requires forall i :: 0 <= i < |ms| ==> !Overlap(safety, ms[i].dst)
    requires forall i :: 0 <= i < |ms| - 1 ==> backup <= ms[i].src
    ensures AllWaysOpen(mid, ms) <==> AllWaysOpen(t, ms)
  {
    forall k | 0 <= k < |ms| ensures WayIsOpen(mid, ms, k) <==> WayIsOpen(t, ms, k) {
      forall j | 0 <= j < |ms[k].dst|
        ensures OpenNode(After(mid, ms[..k], ms[k].dst[..j])) <==> OpenNode(After(t, ms[..k], ms[k].dst[..j]))
      {
        PrefixChain(safety, ms[k].dst[..j], ms[k].dst);
        SameWay(t, mid, backup, safety, ms[..k], ms[k].dst[..j]);
      }
    }
  }

  lemma FinalMovesReadBundle(root: Path, backup: Path, safety: Path, sections: seq<Section>, kept: Option<Path>)
    ensures var ms := FinalMoves(root, backup, safety, sections, kept);
            forall k :: 0 <= k < |ms| - 1 ==> backup <= ms[k].src
  {
    var plan := RestorePlan(root, backup);
    forall k | 0 <= k < |MovesFor(plan, sections)| ensures backup <= MovesFor(plan, sections)[k].src {
      MoveFrom(plan, sections, k);
    }
  }

  /** Main result, on the tree before the call: a restore that may start goes through exactly when the safety
      directory can be made and, move by move, no file stands above the next destination. */
  lemma RestoreGoesThrough(t: Tree, root: Path, backup: Path, safety: Path, report: string, m: Manifest)
    requires RestoreReady(t, root, backup, safety, m.sections)
    ensures Restore(t, root, backup, safety, report, m).Some? <==>
            && Openable(t, safety)
            && AllWaysOpen(t, FinalMoves(root, backup, safety, m.sections, KeptLogs(t, root, m.sections)))
  {
    PrepareGoesThrough(t, root, backup, safety, report, m.sections);
    if Openable(t, safety) {
      var p := Prepare(t, root, safety, report, m.sections).value;
      var ms := FinalMoves(root, backup, safety, m.sections, p.kept);
      PreparedTree(t, root, backup, safety, report, m.sections);
      FinalMovesAreApart(t, root, backup, safety, m.sections, p.kept);
      SourcesArePresent(t, root, backup, safety, report, m);
      ReplaceAllGoesThrough(p.tree, ms);
      FinalMovesReadBundle(root, backup, safety, m.sections, p.kept);
      SameWaysOpen(t, p.tree, backup, safety, ms);
    }
  }

  // ---------------------------------------------------------------- a restore that stops half way

  /** A bundle whose data directory has a file `x` where the live one has a directory with the logs in it;
      still without its list. */
  function HalfWayBundle(c: Content, m: Manifest): Tree {
    map[[] := Dir,
        ["b"] := Dir, ["b", MANIFEST] := File(ManifestJson(m)),
        ["b", "adapter"] := Dir, ["b", "adapter", "x"] := File(c),
        ["r"] := Dir, ["r", "d"] := Dir, ["r", "d", "x"] := Dir, ["r", "d", "x", "l"] := Dir]
  }

  function HalfWaySections(): seq<Section> {
    [Section(Adapter, ["d"], ["adapter"], ["d"], false, true, 1),
     Section(Logs, ["d", "x", "l"], ["logs"], ["d", "x", "l"], true, false, 0)]
  }

  lemma HalfWayBundleIsTree(c: Content, m: Manifest)
    ensures FileTree.WellFormed(HalfWayBundle(c, m))
  {
    var t := HalfWayBundle(c, m);
    forall p | p in t && p != [] ensures IsDir(t, Parent(p)) {
      assert Parent(["b"]) == Parent(["r"]) == [];
      assert Parent(["b", "adapter"]) == Parent(["b", MANIFEST]) == ["b"];
      assert Parent(["b", "adapter", "x"]) == ["b", "adapter"];
      assert Parent(["r", "d"]) == ["r"] && Parent(["r", "d", "x"]) == ["r", "d"];
      assert Parent(["r", "d", "x", "l"]) == ["r", "d", "x"];
    }
  }

  lemma HalfWayBundleIsClean(c: Content, m: Manifest)
    ensures CleanBundle(HalfWayBundle(c, m), ["b"]) && ["b"] + [CHECKSUMS] !in HalfWayBundle(c, m)
  {
    var t := HalfWayBundle(c, m);
    MetadataNames();
    assert CleanName("adapter") && CleanName("x");
    forall q, i | q in t && ["b"] <= q && 1 <= i < |q| ensures q[i] in {"adapter", "x", MANIFEST} {
      assert ["b"][0] == "b" && q[0] == "b";
    }
    assert |CHECKSUMS| == 13 && (["b"] + [CHECKSUMS])[1] == CHECKSUMS && |["b"] + [CHECKSUMS]| == 2;
  }

  lemma HalfWayBundleIsComplete(c: Content, m: Manifest)
    ensures SectionsPresent(HalfWayBundle(c, m), ["b"], HalfWaySections())
    ensures Get(HalfWayBundle(c, m), ["b"] + [MANIFEST]) == Some(File(ManifestJson(m)))
  {
    assert ["b"] + ["adapter"] == ["b", "adapter"] && ["b"] + [MANIFEST] == ["b", MANIFEST];
  }

  /** The tree with the list; nothing but the list differs from the tree above. */
  ghost predicate HalfWay(t: Tree, c: Content, m: Manifest) {
    forall q :: q != ["b"] + [CHECKSUMS] ==> Get(t, q) == Get(HalfWayBundle(c, m), q)
  }

  lemma HalfWayHasRoom(t: Tree, c: Content, m: Manifest)
    requires HalfWay(t, c, m)
    ensures NothingAt(t, ["s"]) && Openable(t, ["s"])
  {
    forall q | q in t ensures !(["s"] <= q) {
      if q == ["b"] + [CHECKSUMS] {
        assert q[0] == "b";
      } else if q != [] {
        assert Get(t, q) == Get(HalfWayBundle(c, m), q);
        assert q[0] in {"b", "r"};
      }
    }
    assert ["s"][..0] == [] && ["s"][..1] == ["s"];
    assert Get(t, []) == Get(HalfWayBundle(c, m), []);
  }

  lemma HalfWayPlaces(t: Tree, c: Content, m: Manifest)
    requires HalfWay(t, c, m)
    ensures Get(t, ["b", "adapter"]) == Some(Dir) && Get(t, ["b", "adapter", "x"]) == Some(File(c))
    ensures Get(t, []) == Get(t, ["r"]) == Get(t, ["r", "d", "x", "l"]) == Some(Dir)
  {
    assert |CHECKSUMS| == 13 && |"adapter"| == 7;
    assert (["b"] + [CHECKSUMS])[1] == CHECKSUMS && ["b", "adapter"][1] == "adapter" && |["b"] + [CHECKSUMS]| == 2;
  }

  lemma HalfWayMoves()
    ensures LogsToKeep(HalfWaySections()) == Some(["d", "x", "l"])
    ensures FinalMoves(["r"], ["b"], ["s"], HalfWaySections(), Some(["d", "x", "l"])) ==
            [Move(["b", "adapter"], ["r", "d"])] + [Move(["s", PRESERVED], ["r", "d", "x", "l"])]
  {
    var s := HalfWaySections();
    assert s[1..] == [s[1]] && s[1..][1..] == [];
    assert FindSection(s, Logs) == FindSection(s[1..], Logs) == Some(s[1]);
    assert s[0].name == Adapter && s[0].included;
    var plan := RestorePlan(["r"], ["b"]);
    assert MovesFor(plan, s[1..]) == [];
    assert MovesFor(plan, s) == [plan(s[0])] + [];
    assert ["b"] + ["adapter"] == ["b", "adapter"] && ["r"] + ["d"] == ["r", "d"];
    assert ["s"] + [PRESERVED] == ["s", PRESERVED] && ["r"] + ["d", "x", "l"] == ["r", "d", "x", "l"];
  }

  lemma HalfWayIsApart()
    ensures PlacesApart(HalfWaySections()) && TargetsApart(["r"], ["b"], ["s"], HalfWaySections())
  {
    var s := HalfWaySections();
    assert PlacesApart(s) by {
      assert ["adapter"][0] == "adapter" && |MANIFEST| == 13 && |PRESERVED| == 15 && |"adapter"| == 7;
    }
    forall q: Path | q != [] && q[0] == "r" ensures !Overlap(q, ["s"]) && !Overlap(q, ["b"]) {
      assert ["s"][0] == "s" && ["b"][0] == "b";
    }
    forall i | 0 <= i < 2 ensures (["r"] + s[i].restorePath)[0] == "r" {}
    assert !Overlap(["b"], ["s"]);
  }

  lemma HalfWayIsReady(t: Tree, c: Content, m: Manifest)
    requires FileTree.WellFormed(t) && HalfWay(t, c, m)
    ensures RestoreReady(t, ["r"], ["b"], ["s"], HalfWaySections()) && Openable(t, ["s"])
    ensures KeptLogs(t, ["r"], HalfWaySections()) == Some(["d", "x", "l"])
  {
    HalfWayHasRoom(t, c, m);
    HalfWayPlaces(t, c, m);
    HalfWayMoves();
    HalfWayIsApart();
    assert ["r"] + ["d", "x", "l"] == ["r", "d", "x", "l"];
    assert ["b"] + ["adapter"] == ["b", "adapter"];
  }

  /** Of two final moves the first goes through and the second does not. */
  lemma StopsBetween(t: Tree, root: Path, backup: Path, safety: Path, report: string, m: Manifest, first: Move,
                     second: Move)
    requires RestoreReady(t, root, backup, safety, m.sections) && Openable(t, safety)
    requires FinalMoves(root, backup, safety, m.sections, KeptLogs(t, root, m.sections)) == [first] + [second]
    requires AllWaysOpen(t, [first]) && !AllWaysOpen(t, [first] + [second])
    ensures Restore(t, root, backup, safety, report, m).None?
    ensures var p := Prepare(t, root, safety, report, m.sections); p.Some? && ReplaceAll(p.value.tree, [first]).Some?
  {
    RestoreGoesThrough(t, root, backup, safety, report, m);
    PrepareGoesThrough(t, root, backup, safety, report, m.sections);
    PreparedTree(t, root, backup, safety, report, m.sections);
    var p := Prepare(t, root, safety, report, m.sections).value;
    var ms := [first] + [second];
    FinalMovesAreApart(t, root, backup, safety, m.sections, p.kept);
    SourcesArePresent(t, root, backup, safety, report, m);
    assert ms[0] == first;
    SameWaysOpen(t, p.tree, backup, safety, [first]);
    ReplaceAllGoesThrough(p.tree, [first]);
  }

  lemma SecondWayIsShut(t: Tree, first: Move, second: Move)
    requires first == Move(["b", "adapter"], ["r", "d"]) && second.dst == ["r", "d", "x", "l"]
    requires Get(t, ["b", "adapter", "x"]).Some? && Get(t, ["b", "adapter", "x"]).value.File?
    ensures !AllWaysOpen(t, [first] + [second])
  {
    var ms, x := [first] + [second], ["r", "d", "x"];
    assert ms[..1] == [first] && ms[1] == second;
    assert second.dst[..3] == x && x[|first.dst|..] == ["x"];
    assert first.dst <= x && first.src + ["x"] == ["b", "adapter", "x"];
    assert After(t, [first], x) == Get(t, ["b", "adapter", "x"]);
    assert !WayIsOpen(t, ms, 1);
  }

  lemma FirstWayIsOpen(t: Tree, first: Move)
    requires first == Move(["b", "adapter"], ["r", "d"]) && Get(t, []) == Get(t, ["r"]) == Some(Dir)
    ensures AllWaysOpen(t, [first])
  {
    forall j | 0 <= j < 2 ensures After(t, [first][..0], first.dst[..j]) in {None, Some(Dir)} {
      assert first.dst[..0] == [] && first.dst[..1] == ["r"] && [first][..0] == [];
    }
    assert WayIsOpen(t, [first], 0);
  }

  /** The bundle verifies, so the restore starts; the first section is replaced, and the restore fails. */
  ghost predicate StopsHalfWay(t: Tree, root: Path, backup: Path, safety: Path, report: string, m: Manifest, sha: Sha,
                               first: Move)
  {
    && CleanBundle(t, backup) && Verify(t, backup, sha, Some(m.requiredVersion), false) == Some(m)
    && RestoreReady(t, root, backup, safety, m.sections)
    && Restore(t, root, backup, safety, report, m).None?
    && Prepare(t, root, safety, report, m.sections).Some?
    && ReplaceAll(Prepare(t, root, safety, report, m.sections).value.tree, [first]).Some?
  }

  lemma HalfWayStops(t: Tree, c: Content, report: string, m: Manifest, sha: Sha)
    requires FileTree.WellFormed(t) && HalfWay(t, c, m) && m.sections == HalfWaySections()
    requires CleanBundle(t, ["b"]) && Verify(t, ["b"], sha, Some(m.requiredVersion), false) == Some(m)
    ensures StopsHalfWay(t, ["r"], ["b"], ["s"], report, m, sha, Move(["b", "adapter"], ["r", "d"]))
  {
    var first, second := Move(["b", "adapter"], ["r", "d"]), Move(["s", PRESERVED], ["r", "d", "x", "l"]);
    HalfWayIsReady(t, c, m);
    HalfWayMoves();
    HalfWayPlaces(t, c, m);
    FirstWayIsOpen(t, first);
    SecondWayIsShut(t, first, second);
    StopsBetween(t, ["r"], ["b"], ["s"], report, m, first, second);
  }

  lemma StillHalfWay(base: Tree, c: Content, m: Manifest, list: Node)
    requires HalfWay(base, c, m)
    ensures HalfWay(base[["b"] + [CHECKSUMS] := list], c, m)
  {
    var t := base[["b"] + [CHECKSUMS] := list];
    forall q | q != ["b"] + [CHECKSUMS] ensures Get(t, q) == Get(base, q) {}
  }

  lemma ListedBundleStops(base: Tree, c: Content, report: string, m: Manifest, sha: Sha) returns (t: Tree)
    requires FileTree.WellFormed(base) && CleanBundle(base, ["b"]) && ["b"] + [CHECKSUMS] !in base
    requires Get(base, ["b"] + [MANIFEST]) == Some(File(ManifestJson(m))) && HalfWay(base, c, m)
    requires HashTexts(sha) && WellTyped(m) && m.sections == HalfWaySections()
    requires SectionsPresent(base, ["b"], m.sections)
    ensures StopsHalfWay(t, ["r"], ["b"], ["s"], report, m, sha, Move(["b", "adapter"], ["r", "d"]))
  {
    var text := ListedBundleVerifies(base, ["b"], m, sha);
    StillHalfWay(base, c, m, File(Content.Text(text)));
    t := base[["b"] + [CHECKSUMS] := File(Content.Text(text))];
    HalfWayStops(t, c, report, m, sha);
  }

  /** It does happen, with whatever hash and contents: the data directory has been replaced, and then the kept
      logs cannot be put back. */
  lemma RestoreStopsHalfWay(c: Content, report: string, m: Manifest, sha: Sha)
    requires HashTexts(sha) && WellTyped(m) && m.sections == HalfWaySections()
    ensures exists t: Tree :: StopsHalfWay(t, ["r"], ["b"], ["s"], report, m, sha, Move(["b", "adapter"], ["r", "d"]))
  {
    HalfWayBundleIsTree(c, m);
    HalfWayBundleIsClean(c, m);
    HalfWayBundleIsComplete(c, m);
    var t := ListedBundleStops(HalfWayBundle(c, m), c, report, m, sha);
  }
}
