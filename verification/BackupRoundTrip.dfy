/** A restore undoes everything that happened to the backed-up sections since the backup was created. */
module BackupRoundTrip {
  import opened Common
  import opened Manifests
  import opened FileTree
  import opened TreeMoves
  import opened BundleFiles
  import opened BackupCopies
  import opened BackupVerify
  import opened BackupTrim
  import opened BackupCreate
  import opened BackupRestore
  import opened RestoreSafety

  /** Bundle and safety directory lie outside every section and apart from each other. The sections may lie
      inside one another, except that the log directory must not contain the data directory. */
  ghost predicate Layout(c: Config, bundle: Path, safety: Path) {
    && safety != [] && !Overlap(bundle, safety) && !(c.log <= c.data)
    && forall p :: p in Targets(c) ==> !Overlap(p, bundle) && !Overlap(p, safety)
  }

  ghost function Targets(c: Config): set<Path> {
    {DataDir(c), EnvFile(c), LogDir(c)} + if c.license.Some? then {c.root + c.license.value} else {}
  }

  // ---------------------------------------------------------------- the bundle, as a later tree still holds it

  lemma PartInBundle(t0: Tree, t1: Tree, t2: Tree, bundle: Path, parts: Parts, n: string)
    requires Filled(t0, t1, bundle, parts) && n in parts && SameBelow(t1, t2, bundle)
    ensures Holds(t2, bundle + [n], parts[n])
  {
    forall r ensures Get(t2, bundle + [n] + r) == parts[n](r) {
      Regroup(bundle, [n], r);
      assert Get(t1, bundle + [n] + r) == parts[n](r);
    }
  }

  // ---------------------------------------------------------------- move by move

  /** Away from the logs, everything at and below a target is as it was in `t0`. */
  ghost predicate Back(t0: Tree, mid: Tree, ms: seq<Move>, targets: set<Path>, log: Path) {
    forall p, q :: p in targets && p <= q && !(log <= q) ==> After(mid, ms, q) == Get(t0, q)
  }

  /** What stands at and below the log directory. */
  ghost predicate LogsAre(mid: Tree, ms: seq<Move>, log: Path, want: Part) {
    forall r :: After(mid, ms, log + r) == want(r)
  }

  /** The source of a move has, away from the logs, what `t0` had at its destination. */
  ghost predicate Supplies(mid: Tree, t0: Tree, m: Move, log: Path) {
    forall r :: !(log <= m.dst + r) ==> Get(mid, m.src + r) == Get(t0, m.dst + r)
  }

  lemma AfterOneMore(t: Tree, ms: seq<Move>, m: Move, q: Path)
    ensures After(t, ms + [m], q) ==
            if m.dst <= q then Get(t, m.src + q[|m.dst|..]) else if q <= m.dst then Some(Dir) else After(t, ms, q)
  {
    assert (ms + [m])[..|ms|] == ms;
  }

  lemma AboveExisting(t: Tree, p: Path, q: Path)
    requires FileTree.WellFormed(t) && p in t
    ensures q <= p && q != p ==> Get(t, q) == Some(Dir)
  {
    if q <= p && q != p {
      assert q == p[..|q|];
      AncestorsAreDirs(t, p, |q|);
    }
  }

  lemma BackMore(t0: Tree, mid: Tree, ms: seq<Move>, targets: set<Path>, log: Path, m: Move)
    requires FileTree.WellFormed(t0) && Back(t0, mid, ms, targets, log) && m.dst in t0 && Supplies(mid, t0, m, log)
    ensures Back(t0, mid, ms + [m], targets + {m.dst}, log)
  {
    forall p, q | p in targets + {m.dst} && p <= q && !(log <= q) ensures After(mid, ms + [m], q) == Get(t0, q) {
      AfterOneMore(mid, ms, m, q);
      AboveExisting(t0, m.dst, q);
      if m.dst <= q {
        Beneath(m.dst, q);
      }
    }
  }

  /** The source of a move has all that `t0` had at its destination. */
  ghost predicate SuppliesAll(mid: Tree, t0: Tree, m: Move) {
    forall r :: Get(mid, m.src + r) == Get(t0, m.dst + r)
  }

  /** What stands at the log directory when another place has been put back from `t0`. */
  ghost function Covered(t0: Tree, log: Path, place: Path, under: Part): Part {
    (r: Path) => if place <= log + r then Get(t0, log + r) else if log + r <= place then Some(Dir) else under(r)
  }

  lemma LogsCovered(t0: Tree, mid: Tree, ms: seq<Move>, log: Path, under: Part, m: Move)
    requires LogsAre(mid, ms, log, under) && SuppliesAll(mid, t0, m)
    ensures LogsAre(mid, ms + [m], log, Covered(t0, log, m.dst, under))
  {
    forall r ensures After(mid, ms + [m], log + r) == Covered(t0, log, m.dst, under)(r) {
      AfterOneMore(mid, ms, m, log + r);
      if m.dst <= log + r {
        Beneath(m.dst, log + r);
      }
    }
  }

  /** Restoring the data directory removes logs inside it. */
  lemma LogsRemoved(t0: Tree, mid: Tree, log: Path, data: Path, m: Move)
    requires !(log <= data) && m.dst == data && Holds(mid, m.src, (r: Path) => Filtered(t0, data, log, r))
    ensures LogsAre(mid, [m], log, (r: Path) => if data <= log then None else Get(mid, log + r))
  {
    forall r ensures After(mid, [m], log + r) == if data <= log then None else Get(mid, log + r) {
      AfterOneMore(mid, [], m, log + r);
      assert [] + [m] == [m];
      BeneathOf(log, r);
      PrefixChain(data, log, log + r);
      PrefixChain(log, log + r, data);
      if data <= log + r {
        PrefixesCompare(data, log, log + r);
        Beneath(data, log + r);
      }
    }
  }

  /** The last move puts logs back, and directories leading to them. */
  lemma LogsPutBack(t0: Tree, mid: Tree, ms: seq<Move>, targets: set<Path>, log: Path, m: Move)
    requires Back(t0, mid, ms, targets, log) && m.dst == log
    ensures LogsAre(mid, ms + [m], log, WholePart(mid, m.src))
    ensures forall p, q :: p in targets && p <= q && !(log <= q) ==>
              After(mid, ms + [m], q) == if q <= log then Some(Dir) else Get(t0, q)
  {
    forall r ensures After(mid, ms + [m], log + r) == WholePart(mid, m.src)(r) {
      AfterOneMore(mid, ms, m, log + r);
      BeneathOf(log, r);
    }
    forall p, q | p in targets && p <= q && !(log <= q)
      ensures After(mid, ms + [m], q) == if q <= log then Some(Dir) else Get(t0, q)
    {
      AfterOneMore(mid, ms, m, q);
    }
  }

  // ---------------------------------------------------------------- the moves of this restore

  function AdapterMove(c: Config, bundle: Path): Move { Move(bundle + ["adapter"], DataDir(c)) }

  function ConfigMove(c: Config, bundle: Path): Move { Move(bundle + ["config", ENV], EnvFile(c)) }

  function LicenseMove(c: Config, bundle: Path): Move
    requires c.license.Some?
  {
    Move(bundle + ["license"], c.root + c.license.value)
  }

  function SectionMoves(t0: Tree, c: Config, bundle: Path): seq<Move> {
    [AdapterMove(c, bundle)] + [ConfigMove(c, bundle)] + if HasLicense(t0, c) then [LicenseMove(c, bundle)] else []
  }

  /** The move that puts logs back, if there is one. */
  function LogMoves(c: Config, bundle: Path, safety: Path, captured: bool, kept: Option<Path>): seq<Move> {
    if captured then [Move(bundle + ["logs"], LogDir(c))]
    else if kept.Some? then [Move(safety + [PRESERVED], LogDir(c))] else []
  }

  lemma FourMoves(plan: Plan, sections: seq<Section>)
    requires |sections| == 4 && sections[0].included && sections[1].included
    ensures MovesFor(plan, sections) == [plan(sections[0])] + [plan(sections[1])]
              + (if sections[2].included then [plan(sections[2])] else [])
              + if sections[3].included then [plan(sections[3])] else []
  {
    OneMoveMore(plan, sections, 3);
    OneMoveMore(plan, sections, 2);
    OneMoveMore(plan, sections, 1);
    OneMoveMore(plan, sections, 0);
    assert sections[..4] == sections;
  }

  lemma OneMoveMore(plan: Plan, sections: seq<Section>, i: nat)
    requires i < |sections|
    ensures MovesFor(plan, sections[..i + 1]) == MovesFor(plan, sections[..i]) + MoveOfOne(plan, sections[i])
  {
    MovesAt(plan, sections, i);
  }

  lemma LogsKeptUnlessCaptured(c: Config, sections: seq<Section>, license: bool, captured: bool)
    requires SectionsFor(c, sections, license, captured)
    ensures LogsToKeep(sections) == if captured then None else Some(c.log)
  {
    assert sections == [sections[0], sections[1], sections[2], sections[3]];
    assert sections[1..][1..][1..] == [sections[3]];
    assert FindSection(sections, Logs) == FindSection(sections[1..], Logs) == FindSection(sections[1..][1..], Logs)
        == FindSection([sections[3]], Logs) == Some(sections[3]);
    assert sections[0].name == Adapter;
  }

  lemma MovesOfRestore(t0: Tree, c: Config, bundle: Path, safety: Path, sections: seq<Section>, captured: bool,
                       kept: Option<Path>)
    requires SectionsFor(c, sections, HasLicense(t0, c), captured)
    requires kept.Some? ==> kept == LogsToKeep(sections)
    ensures FinalMoves(c.root, bundle, safety, sections, kept) ==
            SectionMoves(t0, c, bundle) + LogMoves(c, bundle, safety, captured, kept)
  {
    FourMoves(RestorePlan(c.root, bundle), sections);
    LogsKeptUnlessCaptured(c, sections, HasLicense(t0, c), captured);
  }

  // ---------------------------------------------------------------- what the bundle supplies

  /** The sections as a later tree holds them in the bundle. */
  ghost predicate BundleHolds(t0: Tree, t: Tree, c: Config, bundle: Path, selected: seq<Path>) {
    && Holds(t, bundle + ["adapter"], AdapterPart(t0, c))
    && Holds(t, bundle + ["config"], ConfigPart(t0, c))
    && (HasLicense(t0, c) ==> Holds(t, bundle + ["license"], LicensePart(t0, c)))
    && (selected != [] ==> Holds(t, bundle + ["logs"], SelectedPart(t0, LogDir(c), selected)))
  }

  lemma BundleStillHolds(t0: Tree, t1: Tree, t2: Tree, c: Config, bundle: Path, sha: Sha, o: Options, version: string,
                         m: Manifest, selected: seq<Path>)
    requires Captured(t0, t1, c, bundle, sha, o, version, m, selected) && SameBelow(t1, t2, bundle)
    requires selected != [] ==> TakesLogs(t0, c, o.includeLogs)
    ensures BundleHolds(t0, t2, c, bundle, selected)
    ensures Get(t2, bundle + [MANIFEST]) == Some(File(ManifestJson(m)))
  {
    var list := t1[bundle + [CHECKSUMS]].content;
    var parts := AllParts(t0, c, o.includeLogs, selected, m, list);
    PartNames(t0, c, o.includeLogs, selected, m, list);
    PartInBundle(t0, t1, t2, bundle, parts, "adapter");
    PartInBundle(t0, t1, t2, bundle, parts, "config");
    if HasLicense(t0, c) {
      PartInBundle(t0, t1, t2, bundle, parts, "license");
    }
    if selected != [] {
      PartInBundle(t0, t1, t2, bundle, parts, "logs");
    }
    PartInBundle(t0, t1, t2, bundle, parts, MANIFEST);
    PlaceOfPart(t2, bundle + [MANIFEST], parts[MANIFEST]);
  }

  lemma PlaceOfPart(t: Tree, place: Path, part: Part)
    requires Holds(t, place, part)
    ensures Get(t, place) == part([])
  {
    assert place + [] == place;
    assert Get(t, place + []) == part([]);
  }

  lemma AdapterSupplies(t0: Tree, mid: Tree, c: Config, bundle: Path)
    requires Holds(mid, bundle + ["adapter"], AdapterPart(t0, c))
    ensures Supplies(mid, t0, AdapterMove(c, bundle), LogDir(c))
    ensures Holds(mid, AdapterMove(c, bundle).src, (r: Path) => Filtered(t0, DataDir(c), LogDir(c), r))
  {
    var m := AdapterMove(c, bundle);
    forall r ensures Get(mid, m.src + r) == Filtered(t0, DataDir(c), LogDir(c), r) {
      assert Get(mid, bundle + ["adapter"] + r) == AdapterPart(t0, c)(r);
    }
  }

  lemma ConfigSupplies(t0: Tree, mid: Tree, c: Config, bundle: Path)
    requires Holds(mid, bundle + ["config"], ConfigPart(t0, c))
    ensures SuppliesAll(mid, t0, ConfigMove(c, bundle))
    ensures Get(mid, bundle + ["config", ENV]) == Get(t0, EnvFile(c))
  {
    var m := ConfigMove(c, bundle);
    forall r ensures Get(mid, m.src + r) == Get(t0, m.dst + r) {
      assert m.src + r == bundle + ["config"] + ([ENV] + r);
      assert Get(mid, bundle + ["config"] + ([ENV] + r)) == ConfigPart(t0, c)([ENV] + r);
      assert ([ENV] + r)[1..] == r;
    }
    assert m.src + [] == m.src && m.dst + [] == m.dst;
    assert Get(mid, m.src + []) == Get(t0, m.dst + []);
  }

  lemma LicenseSupplies(t0: Tree, mid: Tree, c: Config, bundle: Path)
    requires HasLicense(t0, c) && Holds(mid, bundle + ["license"], LicensePart(t0, c))
    ensures SuppliesAll(mid, t0, LicenseMove(c, bundle))
  {
    var m := LicenseMove(c, bundle);
    forall r ensures Get(mid, m.src + r) == Get(t0, m.dst + r) {
      assert Get(mid, bundle + ["license"] + r) == LicensePart(t0, c)(r);
    }
  }

  /** Places whose contents come back. */
  ghost function SavedTargets(t0: Tree, c: Config): set<Path> {
    {DataDir(c), EnvFile(c)} + if HasLicense(t0, c) then {c.root + c.license.value} else {}
  }

  /** What stands at the log directory once `.env` and the license are back. */
  ghost function LogsUnder(t0: Tree, c: Config, data: Part): Part {
    var withEnv := Covered(t0, LogDir(c), EnvFile(c), data);
    if HasLicense(t0, c) then Covered(t0, LogDir(c), c.root + c.license.value, withEnv) else withEnv
  }

  /** What the restored data directory leaves of the logs. */
  ghost function LogsLeft(mid: Tree, c: Config): Part {
    (r: Path) => if DataDir(c) <= LogDir(c) then None else Get(mid, LogDir(c) + r)
  }

  /** After the sections other than the logs. */
  lemma SectionsBack(t0: Tree, mid: Tree, c: Config, bundle: Path, selected: seq<Path>)
    requires FileTree.WellFormed(t0) && EnvFile(c) in t0 && DataDir(c) in t0
    requires BundleHolds(t0, mid, c, bundle, selected) && !(c.log <= c.data)
    ensures Back(t0, mid, SectionMoves(t0, c, bundle), SavedTargets(t0, c), LogDir(c))
    ensures LogsAre(mid, SectionMoves(t0, c, bundle), LogDir(c), LogsUnder(t0, c, LogsLeft(mid, c)))
  {
    var data, env, log := AdapterMove(c, bundle), ConfigMove(c, bundle), LogDir(c);
    RequiredBack(t0, mid, c, bundle, selected);
    if HasLicense(t0, c) {
      var lic := LicenseMove(c, bundle);
      LicenseSupplies(t0, mid, c, bundle);
      BackMore(t0, mid, [data] + [env], {data.dst, env.dst}, log, lic);
      LogsCovered(t0, mid, [data] + [env], log, Covered(t0, log, env.dst, LogsLeft(mid, c)), lic);
    } else {
      assert [data] + [env] + [] == [data] + [env];
    }
  }

  lemma RequiredBack(t0: Tree, mid: Tree, c: Config, bundle: Path, selected: seq<Path>)
    requires FileTree.WellFormed(t0) && EnvFile(c) in t0 && DataDir(c) in t0
    requires BundleHolds(t0, mid, c, bundle, selected) && !(c.log <= c.data)
    ensures var ms := [AdapterMove(c, bundle)] + [ConfigMove(c, bundle)];
            && Back(t0, mid, ms, {DataDir(c), EnvFile(c)}, LogDir(c))
            && LogsAre(mid, ms, LogDir(c), Covered(t0, LogDir(c), EnvFile(c), LogsLeft(mid, c)))
  {
    var data, env, log := AdapterMove(c, bundle), ConfigMove(c, bundle), LogDir(c);
    DataBack(t0, mid, c, bundle, selected);
    ConfigSupplies(t0, mid, c, bundle);
    BackMore(t0, mid, [data], {data.dst}, log, env);
    LogsCovered(t0, mid, [data], log, LogsLeft(mid, c), env);
    assert {data.dst} + {env.dst} == {data.dst, env.dst};
  }

  lemma DataBack(t0: Tree, mid: Tree, c: Config, bundle: Path, selected: seq<Path>)
    requires FileTree.WellFormed(t0) && DataDir(c) in t0 && BundleHolds(t0, mid, c, bundle, selected)
    requires !(c.log <= c.data)
    ensures Back(t0, mid, [AdapterMove(c, bundle)], {DataDir(c)}, LogDir(c))
    ensures LogsAre(mid, [AdapterMove(c, bundle)], LogDir(c), LogsLeft(mid, c))
  {
    var data, log := AdapterMove(c, bundle), LogDir(c);
    AdapterSupplies(t0, mid, c, bundle);
    BackMore(t0, mid, [], {}, log, data);
    OrderBelow(c.root, c.log, c.data);
    LogsRemoved(t0, mid, log, DataDir(c), data);
    assert [] + [data] == [data] && {} + {data.dst} == {data.dst};
  }

  // ---------------------------------------------------------------- the restore is ready to run

  lemma OtherHead(a: Path, b: Path)
    requires a != [] && b != [] && a[0] != b[0]
    ensures !Overlap(a, b)
  {}

  function PlaceNames(): (names: seq<string>)
    ensures forall i :: 0 <= i < |names| ==> names[i] != MANIFEST && names[i] != PRESERVED
    ensures forall i, j :: 0 <= i < j < |names| ==> names[i] != names[j]
  {
    assert |MANIFEST| == 13 && |PRESERVED| == 15 && |"adapter"| == |"license"| == 7 && "adapter"[0] != "license"[0];
    ["adapter", "config", "license", "logs"]
  }

  lemma SeparatePlaces(c: Config, sections: seq<Section>, license: bool, captured: bool)
    requires SectionsFor(c, sections, license, captured)
    ensures PlacesApart(sections)
  {
    assert ["config", ENV][0] == "config";
    forall i | 0 <= i < |sections|
      ensures sections[i].bundlePath != [] && sections[i].bundlePath[0] == PlaceNames()[i]
    {}
    forall i | 0 <= i < |sections|
      ensures !Overlap(sections[i].bundlePath, [MANIFEST]) && !Overlap(sections[i].bundlePath, [PRESERVED])
    {
      OtherHead(sections[i].bundlePath, [MANIFEST]);
      OtherHead(sections[i].bundlePath, [PRESERVED]);
    }
    forall i, j | 0 <= i < j < |sections| ensures !Overlap(sections[i].bundlePath, sections[j].bundlePath) {
      OtherHead(sections[i].bundlePath, sections[j].bundlePath);
    }
  }

  lemma SeparateTargets(t0: Tree, c: Config, bundle: Path, safety: Path, sections: seq<Section>, captured: bool)
    requires SectionsFor(c, sections, HasLicense(t0, c), captured) && Layout(c, bundle, safety)
    ensures TargetsApart(c.root, bundle, safety, sections)
  {
    LogsKeptUnlessCaptured(c, sections, HasLicense(t0, c), captured);
    forall i | 0 <= i < |sections| && IsTarget(sections, sections[i])
      ensures c.root + sections[i].restorePath in Targets(c)
    {
      TargetOfSection(t0, c, sections, captured, i);
    }
    forall p | p in Targets(c) ensures p != [] && !Overlap(p, safety) && !Overlap(p, bundle) {
      assert [] <= safety;
    }
  }

  lemma TargetOfSection(t0: Tree, c: Config, sections: seq<Section>, captured: bool, i: nat)
    requires SectionsFor(c, sections, HasLicense(t0, c), captured) && i < |sections| && IsTarget(sections, sections[i])
    requires LogsToKeep(sections) == if captured then None else Some(c.log)
    ensures c.root + sections[i].restorePath in Targets(c)
  {
    assert c.root + c.log == LogDir(c);
  }

  lemma PlacesArePresent(t0: Tree, t: Tree, c: Config, bundle: Path, sections: seq<Section>, selected: seq<Path>)
    requires EnvFile(c) in t0 && DataDir(c) in t0 && !(c.log <= c.data)
    requires SectionsFor(c, sections, HasLicense(t0, c), selected != []) && BundleHolds(t0, t, c, bundle, selected)
    ensures SectionsPresent(t, bundle, sections)
  {
    RequiredPresent(t0, t, c, bundle, selected);
    OptionalPresent(t0, t, c, bundle, selected);
    assert sections == [sections[0], sections[1], sections[2], sections[3]];
  }

  lemma RequiredPresent(t0: Tree, t: Tree, c: Config, bundle: Path, selected: seq<Path>)
    requires EnvFile(c) in t0 && DataDir(c) in t0 && !(c.log <= c.data) && BundleHolds(t0, t, c, bundle, selected)
    ensures bundle + ["adapter"] in t && bundle + ["config", ENV] in t
  {
    OrderBelow(c.root, c.log, c.data);
    assert DataDir(c) + [] == DataDir(c);
    PlaceIsThere(t, bundle + ["adapter"], AdapterPart(t0, c));
    ConfigSupplies(t0, t, c, bundle);
  }

  lemma OptionalPresent(t0: Tree, t: Tree, c: Config, bundle: Path, selected: seq<Path>)
    requires BundleHolds(t0, t, c, bundle, selected)
    ensures HasLicense(t0, c) ==> bundle + ["license"] in t
    ensures selected != [] ==> bundle + ["logs"] in t
  {
    if HasLicense(t0, c) {
      assert c.root + c.license.value + [] == c.root + c.license.value;
      PlaceIsThere(t, bundle + ["license"], LicensePart(t0, c));
    }
    if selected != [] {
      PlaceIsThere(t, bundle + ["logs"], SelectedPart(t0, LogDir(c), selected));
    }
  }

  lemma PlaceIsThere(t: Tree, place: Path, part: Part)
    requires Holds(t, place, part) && part([]).Some?
    ensures place in t
  {
    PlaceOfPart(t, place, part);
  }

  /** What the prepared tree keeps of the tree the restore starts from. */
  lemma PreparedKeeps(t2: Tree, mid: Tree, bundle: Path, safety: Path, log: Path)
    requires forall q :: !(safety <= q) ==> Get(mid, q) == if q <= safety then Some(Dir) else Get(t2, q)
    requires !Overlap(bundle, safety) && !Overlap(log, safety)
    ensures SameBelow(t2, mid, bundle) && SameBelow(t2, mid, log)
  {
    forall r ensures Get(mid, bundle + r) == Get(t2, bundle + r) { ApartBelow(bundle, r, safety); }
    forall r ensures Get(mid, log + r) == Get(t2, log + r) { ApartBelow(log, r, safety); }
  }

  /** Contents of the log directory after the restore: the captured logs; else those found; else what came
      back with another section that reaches into the log directory or lies around it. */
  ghost function LogsAfter(t0: Tree, t2: Tree, c: Config, selected: seq<Path>): Part {
    if selected != [] then SelectedPart(t0, LogDir(c), selected)
    else if LogDir(c) in t2 then WholePart(t2, LogDir(c))
    else LogsUnder(t0, c, (_: Path) => None)
  }

  /** Away from the logs the targets are as in `t0`, except for directories that lead to logs put back;
      the log directory holds `want`. */
  ghost predicate Undone(t0: Tree, u: Tree, targets: set<Path>, log: Path, putBack: bool, want: Part) {
    && (forall p, q :: p in targets && p <= q && !(log <= q) ==>
          Get(u, q) == if q <= log && putBack then Some(Dir) else Get(t0, q))
    && Holds(u, log, want)
  }

  lemma LastMoveDecides(t0: Tree, mid: Tree, u: Tree, ms: seq<Move>, targets: set<Path>, log: Path, m: Move, want: Part)
    requires Back(t0, mid, ms, targets, log) && m.dst == log && Holds(mid, m.src, want)
    requires forall q :: Get(u, q) == After(mid, ms + [m], q)
    ensures Undone(t0, u, targets, log, true, want)
  {
    LogsPutBack(t0, mid, ms, targets, log, m);
    forall r ensures Get(u, log + r) == want(r) {
      assert After(mid, ms + [m], log + r) == WholePart(mid, m.src)(r);
      assert Get(mid, m.src + r) == want(r);
    }
  }

  lemma NoMoveDecides(t0: Tree, t2: Tree, mid: Tree, u: Tree, ms: seq<Move>, targets: set<Path>, c: Config)
    requires Back(t0, mid, ms, targets, LogDir(c))
    requires LogsAre(mid, ms, LogDir(c), LogsUnder(t0, c, LogsLeft(mid, c)))
    requires FileTree.WellFormed(t2) && LogDir(c) !in t2 && SameBelow(t2, mid, LogDir(c))
    requires forall q :: Get(u, q) == After(mid, ms, q)
    ensures Undone(t0, u, targets, LogDir(c), false, LogsUnder(t0, c, (_: Path) => None))
  {
    var log := LogDir(c);
    forall r ensures Get(u, log + r) == LogsUnder(t0, c, (_: Path) => None)(r) {
      NothingLeft(t2, mid, c, r);
      NothingUnder(t0, c, LogsLeft(mid, c), r);
      assert After(mid, ms, log + r) == LogsUnder(t0, c, LogsLeft(mid, c))(r);
    }
  }

  lemma NothingLeft(t2: Tree, mid: Tree, c: Config, r: Path)
    requires FileTree.WellFormed(t2) && LogDir(c) !in t2 && SameBelow(t2, mid, LogDir(c))
    ensures LogsLeft(mid, c)(r) == None
  {
    MissingBelow(t2, LogDir(c), r);
    assert Get(mid, LogDir(c) + r) == Get(t2, LogDir(c) + r);
  }

  lemma NothingUnder(t0: Tree, c: Config, data: Part, r: Path)
    requires data(r) == None
    ensures LogsUnder(t0, c, data)(r) == LogsUnder(t0, c, (_: Path) => None)(r)
  {}

  lemma MissingBelow(t: Tree, p: Path, r: Path)
    requires FileTree.WellFormed(t) && p !in t
    ensures p + r !in t
  {
    assert p + [] == p;
    if p + r in t {
      assert (p + r)[..|p|] == p;
      if r != [] { AncestorsAreDirs(t, p + r, |p|); }
    }
  }

  /** Main result. A bundle is created from `t0`, leaving `t1`; whatever happens outside the bundle then
      leads to `t2`; a restore from there that goes through brings back the data directory without the
      logs, `.env` and the license exactly, and the logs are the captured ones if the bundle has any, the
      ones found before the restore if there are any, and otherwise what the other sections bring back. */
  lemma RestoreUndoesChanges(t0: Tree, t1: Tree, t2: Tree, c: Config, bundle: Path, safety: Path, sha: Sha, o: Options,
                             version: string, m: Manifest, mtime: Path -> int, selected: seq<Path>, report: string)
    requires FileTree.WellFormed(t0) && Creatable(t0, c, bundle, o, Some(version))
    requires Captured(t0, t1, c, bundle, sha, o, version, m, selected) && LogsChosen(t0, c, o, mtime, selected)
    requires FileTree.WellFormed(t2) && SameBelow(t1, t2, bundle) && NothingAt(t2, safety) && Layout(c, bundle, safety)
    requires Restore(t2, c.root, bundle, safety, report, m).Some?
    ensures Undone(t0, Restore(t2, c.root, bundle, safety, report, m).value, SavedTargets(t0, c), LogDir(c),
                   selected != [] || LogDir(c) in t2, LogsAfter(t0, t2, c, selected))
  {
    BundleStillHolds(t0, t1, t2, c, bundle, sha, o, version, m, selected);
    RestoreCanBeRead(t0, t2, c, bundle, safety, m, selected, report);
    var p := Prepare(t2, c.root, safety, report, m.sections).value;
    var u := Restore(t2, c.root, bundle, safety, report, m).value;
    UndoneByMoves(t0, t2, p.tree, u, c, bundle, safety, selected, p.kept);
  }

  lemma UndoneByMoves(t0: Tree, t2: Tree, mid: Tree, u: Tree, c: Config, bundle: Path, safety: Path,
                      selected: seq<Path>, kept: Option<Path>)
    requires FileTree.WellFormed(t0) && EnvFile(c) in t0 && DataDir(c) in t0 && FileTree.WellFormed(t2)
    requires Layout(c, bundle, safety)
    requires BundleHolds(t0, t2, c, bundle, selected) && SameBelow(t2, mid, bundle) && SameBelow(t2, mid, LogDir(c))
    requires kept.Some? ==>
              selected == [] && LogDir(c) in t2 && Holds(mid, safety + [PRESERVED], WholePart(t2, LogDir(c)))
    requires kept.None? && selected == [] ==> LogDir(c) !in t2
    requires var ms := SectionMoves(t0, c, bundle) + LogMoves(c, bundle, safety, selected != [], kept);
             forall q :: Get(u, q) == After(mid, ms, q)
    ensures Undone(t0, u, SavedTargets(t0, c), LogDir(c),
                   selected != [] || LogDir(c) in t2, LogsAfter(t0, t2, c, selected))
  {
    BundleCopied(t0, t2, mid, c, bundle, selected);
    SectionsBack(t0, mid, c, bundle, selected);
    var ms, targets, log := SectionMoves(t0, c, bundle), SavedTargets(t0, c), LogDir(c);
    if selected != [] {
      LastMoveDecides(t0, mid, u, ms, targets, log, Move(bundle + ["logs"], log), SelectedPart(t0, log, selected));
    } else if kept.Some? {
      LastMoveDecides(t0, mid, u, ms, targets, log, Move(safety + [PRESERVED], log), WholePart(t2, log));
    } else {
      assert ms + [] == ms;
      NoMoveDecides(t0, t2, mid, u, ms, targets, c);
    }
  }

  lemma BundleCopied(t0: Tree, t2: Tree, mid: Tree, c: Config, bundle: Path, selected: seq<Path>)
    requires BundleHolds(t0, t2, c, bundle, selected) && SameBelow(t2, mid, bundle)
    ensures BundleHolds(t0, mid, c, bundle, selected)
  {
    HeldByCopy(t2, mid, bundle, "adapter", AdapterPart(t0, c));
    HeldByCopy(t2, mid, bundle, "config", ConfigPart(t0, c));
    if HasLicense(t0, c) {
      HeldByCopy(t2, mid, bundle, "license", LicensePart(t0, c));
    }
    if selected != [] {
      HeldByCopy(t2, mid, bundle, "logs", SelectedPart(t0, LogDir(c), selected));
    }
  }

  lemma HeldByCopy(t: Tree, u: Tree, bundle: Path, n: string, part: Part)
    requires Holds(t, bundle + [n], part) && SameBelow(t, u, bundle)
    ensures Holds(u, bundle + [n], part)
  {
    forall r ensures Get(u, bundle + [n] + r) == part(r) {
      Regroup(bundle, [n], r);
      assert Get(t, bundle + [n] + r) == part(r);
    }
  }

  /** The restored tree in terms of the prepared one, and what the prepared one keeps. */
  lemma RestoreCanBeRead(t0: Tree, t2: Tree, c: Config, bundle: Path, safety: Path, m: Manifest, selected: seq<Path>,
                         report: string)
    requires EnvFile(c) in t0 && DataDir(c) in t0 && FileTree.WellFormed(t2) && NothingAt(t2, safety)
    requires Layout(c, bundle, safety)
    requires SectionsFor(c, m.sections, HasLicense(t0, c), selected != []) && BundleHolds(t0, t2, c, bundle, selected)
    requires Restore(t2, c.root, bundle, safety, report, m).Some?
    ensures var p := Prepare(t2, c.root, safety, report, m.sections).value;
            && SameBelow(t2, p.tree, bundle) && SameBelow(t2, p.tree, LogDir(c))
            && (p.kept.Some? ==>
                 selected == [] && LogDir(c) in t2 && Holds(p.tree, safety + [PRESERVED], WholePart(t2, LogDir(c))))
            && (p.kept.None? && selected == [] ==> LogDir(c) !in t2)
            && forall q :: Get(Restore(t2, c.root, bundle, safety, report, m).value, q) ==
                 After(p.tree, SectionMoves(t0, c, bundle) + LogMoves(c, bundle, safety, selected != [], p.kept), q)
  {
    SeparatePlaces(c, m.sections, HasLicense(t0, c), selected != []);
    SeparateTargets(t0, c, bundle, safety, m.sections, selected != []);
    PlacesArePresent(t0, t2, c, bundle, m.sections, selected);
    LogsKeptUnlessCaptured(c, m.sections, HasLicense(t0, c), selected != []);
    PreparedTree(t2, c.root, bundle, safety, report, m.sections);
    RestoredTree(t2, c.root, bundle, safety, report, m);
    var p := Prepare(t2, c.root, safety, report, m.sections).value;
    PreparedKeeps(t2, p.tree, bundle, safety, LogDir(c));
    MovesOfRestore(t0, c, bundle, safety, m.sections, selected != [], p.kept);
  }

  // ---------------------------------------------------------------- the gate in front of a restore

  /** A finished bundle verifies, wherever it is looked at from, exactly when its manifest can be read back
      and the version is the one it was made for (or a mismatch is allowed). */
  lemma BundleVerifiesExactly(t0: Tree, t1: Tree, t2: Tree, c: Config, bundle: Path, sha: Sha, o: Options,
                              version: string, m: Manifest, selected: seq<Path>, current: Option<string>,
                              allowMismatch: bool)
    requires EnvFile(c) in t0 && DataDir(c) in t0 && !(c.log <= c.data) && version != ""
    requires Captured(t0, t1, c, bundle, sha, o, version, m, selected)
    requires selected != [] ==> TakesLogs(t0, c, o.includeLogs)
    requires SameBelow(t1, t2, bundle)
    ensures Verify(t2, bundle, sha, current, allowMismatch) ==
            if o.id != "" && o.maxLogFiles >= 0 && (allowMismatch || current == Some(version)) then Some(m) else None
  {
    FromBelow(t1, t2, bundle);
    VerifyOnlyReadsBundle(t1, t2, bundle, sha, current, allowMismatch);
    SameAsItself(t1, bundle);
    BundleStillHolds(t0, t1, t1, c, bundle, sha, o, version, m, selected);
    PlacesArePresent(t0, t1, c, bundle, m.sections, selected);
    ManifestReadsBack(c, m, HasLicense(t0, c), selected != [], o, version);
    VerifiesByParts(t1, bundle, sha, m, current, allowMismatch);
  }

  lemma SameAsItself(t: Tree, p: Path)
    ensures SameBelow(t, t, p)
  {}

  lemma ManifestReadsBack(c: Config, m: Manifest, license: bool, captured: bool, o: Options, version: string)
    requires Describes(m, o, version, captured) && SectionsFor(c, m.sections, license, captured) && version != ""
    ensures WellTyped(m) <==> o.id != "" && o.maxLogFiles >= 0
  {
    forall i | 0 <= i < |m.sections| ensures m.sections[i].bundlePath != [] && m.sections[i].fileCount >= 0 {
      assert m.sections == [m.sections[0], m.sections[1], m.sections[2], m.sections[3]];
    }
  }

  /** Trimming the logs of a bundle made by `createBackup` removes no other captured section, so it stays
      valid. */
  lemma TrimmedBackupStaysValid(c: Config, sections: seq<Section>, license: bool, captured: bool)
    requires SectionsFor(c, sections, license, captured)
    ensures !TakesOthers(sections, ["logs"])
  {
    UncaptureMeaning(sections);
    LogsAreFourth(sections, c, license, captured);
    forall i | 0 <= i < 3 ensures !(["logs"] <= Uncapture(sections)[i].bundlePath) {
      assert |sections[i].bundlePath[0]| >= 6 && |"logs"| == 4;
    }
  }

  lemma LogsAreFourth(sections: seq<Section>, c: Config, license: bool, captured: bool)
    requires SectionsFor(c, sections, license, captured)
    ensures |Uncapture(sections)| == 4 && !Uncapture(sections)[3].included
  {
    assert Uncapture(sections) == [sections[0]] + Uncapture(sections[1..]);
    assert Uncapture(sections[1..]) == [sections[1]] + Uncapture(sections[1..][1..]);
    assert Uncapture(sections[1..][1..]) == [sections[2]] + Uncapture(sections[1..][1..][1..]);
    assert sections[1..][1..][1..] == [sections[3]];
  }
}
