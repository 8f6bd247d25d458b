/** Creating a bundle (src/ops/backup/backup-create.ts). The clock, file times, the package version and
    the hash are parameters; places are relative to the root directory. */
module BackupCreate {
  import opened Common
  import opened Sorting
  import opened Manifests
  import opened FileTree
  import opened TreeMoves
  import opened Checksums
  import opened BundleFiles
  import opened BackupCopies
  import opened BackupVerify

  const ENV := ".env"

  datatype Config = Config(root: Path, data: Path, log: Path, license: Option<Path>)

  function DataDir(c: Config): Path { c.root + c.data }

  function LogDir(c: Config): Path { c.root + c.log }

  function EnvFile(c: Config): Path { c.root + [ENV] }

  /** The license directory is used when it is configured, is not the root, and exists. */
  predicate HasLicense(t: Tree, c: Config) {
    c.license.Some? && c.license.value != [] && c.root + c.license.value in t
  }

  // ---------------------------------------------------------------- the manifest

  function AdapterSection(c: Config, count: int): Section {
    Section(Adapter, c.data, ["adapter"], c.data, false, true, count)
  }

  function ConfigSection(): Section { Section(SectionName.Config, [ENV], ["config", ENV], [ENV], false, true, 1) }

  function LicenseSection(c: Config, included: bool, count: int): Section {
    var p := if c.license.Some? then c.license.value else [];
    Section(License, p, ["license"], p, true, included, count)
  }

  function LogSection(c: Config, included: bool, count: int): Section {
    Section(Logs, c.log, ["logs"], c.log, true, included, count)
  }

  /** The four sections: where each comes from, stands in the bundle and is restored to, whether it may be missing,
      and whether it is included. */
  ghost predicate SectionsFor(c: Config, sections: seq<Section>, license: bool, logs: bool) {
    && |sections| == 4
    && sections[0] == Section(Adapter, c.data, ["adapter"], c.data, false, true, sections[0].fileCount)
    && sections[1] == Section(SectionName.Config, [".env"], ["config", ".env"], [".env"], false, true, 1)
    && (var p := if c.license.Some? then c.license.value else [];
        sections[2] == Section(License, p, ["license"], p, true, license, sections[2].fileCount))
    && sections[3] == Section(Logs, c.log, ["logs"], c.log, true, logs, sections[3].fileCount)
    && sections[0].fileCount >= 0 && sections[2].fileCount >= 0 && sections[3].fileCount >= 0
  }

  // ---------------------------------------------------------------- what a bundle holds

  /** Contents of a section, by path below its place. */
  type Part = Path -> Option<Node>

  ghost predicate Holds(u: Tree, place: Path, part: Part) {
    forall r :: Get(u, place + r) == part(r)
  }

  /** The data directory without the logs. */
  function AdapterPart(t0: Tree, c: Config): Part {
    (r: Path) => Filtered(t0, DataDir(c), LogDir(c), r)
  }

  function ConfigPart(t0: Tree, c: Config): Part {
    (r: Path) => if r == [] then Some(Dir) else if r[0] == ENV then Get(t0, EnvFile(c) + r[1..]) else None
  }

  function WholePart(t0: Tree, src: Path): Part {
    (r: Path) => Get(t0, src + r)
  }

  /** Exactly the selected files. */
  ghost function SelectedPart(t0: Tree, src: Path, selected: seq<Path>): Part {
    (r: Path) => if r == [] then Some(Dir) else if TowardsSelected(selected, r) then Get(t0, src + r) else None
  }

  /** How many of `n` files `slice(0, max)` lets through. */
  function Allowed(n: nat, max: int): nat { if max >= 0 then Min(max, n) else Max(0, n + max) }

  /** The selection is the newest files of the directory: as many as allowed, none left out that is
      strictly newer than a selected one. */
  ghost predicate Newest(t0: Tree, dir: Path, mtime: Path -> int, max: int, selected: seq<Path>) {
    && Distinct(selected)
    && (forall k :: 0 <= k < |selected| ==> selected[k] != [] && IsFile(t0, dir + selected[k]))
    && |selected| == Allowed(|FilesUnder(t0, dir)|, max)
    && forall q, k :: q in FilesUnder(t0, dir) && q[|dir|..] !in selected && 0 <= k < |selected| ==>
         mtime(q) <= mtime(dir + selected[k])
  }

  // ---------------------------------------------------------------- one section at a time

  /** Outside the bundle only directories leading to it may be new. */
  ghost predicate Outside(t0: Tree, u: Tree, bundle: Path) {
    forall q :: !(bundle <= q) ==> Get(u, q) == if q <= bundle then Some(Dir) else Get(t0, q)
  }

  /** The bundle under construction: outside it nothing changed, and only `used` names stand in it. */
  ghost predicate Stage(t0: Tree, u: Tree, bundle: Path, used: set<string>) {
    && FileTree.WellFormed(u) && IsDir(u, bundle) && Outside(t0, u, bundle)
    && (forall n :: n !in used ==> NothingAt(u, bundle + [n]))
    && forall n :: n in used ==> CleanName(n) && CleanBundle(u, bundle + [n])
  }

  /** The step from `u` to `v` only put the part under one name of the bundle. */
  ghost predicate Stored(u: Tree, v: Tree, bundle: Path, n: string, part: Part) {
    FileTree.WellFormed(v) && OnlyBelow(u, v, bundle + [n]) && Holds(v, bundle + [n], part)
  }

  /** What stands under each used name. */
  type Parts = map<string, Part>

  ghost predicate Filled(t0: Tree, u: Tree, bundle: Path, parts: Parts) {
    Stage(t0, u, bundle, parts.Keys) && forall n :: n in parts ==> Holds(u, bundle + [n], parts[n])
  }

  ghost predicate CleanPart(part: Part) {
    forall r: Path, i :: part(r).Some? && 0 <= i < |r| ==> CleanName(r[i])
  }

  ghost predicate CleanSources(t: Tree, c: Config) {
    && CleanBundle(t, DataDir(c)) && CleanBundle(t, EnvFile(c)) && CleanBundle(t, LogDir(c))
    && (c.license.Some? ==> CleanBundle(t, c.root + c.license.value))
  }

  /** The bundle lies apart from every section, and the logs do not contain the data directory. */
  ghost predicate CreateReady(t: Tree, c: Config, bundle: Path) {
    && FileTree.WellFormed(t) && bundle != [] && NothingAt(t, bundle) && CleanSources(t, c)
    && !(c.log <= c.data)
    && !Overlap(DataDir(c), bundle) && !Overlap(EnvFile(c), bundle) && !Overlap(LogDir(c), bundle)
    && (c.license.Some? ==> !Overlap(c.root + c.license.value, bundle))
  }

  lemma SameName(bundle: Path, n: string, m: string, r: Path)
    ensures bundle + [n] <= bundle + [m] + r ==> n == m
  {
    if bundle + [n] <= bundle + [m] + r {
      assert (bundle + [n])[|bundle|] == (bundle + [m] + r)[|bundle|];
    }
  }

  lemma SourceUnchanged(t0: Tree, u: Tree, bundle: Path, src: Path)
    requires Outside(t0, u, bundle) && !Overlap(src, bundle)
    ensures forall r :: Get(u, src + r) == Get(t0, src + r)
    ensures Get(u, src) == Get(t0, src)
  {
    forall r ensures Get(u, src + r) == Get(t0, src + r) {
      ApartBelow(src, r, bundle);
    }
    assert src + [] == src && Get(u, src + []) == Get(t0, src + []);
  }

  lemma CleanBelow(t: Tree, src: Path, r: Path)
    requires CleanBundle(t, src) && src + r in t
    ensures forall i :: 0 <= i < |r| ==> CleanName(r[i])
  {
    BeneathOf(src, r);
    forall i | 0 <= i < |r| ensures CleanName(r[i]) {
      assert (src + r)[|src| + i] == r[i];
    }
  }

  lemma PartIsClean(u: Tree, place: Path, part: Part)
    requires CleanPart(part) && Holds(u, place, part)
    ensures CleanBundle(u, place)
  {
    forall q, i | q in u && place <= q && |place| <= i < |q| ensures CleanName(q[i]) {
      Beneath(place, q);
      var r := q[|place|..];
      assert part(r) == Get(u, place + r) == Some(u[q]);
      assert r[i - |place|] == q[i];
    }
  }

  lemma KeptFree(u: Tree, v: Tree, bundle: Path, n: string, m: string)
    requires OnlyBelow(u, v, bundle + [n]) && NothingAt(u, bundle + [m])
    ensures n != m ==> NothingAt(v, bundle + [m])
  {
    if n != m {
      forall q | bundle + [m] <= q ensures q !in v {
        Beneath(bundle + [m], q);
        SameName(bundle, n, m, q[|bundle| + 1..]);
        assert Get(v, q) == Get(u, q);
      }
    }
  }

  lemma KeptClean(u: Tree, v: Tree, bundle: Path, n: string, m: string)
    requires OnlyBelow(u, v, bundle + [n]) && CleanBundle(u, bundle + [m])
    ensures n != m ==> CleanBundle(v, bundle + [m])
  {
    if n != m {
      forall q | q in v && bundle + [m] <= q ensures q in u {
        Beneath(bundle + [m], q);
        SameName(bundle, n, m, q[|bundle| + 1..]);
        assert Get(v, q) == Get(u, q);
      }
    }
  }

  lemma KeptOutside(t0: Tree, u: Tree, v: Tree, bundle: Path, n: string)
    requires Outside(t0, u, bundle) && OnlyBelow(u, v, bundle + [n])
    ensures Outside(t0, v, bundle) && Get(v, bundle) == Get(u, bundle)
  {
    forall q | !(bundle <= q) ensures Get(v, q) == if q <= bundle then Some(Dir) else Get(t0, q) {
      PrefixChain(bundle, bundle + [n], q);
    }
  }

  /** Parts under other names are not affected by a step. */
  lemma OtherPartsKept(u: Tree, v: Tree, bundle: Path, n: string, m: string, part: Part)
    requires OnlyBelow(u, v, bundle + [n]) && Holds(u, bundle + [m], part)
    ensures n != m ==> Holds(v, bundle + [m], part)
  {
    if n != m {
      forall r ensures Get(v, bundle + [m] + r) == part(r) {
        SameName(bundle, n, m, r);
      }
    }
  }

  lemma StageAdvances(t0: Tree, u: Tree, v: Tree, bundle: Path, used: set<string>, n: string, part: Part)
    requires Stage(t0, u, bundle, used) && Stored(u, v, bundle, n, part) && CleanName(n) && CleanPart(part)
    ensures Stage(t0, v, bundle, used + {n})
  {
    PartIsClean(v, bundle + [n], part);
    KeptOutside(t0, u, v, bundle, n);
    forall m | m !in used + {n} ensures NothingAt(v, bundle + [m]) {
      KeptFree(u, v, bundle, n, m);
    }
    forall m | m in used && m != n ensures CleanBundle(v, bundle + [m]) {
      KeptClean(u, v, bundle, n, m);
    }
  }

  /** Storing a clean part under a clean name advances the construction. */
  lemma Advance(t0: Tree, u: Tree, v: Tree, bundle: Path, parts: Parts, n: string, part: Part)
    requires Filled(t0, u, bundle, parts) && Stored(u, v, bundle, n, part) && CleanName(n) && CleanPart(part)
    ensures Filled(t0, v, bundle, parts[n := part])
  {
    StageAdvances(t0, u, v, bundle, parts.Keys, n, part);
    var more := parts[n := part];
    assert more.Keys == parts.Keys + {n};
    forall m | m in more ensures Holds(v, bundle + [m], more[m]) {
      if m != n { OtherPartsKept(u, v, bundle, n, m, parts[m]); }
    }
  }

  lemma StageIsReady(t0: Tree, u: Tree, bundle: Path, used: set<string>, n: string, src: Path)
    requires Stage(t0, u, bundle, used) && n !in used && IsDir(t0, src) && !Overlap(src, bundle)
    ensures CopyReady(u, src, bundle + [n])
  {
    SourceUnchanged(t0, u, bundle, src);
    assert Parent(bundle + [n]) == bundle;
    ApartBelow(bundle, [n], src);
  }

  lemma NamesAreClean()
    ensures CleanName("adapter") && CleanName("config") && CleanName(ENV) && CleanName("license") && CleanName("logs")
  {}

  // ---------------------------------------------------------------- the parts of a bundle

  ghost function LicensePart(t0: Tree, c: Config): Part
    requires HasLicense(t0, c)
  {
    WholePart(t0, c.root + c.license.value)
  }

  function FilePart(c: Content): Part { (r: Path) => if r == [] then Some(File(c)) else None }

  /** The log directory is captured when asked for and present. */
  predicate TakesLogs(t0: Tree, c: Config, includeLogs: bool) { includeLogs && LogDir(c) in t0 }

  ghost function NoParts(): Parts { map[] }

  ghost function AdapterOnly(t0: Tree, c: Config): Parts { NoParts()["adapter" := AdapterPart(t0, c)] }

  ghost function RequiredParts(t0: Tree, c: Config): Parts { AdapterOnly(t0, c)["config" := ConfigPart(t0, c)] }

  ghost function WithLicense(t0: Tree, c: Config): Parts {
    if HasLicense(t0, c) then RequiredParts(t0, c)["license" := LicensePart(t0, c)] else RequiredParts(t0, c)
  }

  /** What the sections put into the bundle. */
  ghost function SectionParts(t0: Tree, c: Config, includeLogs: bool, selected: seq<Path>): Parts {
    if TakesLogs(t0, c, includeLogs) then WithLicense(t0, c)["logs" := SelectedPart(t0, LogDir(c), selected)]
    else WithLicense(t0, c)
  }

  ghost function AllParts(t0: Tree, c: Config, includeLogs: bool, selected: seq<Path>, m: Manifest,
                          list: Content): Parts
  {
    SectionParts(t0, c, includeLogs, selected)[MANIFEST := FilePart(ManifestJson(m))][CHECKSUMS := FilePart(list)]
  }

  lemma UnusedNames(t0: Tree, c: Config)
    ensures "adapter" !in NoParts() && "config" !in AdapterOnly(t0, c)
    ensures "license" !in RequiredParts(t0, c) && "logs" !in WithLicense(t0, c)
  {
    assert RequiredParts(t0, c).Keys == {"adapter", "config"};
    assert WithLicense(t0, c).Keys <= {"adapter", "config", "license"};
  }

  // ---------------------------------------------------------------- the adapter section

  lemma GraftStored(t0: Tree, u: Tree, v: Tree, c: Config, bundle: Path, n: string)
    requires Outside(t0, u, bundle) && !Overlap(DataDir(c), bundle) && FileTree.WellFormed(v)
    requires GraftedAt(u, DataDir(c), LogDir(c), bundle + [n], v)
    ensures Stored(u, v, bundle, n, AdapterPart(t0, c))
  {
    SourceUnchanged(t0, u, bundle, DataDir(c));
    forall r ensures Get(v, bundle + [n] + r) == AdapterPart(t0, c)(r) {
      BeneathOf(bundle + [n], r);
    }
  }

  lemma AdapterPartIsClean(t0: Tree, c: Config)
    requires CleanBundle(t0, DataDir(c))
    ensures CleanPart(AdapterPart(t0, c))
  {
    forall r: Path, i | AdapterPart(t0, c)(r).Some? && 0 <= i < |r| ensures CleanName(r[i]) {
      CleanBelow(t0, DataDir(c), r);
    }
  }

  method CopyAdapterSection(fs: FileSystem, ghost t0: Tree, c: Config, bundle: Path) returns (section: Section)
    requires CreateReady(t0, c, bundle) && Filled(t0, fs.nodes, bundle, NoParts()) && IsDir(t0, DataDir(c))
    modifies fs
    ensures Filled(t0, fs.nodes, bundle, AdapterOnly(t0, c))
    ensures section == AdapterSection(c, |FilesUnder(fs.nodes, bundle + ["adapter"])|)
  {
    ghost var u := fs.nodes;
    var dst := bundle + ["adapter"];
    StageIsReady(t0, u, bundle, {}, "adapter", DataDir(c));
    OrderBelow(c.root, c.log, c.data);
    var ok := CopyDirectoryFiltered(fs, DataDir(c), dst, LogDir(c));
    GraftStored(t0, u, fs.nodes, c, bundle, "adapter");
    AdapterPartIsClean(t0, c);
    NamesAreClean();
    Advance(t0, u, fs.nodes, bundle, NoParts(), "adapter", AdapterPart(t0, c));
    GraftIsDir(u, DataDir(c), LogDir(c), dst, fs.nodes);
    var count := CountFiles(fs, dst);
    section := AdapterSection(c, count);
  }

  lemma GraftIsDir(u: Tree, src: Path, excl: Path, dst: Path, v: Tree)
    requires IsDir(u, src) && !(excl <= src) && GraftedAt(u, src, excl, dst, v)
    ensures IsDir(v, dst)
  {
    assert src + [] == src && dst[|dst|..] == [];
    assert Get(v, dst) == Filtered(u, src, excl, []);
  }

  // ---------------------------------------------------------------- the config section

  lemma UnusedIsFree(t0: Tree, u: Tree, bundle: Path, used: set<string>, n: string)
    requires Stage(t0, u, bundle, used) && n !in used
    ensures NothingAt(u, bundle + [n])
  {}

  /** A copy under an unused name goes to a free place. */
  lemma CopiedIntoStage(t0: Tree, u: Tree, v: Tree, src: Path, bundle: Path, used: set<string>, n: string, dst: Path)
    requires Stage(t0, u, bundle, used) && n !in used && src in t0 && !Overlap(src, bundle)
    requires bundle + [n] <= dst && CopyPath(u, src, dst) == Some(v)
    ensures FileTree.WellFormed(v) && Placed(u, src, dst, v)
  {
    FreeInStage(t0, u, src, bundle, used, n, dst);
    CopyPathMeaning(u, src, dst);
  }

  lemma FreeInStage(t0: Tree, u: Tree, src: Path, bundle: Path, used: set<string>, n: string, dst: Path)
    requires Stage(t0, u, bundle, used) && n !in used && src in t0 && !Overlap(src, bundle) && bundle + [n] <= dst
    ensures FileTree.WellFormed(u) && src in u && NothingAt(u, dst) && dst != [] && !(src <= dst)
  {
    SourceUnchanged(t0, u, bundle, src);
    assert NothingAt(u, bundle + [n]);
    forall q | q in u ensures !(dst <= q) { PrefixChain(bundle + [n], dst, q); }
    PrefixChain(bundle, bundle + [n], dst);
    Beneath(bundle, dst);
    ApartBelow(bundle, dst[|bundle|..], src);
  }

  /** Up to two levels below the bundle nothing blocks a copy. */
  lemma CopyGoesThrough(t0: Tree, u: Tree, src: Path, bundle: Path, used: set<string>, n: string, dst: Path)
    requires Stage(t0, u, bundle, used) && n !in used && src in t0 && !Overlap(src, bundle)
    requires dst == bundle + [n] || (dst != [] && Parent(dst) == bundle + [n])
    ensures bundle + [n] <= dst && CopyPath(u, src, dst).Some?
  {
    var dir := bundle + [n];
    FreeInStage(t0, u, src, bundle, used, n, dir);
    ExistingIsOpenable(u, bundle);
    assert Parent(dir) == bundle && dir !in u;
    OpenableParent(u, dir);
    FreeInStage(t0, u, src, bundle, used, n, dst);
    CopyPathMeaning(u, src, dst);
  }

  lemma ConfigStored(t0: Tree, u: Tree, v: Tree, c: Config, bundle: Path)
    requires FileTree.WellFormed(u) && FileTree.WellFormed(v) && IsDir(u, bundle) && NothingAt(u, bundle + ["config"])
    requires Outside(t0, u, bundle) && !Overlap(EnvFile(c), bundle)
    requires Placed(u, EnvFile(c), bundle + ["config", ENV], v)
    ensures Stored(u, v, bundle, "config", ConfigPart(t0, c))
  {
    SourceUnchanged(t0, u, bundle, EnvFile(c));
    ConfigTouchesNoOther(u, v, EnvFile(c), bundle);
    forall r ensures Get(v, bundle + ["config"] + r) == ConfigPart(t0, c)(r) {
      ConfigPlace(t0, u, v, c, bundle, r);
    }
  }

  lemma ConfigTouchesNoOther(u: Tree, v: Tree, src: Path, bundle: Path)
    requires FileTree.WellFormed(u) && IsDir(u, bundle) && Placed(u, src, bundle + ["config", ENV], v)
    ensures OnlyBelow(u, v, bundle + ["config"])
  {
    var dir, dst := bundle + ["config"], bundle + ["config", ENV];
    ExistingIsOpenable(u, bundle);
    assert Parent(dst) == dir && Parent(dir) == bundle;
    forall q | !(dir <= q) ensures Get(v, q) == Get(u, q) {
      PrefixChain(dir, dst, q);
      PrefixOfParent(dst, q);
      PrefixOfParent(dir, q);
    }
  }

  lemma ConfigPlace(t0: Tree, u: Tree, v: Tree, c: Config, bundle: Path, r: Path)
    requires Placed(u, EnvFile(c), bundle + ["config", ENV], v) && NothingAt(u, bundle + ["config"])
    requires forall x :: Get(u, EnvFile(c) + x) == Get(t0, EnvFile(c) + x)
    ensures Get(v, bundle + ["config"] + r) == ConfigPart(t0, c)(r)
  {
    var dir := bundle + ["config"];
    var dst := dir + [ENV];
    assert bundle + ["config", ENV] == dst;
    OrderBelow(dir, [ENV], r);
    OrderBelow(dir, r, [ENV]);
    BeneathOf(dir, r);
    if r != [] && r[0] == ENV {
      assert [ENV] <= r && (dir + r)[|dst|..] == r[1..];
    }
  }

  lemma ConfigPartIsClean(t0: Tree, c: Config)
    requires CleanBundle(t0, EnvFile(c)) && CleanName(ENV)
    ensures CleanPart(ConfigPart(t0, c))
  {
    forall r: Path, i | ConfigPart(t0, c)(r).Some? && 0 <= i < |r| ensures CleanName(r[i]) {
      CleanBelow(t0, EnvFile(c), r[1..]);
      assert r == [ENV] + r[1..];
    }
  }

  lemma ConfigAdvanced(t0: Tree, u: Tree, v: Tree, c: Config, bundle: Path, parts: Parts)
    requires CleanBundle(t0, EnvFile(c)) && !Overlap(EnvFile(c), bundle)
    requires Filled(t0, u, bundle, parts) && "config" !in parts && EnvFile(c) in t0
    requires CopyPath(u, EnvFile(c), bundle + ["config", ENV]) == Some(v)
    ensures Filled(t0, v, bundle, parts["config" := ConfigPart(t0, c)])
  {
    assert bundle + ["config"] + [ENV] == bundle + ["config", ENV];
    UnusedIsFree(t0, u, bundle, parts.Keys, "config");
    CopiedIntoStage(t0, u, v, EnvFile(c), bundle, parts.Keys, "config", bundle + ["config", ENV]);
    ConfigStored(t0, u, v, c, bundle);
    NamesAreClean();
    ConfigPartIsClean(t0, c);
    Advance(t0, u, v, bundle, parts, "config", ConfigPart(t0, c));
  }

  method CopyConfigSection(fs: FileSystem, ghost t0: Tree, c: Config, bundle: Path, ghost parts: Parts)
    returns (section: Section)
    requires CleanBundle(t0, EnvFile(c)) && !Overlap(EnvFile(c), bundle)
    requires Filled(t0, fs.nodes, bundle, parts) && "config" !in parts && EnvFile(c) in t0
    modifies fs
    ensures Filled(t0, fs.nodes, bundle, parts["config" := ConfigPart(t0, c)])
    ensures section == ConfigSection()
  {
    ghost var u := fs.nodes;
    assert Parent(bundle + ["config", ENV]) == bundle + ["config"];
    CopyGoesThrough(t0, u, EnvFile(c), bundle, parts.Keys, "config", bundle + ["config", ENV]);
    var ok := fs.Copy(EnvFile(c), bundle + ["config", ENV]);
    ConfigAdvanced(t0, u, fs.nodes, c, bundle, parts);
    section := ConfigSection();
  }

  // ---------------------------------------------------------------- the license section

  lemma WholeStored(t0: Tree, u: Tree, v: Tree, src: Path, bundle: Path, n: string)
    requires FileTree.WellFormed(u) && FileTree.WellFormed(v) && IsDir(u, bundle)
    requires Outside(t0, u, bundle) && !Overlap(src, bundle) && Placed(u, src, bundle + [n], v)
    ensures Stored(u, v, bundle, n, WholePart(t0, src))
  {
    PlacedOnlyBelow(u, v, src, bundle, n);
    forall r ensures Get(v, bundle + [n] + r) == WholePart(t0, src)(r) {
      PlacedWhole(t0, u, v, src, bundle, bundle + [n], r);
    }
  }

  lemma PlacedWhole(t0: Tree, u: Tree, v: Tree, src: Path, bundle: Path, dst: Path, r: Path)
    requires Outside(t0, u, bundle) && !Overlap(src, bundle) && Placed(u, src, dst, v)
    ensures Get(v, dst + r) == Get(t0, src + r)
  {
    BeneathOf(dst, r);
    ApartBelow(src, r, bundle);
  }

  lemma PlacedOnlyBelow(u: Tree, v: Tree, src: Path, bundle: Path, n: string)
    requires FileTree.WellFormed(u) && IsDir(u, bundle) && Placed(u, src, bundle + [n], v)
    ensures OnlyBelow(u, v, bundle + [n])
  {
    var dst := bundle + [n];
    ExistingIsOpenable(u, bundle);
    assert Parent(dst) == bundle;
    forall q | !(dst <= q) ensures Get(v, q) == Get(u, q) { PrefixOfParent(dst, q); }
  }

  lemma WholePartIsClean(t0: Tree, src: Path)
    requires CleanBundle(t0, src)
    ensures CleanPart(WholePart(t0, src))
  {
    forall r: Path, i | WholePart(t0, src)(r).Some? && 0 <= i < |r| ensures CleanName(r[i]) {
      CleanBelow(t0, src, r);
    }
  }

  /** `countFiles`. */
  method CountFiles(fs: FileSystem, p: Path) returns (count: nat)
    requires FileTree.WellFormed(fs.nodes) && p in fs.nodes
    ensures count == |FilesUnder(fs.nodes, p)|
  {
    if fs.nodes[p] == Dir {
      var files := WalkFiles(fs.nodes, p);
      DistinctCardinality(files);
      count := |files|;
    } else {
      FileHasNothingBelow(fs.nodes, p);
      count := 1;
    }
  }

  method CopyLicenseSection(fs: FileSystem, ghost t0: Tree, c: Config, bundle: Path, ghost parts: Parts)
    returns (section: Section)
    requires c.license.Some? ==> CleanBundle(t0, c.root + c.license.value) && !Overlap(c.root + c.license.value, bundle)
    requires Filled(t0, fs.nodes, bundle, parts) && "license" !in parts
    modifies fs
    ensures !HasLicense(t0, c) ==> fs.nodes == old(fs.nodes)
    ensures HasLicense(t0, c) ==> Filled(t0, fs.nodes, bundle, parts["license" := LicensePart(t0, c)])
    ensures section == if HasLicense(t0, c) then LicenseSection(c, true, |FilesUnder(fs.nodes, bundle + ["license"])|)
                       else LicenseSection(c, false, 0)
  {
    section := LicenseSection(c, false, 0);
    SameLicense(t0, fs.nodes, c, bundle);
    if !HasLicense(fs.nodes, c) {
      return;
    }
    NamesAreClean();
    var count := CopyWhole(fs, t0, c.root + c.license.value, bundle, parts, "license");
    section := LicenseSection(c, true, count);
  }

  lemma SameLicense(t0: Tree, u: Tree, c: Config, bundle: Path)
    requires Outside(t0, u, bundle) && (c.license.Some? ==> !Overlap(c.root + c.license.value, bundle))
    ensures HasLicense(u, c) == HasLicense(t0, c)
  {
    if c.license.Some? {
      SourceUnchanged(t0, u, bundle, c.root + c.license.value);
    }
  }

  method CopyWhole(fs: FileSystem, ghost t0: Tree, src: Path, bundle: Path, ghost parts: Parts, n: string)
    returns (count: nat)
    requires Filled(t0, fs.nodes, bundle, parts) && n !in parts && src in t0 && !Overlap(src, bundle)
    requires CleanBundle(t0, src) && CleanName(n)
    modifies fs
    ensures Filled(t0, fs.nodes, bundle, parts[n := WholePart(t0, src)])
    ensures count == |FilesUnder(fs.nodes, bundle + [n])|
  {
    ghost var u := fs.nodes;
    CopyGoesThrough(t0, u, src, bundle, parts.Keys, n, bundle + [n]);
    var ok := fs.Copy(src, bundle + [n]);
    CopiedIntoStage(t0, u, fs.nodes, src, bundle, parts.Keys, n, bundle + [n]);
    WholeStored(t0, u, fs.nodes, src, bundle, n);
    WholePartIsClean(t0, src);
    Advance(t0, u, fs.nodes, bundle, parts, n, WholePart(t0, src));
    WholeIsThere(t0, src, fs.nodes, bundle + [n]);
    count := CountFiles(fs, bundle + [n]);
  }

  lemma WholeIsThere(t0: Tree, src: Path, v: Tree, dst: Path)
    requires src in t0 && Holds(v, dst, WholePart(t0, src))
    ensures Get(v, dst) == Get(t0, src)
  {
    assert dst + [] == dst && src + [] == src;
    assert Get(v, dst + []) == WholePart(t0, src)([]);
  }

  // ---------------------------------------------------------------- the log section

  function Relatives(dir: Path, files: seq<Path>): seq<Path>
    requires forall k :: 0 <= k < |files| ==> dir <= files[k]
  {
    seq(|files|, k requires 0 <= k < |files| => files[k][|dir|..])
  }

  /** Sorting by age and slicing selects the newest. */
  lemma NewestFirst(t0: Tree, dir: Path, mtime: Path -> int, max: int, files: seq<Path>)
    requires IsDir(t0, dir) && Distinct(files) && Elements(files) == FilesUnder(t0, dir)
    ensures forall k :: 0 <= k < |SliceTo(SortDescending(mtime, files), max)| ==>
              dir <= SliceTo(SortDescending(mtime, files), max)[k]
    ensures Newest(t0, dir, mtime, max, Relatives(dir, SliceTo(SortDescending(mtime, files), max)))
  {
    var sorted := SortDescending(mtime, files);
    SortedIsDistinct(mtime, files);
    SortMeaning(mtime, files);
    DistinctCardinality(files);
    NewestOfSorted(t0, dir, mtime, max, sorted);
  }

  lemma NewestOfSorted(t0: Tree, dir: Path, mtime: Path -> int, max: int, sorted: seq<Path>)
    requires IsDir(t0, dir) && Distinct(sorted) && Elements(sorted) == FilesUnder(t0, dir) && Descending(mtime, sorted)
    ensures forall k :: 0 <= k < |SliceTo(sorted, max)| ==> dir <= SliceTo(sorted, max)[k]
    ensures Newest(t0, dir, mtime, max, Relatives(dir, SliceTo(sorted, max)))
  {
    var chosen := SliceTo(sorted, max);
    DistinctCardinality(sorted);
    forall k | 0 <= k < |sorted|
      ensures sorted[k] in FilesUnder(t0, dir) && |sorted[k]| > |dir| && dir + sorted[k][|dir|..] == sorted[k]
    {
      var p := sorted[k];
      assert p in Elements(sorted);
      Beneath(dir, p);
      assert |p| == |dir| ==> p == dir;
    }
    var rels := Relatives(dir, chosen);
    assert forall k :: 0 <= k < |chosen| ==> chosen[k] == sorted[k] && dir + rels[k] == sorted[k];
    forall q, k | q in FilesUnder(t0, dir) && 0 <= k < |rels|
      ensures q[|dir|..] in rels || mtime(q) <= mtime(dir + rels[k])
    {
      assert q in Elements(sorted);
      var j :| 0 <= j < |sorted| && sorted[j] == q;
      if j < |rels| { assert rels[j] == q[|dir|..]; }
    }
  }

  lemma SelectionStored(t0: Tree, u: Tree, v: Tree, src: Path, selected: seq<Path>, bundle: Path, n: string)
    requires Outside(t0, u, bundle) && !Overlap(src, bundle) && FileTree.WellFormed(v)
    requires SelectedAt(u, src, selected, bundle + [n], v)
    ensures Stored(u, v, bundle, n, SelectedPart(t0, src, selected))
  {
    var dst := bundle + [n];
    SourceUnchanged(t0, u, bundle, src);
    forall r ensures Get(v, dst + r) == SelectedPart(t0, src, selected)(r) {
      BeneathOf(dst, r);
      assert dst + r == dst <==> r == [];
    }
  }

  lemma SelectedPartIsClean(t0: Tree, src: Path, selected: seq<Path>)
    requires CleanBundle(t0, src)
    ensures CleanPart(SelectedPart(t0, src, selected))
  {
    forall r: Path, i | SelectedPart(t0, src, selected)(r).Some? && 0 <= i < |r| ensures CleanName(r[i]) {
      CleanBelow(t0, src, r);
    }
  }

  lemma SelectedAreThere(t0: Tree, u: Tree, src: Path, selected: seq<Path>)
    requires forall r :: Get(u, src + r) == Get(t0, src + r)
    requires forall k :: 0 <= k < |selected| ==> IsFile(t0, src + selected[k])
    ensures forall k :: 0 <= k < |selected| ==> IsFile(u, src + selected[k])
  {
    forall k | 0 <= k < |selected| ensures IsFile(u, src + selected[k]) {
      assert Get(u, src + selected[k]) == Get(t0, src + selected[k]);
    }
  }

  method CopyNewest(fs: FileSystem, ghost t0: Tree, src: Path, bundle: Path, ghost parts: Parts, n: string,
                    mtime: Path -> int, max: int)
    returns (selected: seq<Path>)
    requires FileTree.WellFormed(t0) && CleanBundle(t0, src) && !Overlap(src, bundle) && IsDir(t0, src)
    requires Filled(t0, fs.nodes, bundle, parts) && n !in parts && CleanName(n)
    modifies fs
    ensures Filled(t0, fs.nodes, bundle, parts[n := SelectedPart(t0, src, selected)])
    ensures Newest(t0, src, mtime, max, selected)
  {
    ghost var u := fs.nodes;
    StageIsReady(t0, u, bundle, parts.Keys, n, src);
    SourceUnchanged(t0, u, bundle, src);
    SameFiles(t0, u, src);
    var files := WalkFiles(fs.nodes, src);
    NewestFirst(t0, src, mtime, max, files);
    selected := Relatives(src, SliceTo(SortDescending(mtime, files), max));
    SelectedAreThere(t0, u, src, selected);
    var ok := CopySelectedFiles(fs, src, bundle + [n], selected);
    SelectionStored(t0, u, fs.nodes, src, selected, bundle, n);
    SelectedPartIsClean(t0, src, selected);
    Advance(t0, u, fs.nodes, bundle, parts, n, SelectedPart(t0, src, selected));
  }

  lemma SameFiles(t: Tree, u: Tree, dir: Path)
    requires forall r :: Get(u, dir + r) == Get(t, dir + r)
    ensures FilesUnder(u, dir) == FilesUnder(t, dir)
  {
    forall q | dir <= q ensures q in FilesUnder(u, dir) <==> q in FilesUnder(t, dir) {
      Beneath(dir, q);
      assert Get(u, dir + q[|dir|..]) == Get(t, dir + q[|dir|..]);
    }
  }

  method CopyLogSection(fs: FileSystem, ghost t0: Tree, c: Config, bundle: Path, ghost parts: Parts, includeLogs: bool,
                        mtime: Path -> int, max: int)
    returns (section: Section, selected: seq<Path>, ok: bool)
    requires FileTree.WellFormed(t0) && CleanBundle(t0, LogDir(c)) && !Overlap(LogDir(c), bundle)
    requires Filled(t0, fs.nodes, bundle, parts) && "logs" !in parts
    modifies fs
    ensures ok <==> (TakesLogs(t0, c, includeLogs) ==> IsDir(t0, LogDir(c)))
    ensures ok && !TakesLogs(t0, c, includeLogs) ==> fs.nodes == old(fs.nodes) && selected == []
    ensures ok && TakesLogs(t0, c, includeLogs) ==>
              && Filled(t0, fs.nodes, bundle, parts["logs" := SelectedPart(t0, LogDir(c), selected)])
              && Newest(t0, LogDir(c), mtime, max, selected)
    ensures ok ==> section == LogSection(c, selected != [], |selected|)
  {
    section, selected, ok := LogSection(c, false, 0), [], true;
    SourceUnchanged(t0, fs.nodes, bundle, LogDir(c));
    if !includeLogs || LogDir(c) !in fs.nodes {
      return;
    }
    if fs.nodes[LogDir(c)] != Dir {
      ok := false;
      return;
    }
    NamesAreClean();
    selected := CopyNewest(fs, t0, LogDir(c), bundle, parts, "logs", mtime, max);
    section := LogSection(c, |selected| > 0, |selected|);
  }

  // ---------------------------------------------------------------- the whole bundle

  datatype Options = Options(id: string, createdAt: int, mode: Mode, includeLogs: bool, maxLogFiles: int)

  function ManifestOf(o: Options, version: string, sections: seq<Section>): Manifest {
    Manifest(o.id, o.createdAt, o.mode, version, version,
             exists i :: 0 <= i < |sections| && sections[i].name == Logs && sections[i].included,
             o.maxLogFiles, sections)
  }

  /** The manifest says what was asked for, which version made it, and whether logs were captured. */
  ghost predicate Describes(m: Manifest, o: Options, version: string, logs: bool) {
    && m.restorePointId == o.id && m.createdAt == o.createdAt && m.backupMode == o.mode
    && m.appVersion == m.requiredVersion == version
    && (m.logsIncluded <==> logs) && m.maxLogFiles == o.maxLogFiles
  }

  /** Every section says how many files it has in the bundle. */
  ghost predicate Counted(u: Tree, bundle: Path, sections: seq<Section>, selected: seq<Path>) {
    && |sections| == 4
    && sections[0].fileCount == |FilesUnder(u, bundle + ["adapter"])|
    && sections[2].fileCount == (if sections[2].included then |FilesUnder(u, bundle + ["license"])| else 0)
    && sections[3].fileCount == |selected|
  }

  /** What a finished bundle is: every section as it was, the manifest that describes them, a list of
      checksums that passes, and nothing else; outside the bundle nothing changed. */
  ghost predicate Captured(t0: Tree, u: Tree, c: Config, bundle: Path, sha: Sha, o: Options, version: string,
                           m: Manifest, selected: seq<Path>)
  {
    && CleanBundle(u, bundle) && IsFile(u, bundle + [CHECKSUMS])
    && Filled(t0, u, bundle, AllParts(t0, c, o.includeLogs, selected, m, u[bundle + [CHECKSUMS]].content))
    && Describes(m, o, version, selected != []) && SectionsFor(c, m.sections, HasLicense(t0, c), selected != [])
    && Counted(u, bundle, m.sections, selected) && ChecksumsPass(u, bundle, sha)
  }

  /** The selection `createBackup` makes. */
  ghost predicate LogsChosen(t0: Tree, c: Config, o: Options, mtime: Path -> int, selected: seq<Path>) {
    if TakesLogs(t0, c, o.includeLogs) then Newest(t0, LogDir(c), mtime, o.maxLogFiles, selected) else selected == []
  }

  /** Nothing stands in the way of a backup. */
  ghost predicate Creatable(t0: Tree, c: Config, bundle: Path, o: Options, version: Option<string>) {
    && EnvFile(c) in t0 && IsDir(t0, DataDir(c)) && Openable(t0, bundle)
    && (TakesLogs(t0, c, o.includeLogs) ==> IsDir(t0, LogDir(c)))
    && version.Some? && version.value != ""
  }

  datatype CreateError = MissingEnv | MissingData | DataIsFile | BundleBlocked | LogsAreFile | MissingVersion

  lemma EmptyBundle(t0: Tree, bundle: Path, u: Tree)
    requires FileTree.WellFormed(t0) && NothingAt(t0, bundle) && DirEnsured(t0, bundle, u)
    ensures Filled(t0, u, bundle, NoParts())
  {
    assert Get(u, bundle) == Some(Dir);
    forall n: string ensures NothingAt(u, bundle + [n]) {
      forall q | q in u ensures !(bundle + [n] <= q) {
        PrefixChain(bundle, bundle + [n], q);
        assert Get(u, q) == if q <= bundle then Some(Dir) else Get(t0, q);
      }
    }
  }

  lemma FilePartHolds(u: Tree, f: Path, c: Content)
    requires FileTree.WellFormed(u) && Get(u, f) == Some(File(c))
    ensures Holds(u, f, FilePart(c))
  {
    FileHasNothingBelow(u, f);
    forall r ensures Get(u, f + r) == FilePart(c)(r) {
      BeneathOf(f, r);
      assert f + r == f <==> r == [];
    }
  }

  /** A new file directly in the bundle. */
  lemma FileAdvances(t0: Tree, u: Tree, v: Tree, bundle: Path, parts: Parts, n: string, c: Content)
    requires Filled(t0, u, bundle, parts) && CleanName(n) && FileTree.WellFormed(v)
    requires Get(v, bundle + [n]) == Some(File(c)) && forall q :: q != bundle + [n] ==> Get(v, q) == Get(u, q)
    ensures Filled(t0, v, bundle, parts[n := FilePart(c)])
  {
    FilePartHolds(v, bundle + [n], c);
    Advance(t0, u, v, bundle, parts, n, FilePart(c));
  }

  lemma FileCanBeWritten(t0: Tree, u: Tree, bundle: Path, parts: Parts, n: string, c: Content)
    requires Filled(t0, u, bundle, parts) && n !in parts
    ensures WriteFile(u, bundle + [n], c) == Some(u[bundle + [n] := File(c)])
    ensures FileTree.WellFormed(u[bundle + [n] := File(c)])
    ensures !IsDir(u, bundle + [n])
  {
    var f := bundle + [n];
    UnusedIsFree(t0, u, bundle, parts.Keys, n);
    assert Parent(f) == bundle && f !in u;
    FileReplacesNothing(u, u[f := File(c)], f, c);
  }

  lemma StageIsClean(t0: Tree, u: Tree, bundle: Path, used: set<string>)
    requires Stage(t0, u, bundle, used)
    ensures CleanBundle(u, bundle)
  {
    forall q, i | q in u && bundle <= q && |bundle| <= i < |q| ensures CleanName(q[i]) {
      CleanThere(t0, u, bundle, used, q[|bundle|], q);
      if i > |bundle| { assert |bundle + [q[|bundle|]]| <= i; }
    }
  }

  lemma CleanThere(t0: Tree, u: Tree, bundle: Path, used: set<string>, n: string, q: Path)
    requires Stage(t0, u, bundle, used) && q in u && bundle <= q && |q| > |bundle| && q[|bundle|] == n
    ensures CleanName(n) && CleanBundle(u, bundle + [n]) && bundle + [n] <= q
  {
    assert bundle + [n] <= q;
    assert n !in used ==> NothingAt(u, bundle + [n]);
  }

  lemma AssembledSections(c: Config, adapter: Section, config: Section, license: Section, logs: Section,
                          hasLicense: bool, hasLogs: bool)
    requires adapter == AdapterSection(c, adapter.fileCount) && config == ConfigSection() && adapter.fileCount >= 0
    requires license == LicenseSection(c, hasLicense, license.fileCount) && license.fileCount >= 0
    requires logs == LogSection(c, hasLogs, logs.fileCount) && logs.fileCount >= 0
    ensures SectionsFor(c, [adapter, config, license, logs], hasLicense, hasLogs)
  {}

  lemma SectionPartNames(t0: Tree, c: Config, logs: bool, selected: seq<Path>)
    ensures var parts := SectionParts(t0, c, logs, selected);
            && "adapter" in parts && parts["adapter"] == AdapterPart(t0, c)
            && "config" in parts && parts["config"] == ConfigPart(t0, c)
            && (HasLicense(t0, c) ==> "license" in parts && parts["license"] == LicensePart(t0, c))
            && (TakesLogs(t0, c, logs) ==> "logs" in parts && parts["logs"] == SelectedPart(t0, LogDir(c), selected))
  {
    assert "adapter"[0] != "license"[0] && |"adapter"| == |"license"| == 7 && |"config"| == 6 && |"logs"| == 4;
  }

  lemma MetadataKeepsPart(parts: Parts, n: string, manifest: Part, list: Part)
    requires n in parts && |n| <= 7
    ensures n in parts[MANIFEST := manifest][CHECKSUMS := list]
    ensures parts[MANIFEST := manifest][CHECKSUMS := list][n] == parts[n]
  {
    assert |MANIFEST| == 13 && |CHECKSUMS| == 13;
  }

  lemma PartNames(t0: Tree, c: Config, logs: bool, selected: seq<Path>, m: Manifest, list: Content)
    ensures var parts := AllParts(t0, c, logs, selected, m, list);
            && "adapter" in parts && parts["adapter"] == AdapterPart(t0, c)
            && "config" in parts && parts["config"] == ConfigPart(t0, c)
            && (HasLicense(t0, c) ==> "license" in parts && parts["license"] == LicensePart(t0, c))
            && (TakesLogs(t0, c, logs) ==> "logs" in parts && parts["logs"] == SelectedPart(t0, LogDir(c), selected))
            && MANIFEST in parts && parts[MANIFEST] == FilePart(ManifestJson(m))
  {
    var parts, manifest, sums := SectionParts(t0, c, logs, selected), FilePart(ManifestJson(m)), FilePart(list);
    SectionPartNames(t0, c, logs, selected);
    MetadataKeepsPart(parts, "adapter", manifest, sums);
    MetadataKeepsPart(parts, "config", manifest, sums);
    if HasLicense(t0, c) { MetadataKeepsPart(parts, "license", manifest, sums); }
    if TakesLogs(t0, c, logs) { MetadataKeepsPart(parts, "logs", manifest, sums); }
    MetadataNames();
  }

  method CopySections(fs: FileSystem, ghost t0: Tree, c: Config, bundle: Path, o: Options, mtime: Path -> int)
    returns (sections: seq<Section>, selected: seq<Path>, ok: bool)
    requires CreateReady(t0, c, bundle) && Filled(t0, fs.nodes, bundle, NoParts()) && EnvFile(c) in t0
    requires IsDir(t0, DataDir(c))
    modifies fs
    ensures ok <==> (TakesLogs(t0, c, o.includeLogs) ==> IsDir(t0, LogDir(c)))
    ensures ok ==> SectionsFor(c, sections, HasLicense(t0, c), selected != []) && LogsChosen(t0, c, o, mtime, selected)
    ensures ok ==> Filled(t0, fs.nodes, bundle, SectionParts(t0, c, o.includeLogs, selected))
    ensures ok ==> Counted(fs.nodes, bundle, sections, selected)
  {
    UnusedNames(t0, c);
    var adapter := CopyAdapterSection(fs, t0, c, bundle);
    ghost var u := fs.nodes;
    var config := CopyConfigSection(fs, t0, c, bundle, AdapterOnly(t0, c));
    var license := CopyLicenseSection(fs, t0, c, bundle, RequiredParts(t0, c));
    ghost var v := fs.nodes;
    var logs;
    logs, selected, ok := CopyLogSection(fs, t0, c, bundle, WithLicense(t0, c), o.includeLogs, mtime, o.maxLogFiles);
    sections := [adapter, config, license, logs];
    if ok {
      AssembledSections(c, adapter, config, license, logs, HasLicense(t0, c), selected != []);
      CountsStay(t0, u, v, fs.nodes, c, bundle, o.includeLogs, selected);
      AllCounted(fs.nodes, bundle, adapter, config, license, logs, selected);
    }
  }

  lemma SameCount(u: Tree, v: Tree, place: Path, part: Part)
    requires Holds(u, place, part) && Holds(v, place, part)
    ensures |FilesUnder(v, place)| == |FilesUnder(u, place)|
  {
    forall r ensures Get(v, place + r) == Get(u, place + r) {
      assert Get(v, place + r) == part(r) == Get(u, place + r);
    }
    SameFiles(u, v, place);
  }

  lemma PartStays(t0: Tree, u: Tree, before: Parts, v: Tree, after: Parts, bundle: Path, n: string)
    requires Filled(t0, u, bundle, before) && Filled(t0, v, bundle, after)
    requires n in before && n in after && before[n] == after[n]
    ensures |FilesUnder(v, bundle + [n])| == |FilesUnder(u, bundle + [n])|
  {
    SameCount(u, v, bundle + [n], before[n]);
  }

  lemma AllCounted(w: Tree, bundle: Path, adapter: Section, config: Section, license: Section, logs: Section,
                   selected: seq<Path>)
    requires adapter.fileCount == |FilesUnder(w, bundle + ["adapter"])| && logs.fileCount == |selected|
    requires license.fileCount == if license.included then |FilesUnder(w, bundle + ["license"])| else 0
    ensures Counted(w, bundle, [adapter, config, license, logs], selected)
  {}

  /** Later sections leave the files of the earlier ones. */
  lemma CountsStay(t0: Tree, u: Tree, v: Tree, w: Tree, c: Config, bundle: Path, includeLogs: bool,
                   selected: seq<Path>)
    requires Filled(t0, u, bundle, AdapterOnly(t0, c)) && Filled(t0, v, bundle, WithLicense(t0, c))
    requires Filled(t0, w, bundle, SectionParts(t0, c, includeLogs, selected))
    ensures |FilesUnder(w, bundle + ["adapter"])| == |FilesUnder(u, bundle + ["adapter"])|
    ensures HasLicense(t0, c) ==> |FilesUnder(w, bundle + ["license"])| == |FilesUnder(v, bundle + ["license"])|
  {
    var parts := SectionParts(t0, c, includeLogs, selected);
    SectionPartNames(t0, c, includeLogs, selected);
    PartStays(t0, u, AdapterOnly(t0, c), w, parts, bundle, "adapter");
    if HasLicense(t0, c) {
      PartStays(t0, v, WithLicense(t0, c), w, parts, bundle, "license");
    }
  }

  /** `createBackup`. It goes through exactly when nothing stands in the way; a missing `.env` or data
      directory is noticed before anything is written. */
  method CreateBackup(fs: FileSystem, c: Config, bundle: Path, o: Options, mtime: Path -> int, version: Option<string>,
                      sha: Sha)
    returns (r: Result<Manifest, CreateError>, selected: seq<Path>)
    requires CreateReady(fs.nodes, c, bundle) && HashTexts(sha)
    modifies fs
    ensures r.Ok? <==> Creatable(old(fs.nodes), c, bundle, o, version)
    ensures EnvFile(c) !in old(fs.nodes) ==> r == Err(MissingEnv) && fs.nodes == old(fs.nodes)
    ensures EnvFile(c) in old(fs.nodes) && DataDir(c) !in old(fs.nodes) ==>
              r == Err(MissingData) && fs.nodes == old(fs.nodes)
    ensures r.Ok? ==> Captured(old(fs.nodes), fs.nodes, c, bundle, sha, o, version.value, r.value, selected)
    ensures r.Ok? ==> LogsChosen(old(fs.nodes), c, o, mtime, selected)
  {
    ghost var t0 := fs.nodes;
    selected := [];
    if EnvFile(c) !in fs.nodes {
      return Err(MissingEnv), [];
    }
    if DataDir(c) !in fs.nodes {
      return Err(MissingData), [];
    }
    EnsureDirMeaning(t0, bundle);
    var ok := fs.MakeDir(bundle);
    if !ok {
      return Err(BundleBlocked), [];
    }
    EmptyBundle(t0, bundle, fs.nodes);
    SourceUnchanged(t0, fs.nodes, bundle, DataDir(c));
    if fs.nodes[DataDir(c)] != Dir {
      return Err(DataIsFile), [];
    }
    var sections;
    sections, selected, ok := CopySections(fs, t0, c, bundle, o, mtime);
    if !ok {
      return Err(LogsAreFile), [];
    }
    if version.None? || version.value == "" {
      return Err(MissingVersion), [];
    }
    var m := ManifestOf(o, version.value, sections);
    LogsAreNoted(c, sections, HasLicense(t0, c), selected != []);
    SectionNames(t0, c, o.includeLogs, selected);
    ghost var u := fs.nodes;
    WriteMetadata(fs, t0, bundle, SectionParts(t0, c, o.includeLogs, selected), m, sha);
    MetadataLeavesCounts(t0, u, fs.nodes, c, bundle, o.includeLogs, selected, m);
    r := Ok(m);
  }

  lemma MetadataLeavesCounts(t0: Tree, u: Tree, v: Tree, c: Config, bundle: Path, includeLogs: bool,
                             selected: seq<Path>, m: Manifest)
    requires Filled(t0, u, bundle, SectionParts(t0, c, includeLogs, selected)) && IsFile(v, bundle + [CHECKSUMS])
    requires Filled(t0, v, bundle, AllParts(t0, c, includeLogs, selected, m, v[bundle + [CHECKSUMS]].content))
    requires m.sections != [] && SectionsFor(c, m.sections, HasLicense(t0, c), selected != [])
    requires Counted(u, bundle, m.sections, selected)
    ensures Counted(v, bundle, m.sections, selected)
  {
    var parts := SectionParts(t0, c, includeLogs, selected);
    var all := AllParts(t0, c, includeLogs, selected, m, v[bundle + [CHECKSUMS]].content);
    SectionPartNames(t0, c, includeLogs, selected);
    PartNames(t0, c, includeLogs, selected, m, v[bundle + [CHECKSUMS]].content);
    PartStays(t0, u, parts, v, all, bundle, "adapter");
    if HasLicense(t0, c) {
      PartStays(t0, u, parts, v, all, bundle, "license");
    }
  }

  lemma LogsAreNoted(c: Config, sections: seq<Section>, license: bool, logs: bool)
    requires SectionsFor(c, sections, license, logs)
    ensures (exists i :: 0 <= i < |sections| && sections[i].name == Logs && sections[i].included) <==> logs
  {
    assert sections[3].name == Logs && sections[0].name == Adapter;
  }

  /** The manifest and the checksum list are not section names. */
  lemma SectionNames(t0: Tree, c: Config, includeLogs: bool, selected: seq<Path>)
    ensures MANIFEST !in SectionParts(t0, c, includeLogs, selected)
    ensures CHECKSUMS !in SectionParts(t0, c, includeLogs, selected)
  {
    assert |MANIFEST| == 13 && |CHECKSUMS| == 13;
    assert SectionParts(t0, c, includeLogs, selected).Keys <= {"adapter", "config", "license", "logs"};
  }

  method WriteMetadata(fs: FileSystem, ghost t0: Tree, bundle: Path, ghost parts: Parts, m: Manifest, sha: Sha)
    requires HashTexts(sha) && Filled(t0, fs.nodes, bundle, parts) && MANIFEST !in parts && CHECKSUMS !in parts
    modifies fs
    ensures CleanBundle(fs.nodes, bundle) && ChecksumsPass(fs.nodes, bundle, sha)
    ensures IsFile(fs.nodes, bundle + [CHECKSUMS])
    ensures var sums := FilePart(fs.nodes[bundle + [CHECKSUMS]].content);
            Filled(t0, fs.nodes, bundle, parts[MANIFEST := FilePart(ManifestJson(m))][CHECKSUMS := sums])
  {
    MetadataNames();
    FileCanBeWritten(t0, fs.nodes, bundle, parts, MANIFEST, ManifestJson(m));
    ghost var u, more := fs.nodes, parts[MANIFEST := FilePart(ManifestJson(m))];
    var ok := fs.Write(bundle + [MANIFEST], ManifestJson(m));
    FileAdvances(t0, u, fs.nodes, bundle, parts, MANIFEST, ManifestJson(m));
    StageIsClean(t0, fs.nodes, bundle, more.Keys);
    FileCanBeWritten(t0, fs.nodes, bundle, more, CHECKSUMS, ManifestJson(m));
    ghost var v := fs.nodes;
    ok := WriteBundleChecksums(fs, bundle, sha);
    FileAdvances(t0, v, fs.nodes, bundle, more, CHECKSUMS, fs.nodes[bundle + [CHECKSUMS]].content);
    StageIsClean(t0, fs.nodes, bundle, more.Keys + {CHECKSUMS});
  }
}
