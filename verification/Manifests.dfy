/** The manifest of a backup bundle (src/ops/backup/backup-manifest.ts). Paths are sequences of names. */
module Manifests {
  import opened Common

  type Path = seq<string>

  datatype Mode = Nightly | PreUpdate

  datatype SectionName = Adapter | Config | License | Logs

  datatype Section = Section(
    name: SectionName,
    sourcePath: Path,
    bundlePath: Path,
    restorePath: Path,
    optional: bool,
    included: bool,
    fileCount: int)

  /** `createdAt` is an ISO timestamp; only its order matters. */
  datatype Manifest = Manifest(
    restorePointId: string,
    createdAt: int,
    backupMode: Mode,
    appVersion: string,
    requiredVersion: string,
    logsIncluded: bool,
    maxLogFiles: int,
    sections: seq<Section>)

  /** A file holds either a serialised manifest or other text. */
  datatype Content = Text(text: string) | ManifestJson(manifest: Manifest)

  /** The checks of `parseManifest` that a typed value can still fail. */
  predicate WellTyped(m: Manifest) {
    && m.restorePointId != "" && m.appVersion != "" && m.requiredVersion != ""
    && m.maxLogFiles >= 0 && |m.sections| >= 2
    && forall i :: 0 <= i < |m.sections| ==> m.sections[i].bundlePath != [] && m.sections[i].fileCount >= 0
  }

  /** `sections.find(section => section.name === name)`. */
  function FindSection(sections: seq<Section>, name: SectionName): Option<Section> {
    if sections == [] then None
    else if sections[0].name == name then Some(sections[0])
    else FindSection(sections[1..], name)
  }
}
