/** Backup archives: manifests, control records, and the reader that inspects an archive. */
module BackupArchive {
  import opened Wrappers
  import opened StringOrder
  import opened Selection
  import Sorting
  import Listing

  type Bytes = seq<int>

  datatype File = File(name: string, content: Bytes)

  datatype Descriptor = Descriptor(path: string, sha256: string, bytes: nat)

  datatype SourceMode = Included | InventoryOnly

  datatype Item = Item(
    paperId: string,
    assetId: Option<string>,
    role: string,
    rootId: string,
    relativePath: string,
    sha256: string,
    availability: string,
    archivePath: Option<string>)

  datatype Manifest = Manifest(
    format: string,
    profileId: string,
    workspaceId: string,
    mode: SourceMode,
    entries: seq<Descriptor>,
    inventory: seq<Item>,
    rest: string)

  /** The portable workspace configuration: its identity and its declared source roots. */
  datatype Config = Config(workspaceId: string, roots: seq<string>, rest: string)

  /** Digest, serialisation and validation, which are not part of this model. Readers refuse non-canonical text. */
  datatype Codec = Codec(
    sha: Bytes -> string,
    writeManifest: Manifest -> Bytes,
    readManifest: Bytes -> Option<Manifest>,
    manifestOk: Manifest -> bool,
    writeConfig: Config -> Bytes,
    readConfig: Bytes -> Option<Config>,
    configOk: Config -> bool,
    profileOk: Bytes -> bool,
    casefold: string -> string)

  ghost predicate RoundTrips(codec: Codec) {
    && (forall m: Manifest :: codec.readManifest(codec.writeManifest(m)) == Some(m))
    && (forall c: Config :: codec.readConfig(codec.writeConfig(c)) == Some(c))
  }

  /** Case folding neither makes nor removes path separators. */
  ghost predicate FoldKeepsSlashes(codec: Codec) {
    forall s: string :: '/' in codec.casefold(s) <==> '/' in s
  }

  datatype Reader = Reader(
    profileId: string,
    archiveBytes: seq<File> -> nat,
    safeName: string -> bool,
    maxArchiveBytes: nat,
    maxEntries: nat,
    maxEntryBytes: nat,
    maxTotalBytes: nat,
    maxControlBytes: nat)

  const ManifestName := "manifest.json"
  const ConfigName := "config/workspace.json"
  const ProfileName := "config/domain-profile.json"
  const Format := "research-kb-backup@1.0"

  datatype InspectError =
    | ArchiveSize | EntryCount | UnsafeName | NotCanonical | EntryTooLarge | TotalTooLarge | ControlTooLarge
    | ManifestInvalid | UnsupportedFormat | InventoryMismatch | UnlistedPayload | ConfigInvalid | ProfileInvalid
    | IdentityDiffers | InventoryOrder | UndeclaredRoot | BoundSource | UnboundSource | SourceMismatch | SourcesDiffer

  predicate StartsWith(s: string, prefix: string) { |s| >= |prefix| && s[..|prefix|] == prefix }

  predicate IsControl(name: string) { name == ManifestName || StartsWith(name, "config/") }

  // ----- Names and sizes -----

  function NamesOf(files: seq<File>): seq<string> {
    seq(|files|, i requires 0 <= i < |files| => files[i].name)
  }

  predicate Distinct(names: seq<string>) { forall i, j :: 0 <= i < j < |names| ==> names[i] != names[j] }

  predicate CollisionFree(names: seq<string>, codec: Codec) {
    Distinct(names) && forall i, j :: 0 <= i < j < |names| ==> codec.casefold(names[i]) != codec.casefold(names[j])
  }

  predicate CanonicalNames(names: seq<string>, codec: Codec) { Sorting.IsSorted(names, Leq) && CollisionFree(names, codec) }

  function TotalBytes(files: seq<File>, n: nat): nat
    requires n <= |files|
  {
    if n == 0 then 0 else TotalBytes(files, n - 1) + |files[n - 1].content|
  }

  /** The first file that breaks a size limit, in archive order. */
  function SizeFault(files: seq<File>, n: nat, reader: Reader): Option<InspectError>
    requires n <= |files|
  {
    if n == 0 then None
    else
      var before := SizeFault(files, n - 1, reader);
      if before.Some? then before
      else if |files[n - 1].content| > reader.maxEntryBytes then Some(EntryTooLarge)
      else if TotalBytes(files, n) > reader.maxTotalBytes then Some(TotalTooLarge)
      else if IsControl(files[n - 1].name) && |files[n - 1].content| > reader.maxControlBytes then Some(ControlTooLarge)
      else None
  }

  predicate WithinLimits(files: seq<File>, reader: Reader) {
    && 0 < reader.archiveBytes(files) <= reader.maxArchiveBytes
    && 0 < |files| <= reader.maxEntries
    && (forall i :: 0 <= i < |files| ==> |files[i].content| <= reader.maxEntryBytes)
    && (forall i :: 0 <= i < |files| && IsControl(files[i].name) ==> |files[i].content| <= reader.maxControlBytes)
    && TotalBytes(files, |files|) <= reader.maxTotalBytes
  }

  lemma {:induction false} TotalGrows(files: seq<File>, n: nat, m: nat)
    requires n <= m <= |files|
    ensures TotalBytes(files, n) <= TotalBytes(files, m)
    decreases m
  {
    if n < m {
      TotalGrows(files, n, m - 1);
    }
  }

  lemma {:induction false} SizesFit(files: seq<File>, n: nat, reader: Reader)
    requires n <= |files| && WithinLimits(files, reader)
    ensures SizeFault(files, n, reader).None?
  {
    if n > 0 {
      SizesFit(files, n - 1, reader);
      TotalGrows(files, n, |files|);
    }
  }

  // ----- Contents -----

  function Lookup(files: seq<File>, name: string): Option<Bytes> {
    if files == [] then None
    else if files[0].name == name then Some(files[0].content)
    else Lookup(files[1..], name)
  }

  function Describe(f: File, codec: Codec): Descriptor { Descriptor(f.name, codec.sha(f.content), |f.content|) }

  function DescribeAll(files: seq<File>, codec: Codec): seq<Descriptor> {
    seq(|files|, i requires 0 <= i < |files| => Describe(files[i], codec))
  }

  /** The inventory of everything but the manifest. */
  function ActualPayload(entries: seq<Descriptor>): seq<Descriptor> {
    if entries != [] && entries[0].path == ManifestName then entries[1..]
    else Filter(entries, (d: Descriptor) => d.path != ManifestName)
  }

  function PathsOf(entries: seq<Descriptor>): set<string> { set d | d in entries :: d.path }

  // ----- Source inventory -----

  function OrEmpty(id: Option<string>): string { if id.Some? then id.value else "" }

  predicate ItemLeq(a: Item, b: Item) {
    if a.paperId != b.paperId then Leq(a.paperId, b.paperId)
    else if a.role != b.role then Leq(a.role, b.role)
    else Leq(OrEmpty(a.assetId), OrEmpty(b.assetId))
  }

  function ArchivePath(rootId: string, relativePath: string): string { "sources/" + rootId + "/" + relativePath }

  /** The digest recorded under a path, if the path is recorded. */
  function DigestAt(entries: seq<Descriptor>, path: string): Option<string> {
    if entries == [] then None
    else
      var last := entries[|entries| - 1];
      if last.path == path then Some(last.sha256) else DigestAt(entries[..|entries| - 1], path)
  }

  function ItemFault(item: Item, mode: SourceMode, roots: seq<string>, payload: seq<Descriptor>): Option<InspectError> {
    var path := ArchivePath(item.rootId, item.relativePath);
    if item.rootId !in roots then Some(UndeclaredRoot)
    else if mode.InventoryOnly? then (if item.archivePath.Some? then Some(BoundSource) else None)
    else if item.availability != "available" || item.archivePath != Some(path) then Some(UnboundSource)
    else if DigestAt(payload, path) != Some(item.sha256) then Some(SourceMismatch)
    else None
  }

  function ItemsFault(
      inventory: seq<Item>, n: nat, mode: SourceMode, roots: seq<string>, payload: seq<Descriptor>): Option<InspectError>
    requires n <= |inventory|
  {
    if n == 0 then None
    else
      var before := ItemsFault(inventory, n - 1, mode, roots, payload);
      if before.Some? then before else ItemFault(inventory[n - 1], mode, roots, payload)
  }

  function ExpectedSources(inventory: seq<Item>, mode: SourceMode): set<string> {
    if mode.InventoryOnly? then {} else set item | item in inventory :: ArchivePath(item.rootId, item.relativePath)
  }

  function SourcePaths(payload: seq<Descriptor>): set<string> {
    set d | d in payload && StartsWith(d.path, "sources/") :: d.path
  }

  /** Manifest, configuration and payload belong together. */
  function ClosureFault(m: Manifest, config: Config, payload: seq<Descriptor>): Option<InspectError> {
    var items := ItemsFault(m.inventory, |m.inventory|, m.mode, config.roots, payload);
    if m.workspaceId != config.workspaceId then Some(IdentityDiffers)
    else if m.inventory != Sorting.Sorted(m.inventory, ItemLeq) then Some(InventoryOrder)
    else if items.Some? then items
    else if SourcePaths(payload) != ExpectedSources(m.inventory, m.mode) then Some(SourcesDiffer)
    else None
  }

  // ----- Inspection -----

  function ShapeFault(files: seq<File>, reader: Reader, codec: Codec): Option<InspectError> {
    if reader.archiveBytes(files) <= 0 || reader.archiveBytes(files) > reader.maxArchiveBytes then Some(ArchiveSize)
    else if files == [] || |files| > reader.maxEntries then Some(EntryCount)
    else if exists i :: 0 <= i < |files| && !reader.safeName(files[i].name) then Some(UnsafeName)
    else if !CanonicalNames(NamesOf(files), codec) then Some(NotCanonical)
    else SizeFault(files, |files|, reader)
  }

  function ReadManifest(files: seq<File>, codec: Codec): Option<Manifest> {
    var content := Lookup(files, ManifestName);
    if content.None? then None else codec.readManifest(content.value)
  }

  function ReadConfig(files: seq<File>, codec: Codec): Option<Config> {
    var content := Lookup(files, ConfigName);
    if content.None? then None else codec.readConfig(content.value)
  }

  function ControlFault(files: seq<File>, m: Manifest, payload: seq<Descriptor>, codec: Codec): Option<InspectError> {
    var config, profile := ReadConfig(files, codec), Lookup(files, ProfileName);
    if config.None? || !codec.configOk(config.value) then Some(ConfigInvalid)
    else if profile.None? || !codec.profileOk(profile.value) then Some(ProfileInvalid)
    else ClosureFault(m, config.value, payload)
  }

  function Inspect(files: seq<File>, reader: Reader, codec: Codec): Result<Manifest, InspectError> {
    var shape := ShapeFault(files, reader, codec);
    var manifest := ReadManifest(files, codec);
    var entries := DescribeAll(files, codec);
    var payload := ActualPayload(entries);
    if shape.Some? then Err(shape.value)
    else if manifest.None? || !codec.manifestOk(manifest.value) then Err(ManifestInvalid)
    else if manifest.value.format != Format || manifest.value.profileId != reader.profileId then Err(UnsupportedFormat)
    else if manifest.value.entries != payload then Err(InventoryMismatch)
    else if {ManifestName} + PathsOf(manifest.value.entries) != PathsOf(entries) then Err(UnlistedPayload)
    else
      var control := ControlFault(files, manifest.value, payload, codec);
      if control.Some? then Err(control.value) else Ok(manifest.value)
  }

  // ----- Archives written from a dictionary of entries -----

  type Payload = map<string, Bytes>

  ghost function FilesOf(payload: Payload): seq<File> {
    var names := Listing.Sorted(payload.Keys);
    Listing.SortedMembers(payload.Keys);
    seq(|names|, i requires 0 <= i < |names| => assert names[i] in names; File(names[i], payload[names[i]]))
  }

  lemma FilesOfContents(payload: Payload)
    ensures NamesOf(FilesOf(payload)) == Listing.Sorted(payload.Keys)
    ensures |FilesOf(payload)| == |payload|
    ensures forall f :: f in FilesOf(payload) <==> f.name in payload && payload[f.name] == f.content
  {
    var names, files := Listing.Sorted(payload.Keys), FilesOf(payload);
    Listing.SortedMembers(payload.Keys);
    assert |payload.Keys| == |payload|;
    forall f: File | f.name in payload && payload[f.name] == f.content ensures f in files {
      var i :| 0 <= i < |names| && names[i] == f.name;
      assert files[i] == f;
    }
    forall f | f in files ensures f.name in payload && payload[f.name] == f.content {
      var i :| 0 <= i < |files| && files[i] == f;
      assert names[i] in names;
    }
  }

  lemma FilesOfCanonical(payload: Payload)
    ensures Sorting.IsSorted(NamesOf(FilesOf(payload)), Leq) && Distinct(NamesOf(FilesOf(payload)))
  {
    FilesOfContents(payload);
    Listing.SortedAscends(payload.Keys);
  }

  lemma {:induction false} LookupFinds(files: seq<File>, f: File)
    requires f in files && Distinct(NamesOf(files))
    ensures Lookup(files, f.name) == Some(f.content)
  {
    var names := NamesOf(files);
    if files[0] != f {
      var i :| 0 <= i < |files| && files[i] == f;
      assert names[0] != names[i];
      assert NamesOf(files[1..]) == names[1..];
      LookupFinds(files[1..], f);
    }
  }

  lemma LookupPayload(payload: Payload, name: string)
    requires name in payload
    ensures Lookup(FilesOf(payload), name) == Some(payload[name])
  {
    FilesOfContents(payload);
    FilesOfCanonical(payload);
    LookupFinds(FilesOf(payload), File(name, payload[name]));
  }

  /** The archive's entries in order, and the dictionary they came from, determine one another. */
  lemma FilesDeterminePayload(a: Payload, b: Payload)
    requires FilesOf(a) == FilesOf(b)
    ensures a == b
  {
    FilesOfContents(a);
    FilesOfContents(b);
    forall name | name in a ensures name in b && b[name] == a[name] {
      assert File(name, a[name]) in FilesOf(a);
    }
    forall name | name in b ensures name in a {
      assert File(name, b[name]) in FilesOf(b);
    }
  }
}
