/** Planning a backup, and why the archive written from a plan passes inspection. */
module BackupPlan {
  import opened Wrappers
  import opened StringOrder
  import opened Selection
  import opened BackupArchive
  import Sorting
  import Listing

  // ----- The workspace being backed up -----

  datatype Asset = Asset(
    id: Option<string>,
    role: string,
    rootId: string,
    relativePath: string,
    sha256: string,
    isActive: bool,
    availability: string)

  /** A registered paper with its main source, and the current heads of its source assets. */
  datatype Paper = Paper(paperId: string, rootId: string, relativePath: string, sha256: string, heads: seq<Asset>)

  datatype Workspace = Workspace(
    config: Config,
    profile: Bytes,
    knowledge: Payload,
    papers: seq<Paper>,
    sources: map<(string, string), Bytes>)

  const Marker := ".research-kb/workspace.json"
  const Lock := ".research-kb/locks/workspace.lock"

  predicate Carried(relative: string) {
    relative != Marker && relative != Lock && !StartsWith(relative, "views/obsidian/")
  }

  function KnowledgePayload(knowledge: Payload): Payload {
    map path | path in Prefixed(knowledge.Keys) :: knowledge[path[10..]]
  }

  function Prefixed(relatives: set<string>): set<string> {
    set r | r in relatives && Carried(r) :: "knowledge/" + r
  }

  // ----- Source assets -----

  predicate AssetLeq(a: Asset, b: Asset) {
    if a.role != b.role then Leq(a.role, b.role) else Leq(OrEmpty(a.id), OrEmpty(b.id))
  }

  predicate PaperLeq(a: Paper, b: Paper) { Leq(a.paperId, b.paperId) }

  /** The heads in order, with the registered source in front when no head is the main document. */
  function AssetsOf(p: Paper): seq<Asset> {
    var assets := Sorting.Sorted(p.heads, AssetLeq);
    if exists a :: a in assets && a.role == "main_pdf" then assets
    else [Asset(None, "main_pdf", p.rootId, p.relativePath, p.sha256, true, "available")] + assets
  }

  datatype Listed = Listed(paperId: string, asset: Asset)

  function ListAssets(papers: seq<Paper>): seq<Listed> {
    if papers == [] then []
    else
      var assets := AssetsOf(papers[0]);
      seq(|assets|, i requires 0 <= i < |assets| => Listed(papers[0].paperId, assets[i])) + ListAssets(papers[1..])
  }

  function ItemOf(l: Listed, withSources: bool): Item {
    Item(l.paperId, l.asset.id, l.asset.role, l.asset.rootId, l.asset.relativePath, l.asset.sha256, l.asset.availability,
         if withSources then Some(ArchivePath(l.asset.rootId, l.asset.relativePath)) else None)
  }

  datatype PlanError = SourceNotCurrent | SourceUnavailable | FingerprintChanged | SourceCollision | PathsCollide

  /** The bytes of one current, available and unchanged source. */
  function SourceBytes(a: Asset, sources: map<(string, string), Bytes>, codec: Codec): Result<Bytes, PlanError> {
    if !a.isActive || a.availability != "available" then Err(SourceNotCurrent)
    else if (a.rootId, a.relativePath) !in sources then Err(SourceUnavailable)
    else if codec.sha(sources[(a.rootId, a.relativePath)]) != a.sha256 then Err(FingerprintChanged)
    else Ok(sources[(a.rootId, a.relativePath)])
  }

  function AddSource(
      payload: Payload, l: Listed, sources: map<(string, string), Bytes>, codec: Codec): Result<Payload, PlanError> {
    var content := SourceBytes(l.asset, sources, codec);
    var path := ArchivePath(l.asset.rootId, l.asset.relativePath);
    if content.Err? then Err(content.error)
    else if path in payload && payload[path] != content.value then Err(SourceCollision)
    else Ok(payload[path := content.value])
  }

  function SourcePayload(
      assets: seq<Listed>, n: nat, withSources: bool, sources: map<(string, string), Bytes>, codec: Codec)
    : Result<Payload, PlanError>
    requires n <= |assets|
  {
    if n == 0 || !withSources then Ok(map[])
    else
      var before := SourcePayload(assets, n - 1, withSources, sources, codec);
      if before.Err? then before else AddSource(before.value, assets[n - 1], sources, codec)
  }

  function Items(assets: seq<Listed>, withSources: bool): seq<Item> {
    seq(|assets|, i requires 0 <= i < |assets| => ItemOf(assets[i], withSources))
  }

  function Inventory(assets: seq<Listed>, withSources: bool): seq<Item> { Sorting.Sorted(Items(assets, withSources), ItemLeq) }

  // ----- The plan -----

  datatype Plan = Plan(mode: SourceMode, payload: Payload, inventory: seq<Item>)

  function ControlPayload(w: Workspace, codec: Codec): Payload {
    map[ConfigName := codec.writeConfig(w.config), ProfileName := w.profile]
  }

  ghost function PlanOf(w: Workspace, withSources: bool, codec: Codec, reader: Reader): Result<Plan, PlanError> {
    var assets := ListAssets(Sorting.Sorted(w.papers, PaperLeq));
    var sources := SourcePayload(assets, |assets|, withSources, w.sources, codec);
    if sources.Err? then Err(sources.error)
    else
      var payload := ControlPayload(w, codec) + KnowledgePayload(w.knowledge) + sources.value;
      var names := Listing.Sorted(payload.Keys);
      if (exists name :: name in names && !reader.safeName(name)) || !CollisionFree(names, codec) then Err(PathsCollide)
      else Ok(Plan(if withSources then Included else InventoryOnly, payload, Inventory(assets, withSources)))
  }

  /** The manifest of a plan. */
  ghost function ManifestOf(p: Plan, w: Workspace, reader: Reader, rest: string, codec: Codec): Manifest {
    Manifest(Format, reader.profileId, w.config.workspaceId, p.mode, DescribeAll(FilesOf(p.payload), codec), p.inventory, rest)
  }

  ghost function Entries(p: Plan, m: Manifest, codec: Codec): Payload { p.payload[ManifestName := codec.writeManifest(m)] }

  /** The archive written from a plan. */
  ghost function Archive(p: Plan, m: Manifest, codec: Codec): seq<File> { FilesOf(Entries(p, m, codec)) }

  // ----- Payload names -----

  lemma PrefixedNames(relatives: set<string>, path: string)
    requires path in Prefixed(relatives)
    ensures |path| >= 10 && path[..10] == "knowledge/" && path[10..] in relatives
  {
    var r :| r in relatives && Carried(r) && path == "knowledge/" + r;
    assert path[10..] == r;
  }

  predicate Foreign(path: string) { path != ManifestName && path != ConfigName && path != ProfileName && '/' in path }

  lemma KnowledgeNames(knowledge: Payload, path: string)
    requires path in KnowledgePayload(knowledge)
    ensures Foreign(path) && !StartsWith(path, "sources/")
  {
    PrefixedNames(knowledge.Keys, path);
    assert path[..10][0] == 'k' && path[..10][9] == '/' && path[9] == '/';
  }

  lemma ArchivePathName(rootId: string, relativePath: string)
    ensures StartsWith(ArchivePath(rootId, relativePath), "sources/")
    ensures Foreign(ArchivePath(rootId, relativePath))
  {
    var path := ArchivePath(rootId, relativePath);
    assert path == "sources/" + (rootId + "/" + relativePath);
    assert path[7] == '/' && path[0] == 's';
  }

  /** The source part holds exactly the archive paths of the listed assets, each with its recorded digest. */
  lemma {:induction false} SourcePayloadContents(
      assets: seq<Listed>, n: nat, sources: map<(string, string), Bytes>, codec: Codec)
    requires n <= |assets| && SourcePayload(assets, n, true, sources, codec).Ok?
    ensures var payload := SourcePayload(assets, n, true, sources, codec).value;
      && (forall i :: 0 <= i < n ==> Bound(assets[i], payload, codec))
      && (forall path :: path in payload ==> exists i :: 0 <= i < n && PathOf(assets[i]) == path)
  {
    if n > 0 {
      SourcePayloadContents(assets, n - 1, sources, codec);
      var before := SourcePayload(assets, n - 1, true, sources, codec).value;
      var payload := SourcePayload(assets, n, true, sources, codec).value;
      assert payload.Keys == before.Keys + {PathOf(assets[n - 1])};
      forall i | 0 <= i < n - 1 ensures Bound(assets[i], payload, codec) {
        assert Bound(assets[i], before, codec);
      }
    }
  }

  function PathOf(l: Listed): string { ArchivePath(l.asset.rootId, l.asset.relativePath) }

  predicate Bound(l: Listed, payload: Payload, codec: Codec) {
    && l.asset.availability == "available"
    && PathOf(l) in payload && codec.sha(payload[PathOf(l)]) == l.asset.sha256
  }

  // ----- Sorting the inventory twice -----

  lemma ItemOrder()
    ensures Sorting.TotalPreorder(ItemLeq)
  {
    forall a: Item, b: Item ensures ItemLeq(a, b) || ItemLeq(b, a) {
      LeqTotal(a.paperId, b.paperId);
      LeqTotal(a.role, b.role);
      LeqTotal(OrEmpty(a.assetId), OrEmpty(b.assetId));
    }
    forall a: Item, b: Item, c: Item | ItemLeq(a, b) && ItemLeq(b, c) ensures ItemLeq(a, c) {
      LexStep(a.paperId, b.paperId, c.paperId);
      LexStep(a.role, b.role, c.role);
      LexStep(OrEmpty(a.assetId), OrEmpty(b.assetId), OrEmpty(c.assetId));
    }
  }

  lemma LexStep(x: string, y: string, z: string)
    ensures Leq(x, y) && Leq(y, z) ==> Leq(x, z)
    ensures Leq(x, y) && Leq(y, z) && x == z ==> x == y
  {
    if Leq(x, y) && Leq(y, z) {
      LeqTransitive(x, y, z);
      if x == z {
        LeqAntisymmetric(x, y);
      }
    }
  }

  /** A stable sort leaves a sorted list as it is. */
  lemma {:induction false} SortedStays(s: seq<Item>)
    requires Sorting.IsSorted(s, ItemLeq)
    ensures Sorting.Sorted(s, ItemLeq) == s
  {
    if s != [] {
      var rest := s[1..];
      SortedStays(rest);
      assert rest != [] ==> ItemLeq(s[0], rest[0]);
      assert s == [s[0]] + rest;
    }
  }

  lemma InventorySorted(assets: seq<Listed>, withSources: bool)
    ensures Sorting.Sorted(Inventory(assets, withSources), ItemLeq) == Inventory(assets, withSources)
    ensures forall item :: item in Inventory(assets, withSources) <==> exists i :: 0 <= i < |assets| && ItemOf(assets[i], withSources) == item
  {
    var items := Items(assets, withSources);
    ItemOrder();
    Sorting.SortedOrders(items, ItemLeq);
    Sorting.SortedContents(items, ItemLeq);
    SortedStays(Inventory(assets, withSources));
    forall i | 0 <= i < |assets| ensures ItemOf(assets[i], withSources) in items {
      assert items[i] == ItemOf(assets[i], withSources);
    }
  }

  // ----- Descriptors of an archive -----

  lemma {:induction false} DigestFound(entries: seq<Descriptor>, d: Descriptor)
    requires d in entries && forall x :: x in entries && x.path == d.path ==> x == d
    ensures DigestAt(entries, d.path) == Some(d.sha256)
  {
    var last := entries[|entries| - 1];
    if last.path != d.path {
      assert entries == entries[..|entries| - 1] + [last];
      DigestFound(entries[..|entries| - 1], d);
    }
  }

  lemma DescribeContents(payload: Payload, codec: Codec)
    ensures forall d :: d in DescribeAll(FilesOf(payload), codec) <==>
      d.path in payload && d == Describe(File(d.path, payload[d.path]), codec)
  {
    var files, entries := FilesOf(payload), DescribeAll(FilesOf(payload), codec);
    FilesOfContents(payload);
    forall d: Descriptor | d.path in payload && d == Describe(File(d.path, payload[d.path]), codec) ensures d in entries {
      assert File(d.path, payload[d.path]) in files;
      var i :| 0 <= i < |files| && files[i] == File(d.path, payload[d.path]);
      assert entries[i] == d;
    }
    forall d | d in entries ensures d.path in payload && d == Describe(File(d.path, payload[d.path]), codec) {
      var i :| 0 <= i < |files| && entries[i] == d;
      assert files[i] in files;
    }
  }

  lemma DigestOfPayload(payload: Payload, path: string, codec: Codec)
    requires path in payload
    ensures DigestAt(DescribeAll(FilesOf(payload), codec), path) == Some(codec.sha(payload[path]))
  {
    DescribeContents(payload, codec);
    DigestFound(DescribeAll(FilesOf(payload), codec), Describe(File(path, payload[path]), codec));
  }

  function OtherFiles(files: seq<File>): seq<File> { Filter(files, (f: File) => f.name != ManifestName) }

  /** Files with ascending names and the payload's contents are the payload's archive. */
  lemma FilesAreDetermined(files: seq<File>, payload: Payload)
    requires Listing.Ascending(NamesOf(files))
    requires forall f :: f in files <==> f.name in payload && payload[f.name] == f.content
    ensures files == FilesOf(payload)
  {
    FilesOfContents(payload);
    var names := NamesOf(files);
    forall name ensures name in names <==> name in payload.Keys {
      if name in payload {
        var i :| 0 <= i < |files| && files[i] == File(name, payload[name]);
        assert names[i] == name;
      }
      if name in names {
        var i :| 0 <= i < |names| && names[i] == name;
        assert files[i] in files;
      }
    }
    Listing.AscendingIsSorted(names, payload.Keys);
    SameNamesSameFiles(files, FilesOf(payload), payload);
  }

  lemma SameNamesSameFiles(a: seq<File>, b: seq<File>, payload: Payload)
    requires NamesOf(a) == NamesOf(b)
    requires forall f :: f in a ==> f.name in payload && payload[f.name] == f.content
    requires forall f :: f in b ==> f.name in payload && payload[f.name] == f.content
    ensures a == b
  {
    assert |a| == |NamesOf(a)| == |NamesOf(b)| == |b|;
    forall i | 0 <= i < |a| ensures a[i] == b[i] {
      assert a[i] in a && b[i] in b;
      assert NamesOf(a)[i] == a[i].name && NamesOf(b)[i] == b[i].name;
    }
  }

  /** Leaving the manifest out of an archive gives the archive of the payload. */
  lemma WithoutManifest(payload: Payload, content: Bytes)
    requires ManifestName !in payload
    ensures OtherFiles(FilesOf(payload[ManifestName := content])) == FilesOf(payload)
  {
    var whole := payload[ManifestName := content];
    var files := FilesOf(whole);
    FilesOfContents(whole);
    Listing.SortedAscends(whole.Keys);
    FilterContents(files, (f: File) => f.name != ManifestName);
    FilterKeepsOrder(files);
    FilesAreDetermined(OtherFiles(files), payload);
  }

  lemma {:induction false} FilterKeepsOrder(files: seq<File>)
    requires Listing.Ascending(NamesOf(files))
    ensures Listing.Ascending(NamesOf(OtherFiles(files)))
  {
    if files != [] {
      var init, last := files[..|files| - 1], files[|files| - 1];
      var names := NamesOf(files);
      assert NamesOf(init) == names[..|files| - 1];
      FilterKeepsOrder(init);
      FilterContents(init, (f: File) => f.name != ManifestName);
      var kept := OtherFiles(init);
      forall i | 0 <= i < |kept| ensures Leq(kept[i].name, last.name) && kept[i].name != last.name {
        assert kept[i] in kept;
        var k :| 0 <= k < |init| && init[k] == kept[i];
        assert names[k] == kept[i].name && names[|files| - 1] == last.name;
      }
      if last.name != ManifestName {
        AppendAscends(kept, last);
      } else {
        assert OtherFiles(files) == kept;
      }
    }
  }

  lemma AppendAscends(kept: seq<File>, last: File)
    requires Listing.Ascending(NamesOf(kept))
    requires forall i :: 0 <= i < |kept| ==> Leq(kept[i].name, last.name) && kept[i].name != last.name
    ensures Listing.Ascending(NamesOf(kept + [last]))
  {
    var names := NamesOf(kept + [last]);
    forall i, j | 0 <= i < j < |names| ensures Leq(names[i], names[j]) && names[i] != names[j] {
      if j < |kept| {
        assert names[i] == NamesOf(kept)[i] && names[j] == NamesOf(kept)[j];
      }
    }
  }
}
