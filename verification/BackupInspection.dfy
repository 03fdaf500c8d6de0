/** The archive of a plan passes inspection exactly when its control records validate and its source roots are declared. */
module BackupInspection {
  import opened Wrappers
  import opened StringOrder
  import opened Selection
  import opened BackupArchive
  import opened BackupPlan
  import Sorting
  import Listing

  /** A plan, and everything its archive is made from. */
  ghost predicate Planned(p: Plan, w: Workspace, withSources: bool, codec: Codec, reader: Reader) {
    PlanOf(w, withSources, codec, reader) == Ok(p)
  }

  ghost function AssetsFor(w: Workspace): seq<Listed> { ListAssets(Sorting.Sorted(w.papers, PaperLeq)) }

  ghost function SourcesFor(w: Workspace, withSources: bool, codec: Codec): Result<Payload, PlanError> {
    SourcePayload(AssetsFor(w), |AssetsFor(w)|, withSources, w.sources, codec)
  }

  lemma PlanParts(p: Plan, w: Workspace, withSources: bool, codec: Codec, reader: Reader)
    requires Planned(p, w, withSources, codec, reader)
    ensures SourcesFor(w, withSources, codec).Ok?
    ensures p.payload == ControlPayload(w, codec) + KnowledgePayload(w.knowledge) + SourcesFor(w, withSources, codec).value
    ensures p.mode == if withSources then Included else InventoryOnly
    ensures p.inventory == Inventory(AssetsFor(w), withSources)
    ensures CollisionFree(Listing.Sorted(p.payload.Keys), codec)
    ensures forall name :: name in p.payload ==> reader.safeName(name)
  {
    Listing.SortedMembers(p.payload.Keys);
  }

  // ----- Names of the payload -----

  lemma SourceNames(w: Workspace, withSources: bool, codec: Codec, path: string)
    requires SourcesFor(w, withSources, codec).Ok? && path in SourcesFor(w, withSources, codec).value
    ensures withSources && Foreign(path) && StartsWith(path, "sources/")
  {
    var assets := AssetsFor(w);
    SourcePayloadContents(assets, |assets|, w.sources, codec);
    var i :| 0 <= i < |assets| && PathOf(assets[i]) == path;
    ArchivePathName(assets[i].asset.rootId, assets[i].asset.relativePath);
  }

  lemma ControlNames()
    ensures '/' in ConfigName && '/' in ProfileName && '/' !in ManifestName
    ensures ConfigName != ProfileName && !Leq(ManifestName, ConfigName)
    ensures !StartsWith(ConfigName, "sources/") && !StartsWith(ProfileName, "sources/")
  {
    assert ConfigName[6] == '/' && ProfileName[6] == '/';
    assert ConfigName[0] == 'c' && ProfileName[0] == 'c' && ManifestName[0] == 'm' && "sources/"[0] == 's';
    assert |ConfigName| != |ProfileName|;
  }

  ghost predicate ForeignNames(payload: Payload) { forall path :: path in payload ==> Foreign(path) }

  /** Control records stay what they are when foreign payload is added. */
  lemma MergedPayload(control: Payload, knowledge: Payload, sources: Payload, merged: Payload)
    requires ForeignNames(knowledge) && ForeignNames(sources) && merged == control + knowledge + sources
    requires forall name :: name in control ==> !Foreign(name) && '/' in name
    ensures forall path :: path in control ==> path in merged && merged[path] == control[path]
    ensures forall path :: path in merged ==> '/' in path
  {
  }

  lemma PayloadForeign(w: Workspace, withSources: bool, codec: Codec)
    requires SourcesFor(w, withSources, codec).Ok?
    ensures ForeignNames(KnowledgePayload(w.knowledge)) && ForeignNames(SourcesFor(w, withSources, codec).value)
  {
    var sources := SourcesFor(w, withSources, codec).value;
    forall path | path in sources ensures Foreign(path) {
      SourceNames(w, withSources, codec, path);
    }
    forall path | path in KnowledgePayload(w.knowledge) ensures Foreign(path) {
      KnowledgeNames(w.knowledge, path);
    }
  }

  lemma PayloadNames(p: Plan, w: Workspace, withSources: bool, codec: Codec, reader: Reader)
    requires Planned(p, w, withSources, codec, reader)
    ensures ManifestName !in p.payload
    ensures forall path :: path in p.payload ==> '/' in path
    ensures ConfigName in p.payload && p.payload[ConfigName] == codec.writeConfig(w.config)
    ensures ProfileName in p.payload && p.payload[ProfileName] == w.profile
  {
    ControlNames();
    PlanParts(p, w, withSources, codec, reader);
    PayloadForeign(w, withSources, codec);
    var control := ControlPayload(w, codec);
    MergedPayload(control, KnowledgePayload(w.knowledge), SourcesFor(w, withSources, codec).value, p.payload);
    assert ConfigName in control && ProfileName in control;
  }

  /** The source paths of the payload are exactly the paths of the inventory. */
  lemma PayloadSources(p: Plan, w: Workspace, withSources: bool, codec: Codec, reader: Reader, path: string)
    requires Planned(p, w, withSources, codec, reader)
    ensures path in p.payload && StartsWith(path, "sources/") <==>
      SourcesFor(w, withSources, codec).Ok? && path in SourcesFor(w, withSources, codec).value
  {
    PlanParts(p, w, withSources, codec, reader);
    ControlNames();
    if path in KnowledgePayload(w.knowledge) {
      KnowledgeNames(w.knowledge, path);
    }
    if path in SourcesFor(w, withSources, codec).value {
      SourceNames(w, withSources, codec, path);
    }
  }

  lemma BoundInPlan(p: Plan, w: Workspace, codec: Codec, reader: Reader, i: nat)
    requires Planned(p, w, true, codec, reader) && i < |AssetsFor(w)|
    ensures Bound(AssetsFor(w)[i], p.payload, codec)
  {
    PlanParts(p, w, true, codec, reader);
    var assets := AssetsFor(w);
    SourcePayloadContents(assets, |assets|, w.sources, codec);
    assert Bound(assets[i], SourcesFor(w, true, codec).value, codec);
  }

  // ----- Shape -----

  lemma NamesCanonical(payload: Payload, content: Bytes, codec: Codec)
    requires ManifestName !in payload && (forall path :: path in payload ==> '/' in path)
    requires CollisionFree(Listing.Sorted(payload.Keys), codec) && FoldKeepsSlashes(codec)
    ensures CanonicalNames(NamesOf(FilesOf(payload[ManifestName := content])), codec)
  {
    var whole := payload[ManifestName := content];
    var names := NamesOf(FilesOf(whole));
    FilesOfContents(whole);
    FilesOfCanonical(whole);
    Listing.SortedMembers(whole.Keys);
    ControlNames();
    forall i, j | 0 <= i < j < |names| ensures codec.casefold(names[i]) != codec.casefold(names[j]) {
      assert names[i] in names && names[j] in names && names[i] != names[j];
      FoldsApart(payload, names[i], names[j], codec);
    }
  }

  lemma FoldsApart(payload: Payload, a: string, b: string, codec: Codec)
    requires (forall path :: path in payload ==> '/' in path) && '/' !in ManifestName
    requires CollisionFree(Listing.Sorted(payload.Keys), codec) && FoldKeepsSlashes(codec)
    requires a != b && (a in payload || a == ManifestName) && (b in payload || b == ManifestName)
    ensures codec.casefold(a) != codec.casefold(b)
  {
    var names := Listing.Sorted(payload.Keys);
    Listing.SortedMembers(payload.Keys);
    if a in payload && b in payload {
      var i :| 0 <= i < |names| && names[i] == a;
      var j :| 0 <= j < |names| && names[j] == b;
    } else {
      assert '/' in codec.casefold(a) <==> '/' !in codec.casefold(b);
    }
  }

  lemma ShapeFineWhen(files: seq<File>, codec: Codec, reader: Reader)
    requires WithinLimits(files, reader) && CanonicalNames(NamesOf(files), codec)
    requires forall f :: f in files ==> reader.safeName(f.name)
    ensures ShapeFault(files, reader, codec).None?
  {
    forall i | 0 <= i < |files| ensures reader.safeName(files[i].name) {
      assert files[i] in files;
    }
    SizesFit(files, |files|, reader);
  }

  lemma SafeNames(payload: Payload, content: Bytes, reader: Reader)
    requires (forall name :: name in payload ==> reader.safeName(name)) && reader.safeName(ManifestName)
    ensures forall f :: f in FilesOf(payload[ManifestName := content]) ==> reader.safeName(f.name)
  {
    FilesOfContents(payload[ManifestName := content]);
  }

  lemma ShapeFine(p: Plan, m: Manifest, w: Workspace, withSources: bool, codec: Codec, reader: Reader)
    requires Planned(p, w, withSources, codec, reader) && FoldKeepsSlashes(codec)
    requires WithinLimits(Archive(p, m, codec), reader) && reader.safeName(ManifestName)
    ensures ShapeFault(Archive(p, m, codec), reader, codec).None?
  {
    PlanParts(p, w, withSources, codec, reader);
    PayloadNames(p, w, withSources, codec, reader);
    NamesCanonical(p.payload, codec.writeManifest(m), codec);
    SafeNames(p.payload, codec.writeManifest(m), reader);
    ShapeFineWhen(Archive(p, m, codec), codec, reader);
  }

  // ----- Inventory -----

  lemma {:induction false} DescribeOthers(files: seq<File>, codec: Codec)
    ensures Filter(DescribeAll(files, codec), (d: Descriptor) => d.path != ManifestName) ==
      DescribeAll(OtherFiles(files), codec)
  {
    if files != [] {
      var init := files[..|files| - 1];
      DescribeOthers(init, codec);
      assert DescribeAll(files, codec)[..|files| - 1] == DescribeAll(init, codec);
    }
  }

  lemma NotFirst(payload: Payload, a: string, b: string, codec: Codec)
    requires a in payload && b in payload && !Leq(b, a)
    ensures var entries := DescribeAll(FilesOf(payload), codec); entries != [] && entries[0].path != b
  {
    var names := NamesOf(FilesOf(payload));
    FilesOfContents(payload);
    FilesOfCanonical(payload);
    Listing.SortedMembers(payload.Keys);
    var k :| 0 <= k < |names| && names[k] == a;
    LeqReflexive(a);
    assert k > 0 ==> Leq(names[0], names[k]);
  }

  /** What the archive holds besides the manifest is what the manifest lists. */
  lemma PayloadListed(payload: Payload, content: Bytes, codec: Codec)
    requires ManifestName !in payload && ConfigName in payload
    ensures var entries := DescribeAll(FilesOf(payload[ManifestName := content]), codec);
      && ActualPayload(entries) == DescribeAll(FilesOf(payload), codec)
      && {ManifestName} + PathsOf(DescribeAll(FilesOf(payload), codec)) == PathsOf(entries)
  {
    var whole := payload[ManifestName := content];
    ControlNames();
    NotFirst(whole, ConfigName, ManifestName, codec);
    DescribeOthers(FilesOf(whole), codec);
    WithoutManifest(payload, content);
    DescribedPaths(whole, codec);
    DescribedPaths(payload, codec);
  }

  lemma DescribedPaths(payload: Payload, codec: Codec)
    ensures PathsOf(DescribeAll(FilesOf(payload), codec)) == payload.Keys
  {
    DescribeContents(payload, codec);
    forall path | path in payload ensures path in PathsOf(DescribeAll(FilesOf(payload), codec)) {
      var d := Describe(File(path, payload[path]), codec);
      assert d in DescribeAll(FilesOf(payload), codec);
    }
  }

  // ----- Closure -----

  predicate RootsDeclared(p: Plan, w: Workspace) { forall item :: item in p.inventory ==> item.rootId in w.config.roots }

  lemma ItemSound(p: Plan, w: Workspace, withSources: bool, codec: Codec, reader: Reader, item: Item)
    requires Planned(p, w, withSources, codec, reader) && item in p.inventory
    ensures ItemFault(item, p.mode, w.config.roots, DescribeAll(FilesOf(p.payload), codec)) ==
      if item.rootId in w.config.roots then None else Some(UndeclaredRoot)
  {
    PlanParts(p, w, withSources, codec, reader);
    var assets := AssetsFor(w);
    InventorySorted(assets, withSources);
    var i :| 0 <= i < |assets| && ItemOf(assets[i], withSources) == item;
    if withSources {
      BoundInPlan(p, w, codec, reader, i);
      DigestOfPayload(p.payload, PathOf(assets[i]), codec);
    }
  }

  lemma {:induction false} ItemsSound(
      inventory: seq<Item>, n: nat, mode: SourceMode, roots: seq<string>, payload: seq<Descriptor>)
    requires n <= |inventory|
    requires forall item :: item in inventory ==>
      ItemFault(item, mode, roots, payload) == if item.rootId in roots then None else Some(UndeclaredRoot)
    ensures ItemsFault(inventory, n, mode, roots, payload).None? <==>
      forall i :: 0 <= i < n ==> inventory[i].rootId in roots
  {
    if n > 0 {
      ItemsSound(inventory, n - 1, mode, roots, payload);
      assert inventory[n - 1] in inventory;
    }
  }

  lemma SourcesMatch(p: Plan, w: Workspace, withSources: bool, codec: Codec, reader: Reader)
    requires Planned(p, w, withSources, codec, reader)
    ensures SourcePaths(DescribeAll(FilesOf(p.payload), codec)) == ExpectedSources(p.inventory, p.mode)
  {
    var payload := DescribeAll(FilesOf(p.payload), codec);
    PlanParts(p, w, withSources, codec, reader);
    DescribedPaths(p.payload, codec);
    forall path ensures path in SourcePaths(payload) <==> path in ExpectedSources(p.inventory, p.mode) {
      PayloadSources(p, w, withSources, codec, reader, path);
      assert path in SourcePaths(payload) <==> path in PathsOf(payload) && StartsWith(path, "sources/");
      SourceExpected(p, w, withSources, codec, reader, path);
    }
  }

  lemma SourceExpected(p: Plan, w: Workspace, withSources: bool, codec: Codec, reader: Reader, path: string)
    requires Planned(p, w, withSources, codec, reader)
    ensures SourcesFor(w, withSources, codec).Ok?
    ensures path in SourcesFor(w, withSources, codec).value <==> path in ExpectedSources(p.inventory, p.mode)
  {
    PlanParts(p, w, withSources, codec, reader);
    var assets := AssetsFor(w);
    InventorySorted(assets, withSources);
    if withSources {
      SourcePayloadContents(assets, |assets|, w.sources, codec);
      var sources := SourcesFor(w, true, codec).value;
      if path in sources {
        var i :| 0 <= i < |assets| && PathOf(assets[i]) == path;
        assert ItemOf(assets[i], true) in p.inventory;
      }
      if path in ExpectedSources(p.inventory, p.mode) {
        var item :| item in p.inventory && ArchivePath(item.rootId, item.relativePath) == path;
        var i :| 0 <= i < |assets| && ItemOf(assets[i], true) == item;
        assert Bound(assets[i], sources, codec);
      }
    }
  }

  lemma ClosureSound(p: Plan, w: Workspace, withSources: bool, rest: string, codec: Codec, reader: Reader)
    requires Planned(p, w, withSources, codec, reader)
    ensures ClosureFault(ManifestOf(p, w, reader, rest, codec), w.config, DescribeAll(FilesOf(p.payload), codec)).None? <==>
      RootsDeclared(p, w)
  {
    var payload := DescribeAll(FilesOf(p.payload), codec);
    PlanParts(p, w, withSources, codec, reader);
    InventorySorted(AssetsFor(w), withSources);
    forall item | item in p.inventory
      ensures ItemFault(item, p.mode, w.config.roots, payload) ==
        if item.rootId in w.config.roots then None else Some(UndeclaredRoot)
    {
      ItemSound(p, w, withSources, codec, reader, item);
    }
    ItemsSound(p.inventory, |p.inventory|, p.mode, w.config.roots, payload);
    SourcesMatch(p, w, withSources, codec, reader);
    if forall i :: 0 <= i < |p.inventory| ==> p.inventory[i].rootId in w.config.roots {
      assert RootsDeclared(p, w);
    }
  }

  // ----- The whole inspection -----

  lemma ControlsRead(p: Plan, m: Manifest, w: Workspace, withSources: bool, codec: Codec, reader: Reader)
    requires Planned(p, w, withSources, codec, reader) && RoundTrips(codec)
    ensures ReadManifest(Archive(p, m, codec), codec) == Some(m)
    ensures ReadConfig(Archive(p, m, codec), codec) == Some(w.config)
    ensures Lookup(Archive(p, m, codec), ProfileName) == Some(w.profile)
  {
    var entries := Entries(p, m, codec);
    PayloadNames(p, w, withSources, codec, reader);
    ControlNames();
    LookupPayload(entries, ManifestName);
    LookupPayload(entries, ConfigName);
    LookupPayload(entries, ProfileName);
  }

  /** Inspection of files that are well shaped and say what they hold. */
  lemma InspectWhen(
      files: seq<File>, m: Manifest, config: Config, profile: Bytes, payload: seq<Descriptor>, codec: Codec, reader: Reader)
    requires ShapeFault(files, reader, codec).None?
    requires ReadManifest(files, codec) == Some(m) && codec.manifestOk(m)
    requires m.format == Format && m.profileId == reader.profileId
    requires payload == m.entries == ActualPayload(DescribeAll(files, codec))
    requires {ManifestName} + PathsOf(m.entries) == PathsOf(DescribeAll(files, codec))
    requires ReadConfig(files, codec) == Some(config) && Lookup(files, ProfileName) == Some(profile)
    ensures Inspect(files, reader, codec) == Ok(m) <==>
      codec.configOk(config) && codec.profileOk(profile) && ClosureFault(m, config, payload).None?
    ensures Inspect(files, reader, codec).Ok? ==> Inspect(files, reader, codec).value == m
  {
  }

  /**
   Within the reader's limits, the archive of any plan inspects to its own manifest if and only if the
   control records validate and every listed source root is declared; otherwise inspection refuses it.
   */
  lemma PlannedArchiveInspects(
      p: Plan, w: Workspace, withSources: bool, rest: string, codec: Codec, reader: Reader)
    requires Planned(p, w, withSources, codec, reader) && RoundTrips(codec) && FoldKeepsSlashes(codec)
    requires var m := ManifestOf(p, w, reader, rest, codec);
      WithinLimits(Archive(p, m, codec), reader) && codec.manifestOk(m)
    requires reader.safeName(ManifestName)
    ensures var m := ManifestOf(p, w, reader, rest, codec);
      var r := Inspect(Archive(p, m, codec), reader, codec);
      && (r == Ok(m) <==> codec.configOk(w.config) && codec.profileOk(w.profile) && RootsDeclared(p, w))
      && (r.Ok? ==> r.value == m)
  {
    var m := ManifestOf(p, w, reader, rest, codec);
    ShapeFine(p, m, w, withSources, codec, reader);
    ControlsRead(p, m, w, withSources, codec, reader);
    PayloadNames(p, w, withSources, codec, reader);
    PayloadListed(p.payload, codec.writeManifest(m), codec);
    ClosureSound(p, w, withSources, rest, codec, reader);
    InspectWhen(Archive(p, m, codec), m, w.config, w.profile, m.entries, codec, reader);
  }
}
