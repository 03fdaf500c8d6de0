/** Backup, inspection and restore together: when a planned archive comes back, and what comes back. */
module BackupRoundTrip {
  import opened Wrappers
  import opened BackupArchive
  import opened BackupPlan
  import opened BackupInspection
  import opened BackupRuns
  import Listing
  import Sorting

  // ----- The archive as a tree -----

  lemma {:induction false} ExtractedNames(files: seq<File>, name: string)
    ensures name in Extracted(files) <==> exists f :: f in files && f.name == name
  {
    if files != [] {
      var init, last := files[..|files| - 1], files[|files| - 1];
      ExtractedNames(init, name);
      assert files == init + [last];
    }
  }

  /** Extracting the archive of a dictionary of entries gives the dictionary back. */
  lemma ExtractedPayload(payload: Payload)
    ensures Extracted(FilesOf(payload)) == payload
  {
    var files := FilesOf(payload);
    FilesOfContents(payload);
    FilesOfCanonical(payload);
    forall name ensures name in Extracted(files) <==> name in payload {
      ExtractedNames(files, name);
      if name in payload {
        assert File(name, payload[name]) in files;
      }
    }
    forall name | name in payload ensures Extracted(files)[name] == payload[name] {
      ExtractedContents(files, File(name, payload[name]));
    }
  }

  lemma NotKept(mode: SourceMode)
    ensures !Kept(ManifestName, mode) && !Kept(ConfigName, mode) && !Kept(ProfileName, mode)
    ensures MarkerPath != WorkspacePath && MarkerPath != ProfilePath
  {
    assert "knowledge/"[0] == 'k' && "sources/"[0] == 's';
    assert ManifestName[0] == 'm' && ConfigName[0] == 'c' && ProfileName[0] == 'c';
    assert MarkerPath[0] == 'k' && WorkspacePath[0] == 'w' && ProfilePath[0] == 'd';
  }

  /** The files of a workspace a backup carries: its knowledge and, when included, its sources. */
  ghost function CarriedFiles(w: Workspace, withSources: bool, codec: Codec): Tree
    requires SourcesFor(w, withSources, codec).Ok?
  {
    KnowledgePayload(w.knowledge) + SourcesFor(w, withSources, codec).value
  }

  /** Of control records, knowledge, sources and manifest, a restore keeps knowledge and sources. */
  lemma KeptOfMerged(control: Payload, knowledge: Payload, sources: Payload, content: Bytes, mode: SourceMode)
    requires forall path :: path in control ==> !Kept(path, mode)
    requires forall path :: path in knowledge ==> Kept(path, mode) && Foreign(path)
    requires forall path :: path in sources ==> Kept(path, mode) && Foreign(path)
    ensures KeptPart((control + knowledge + sources)[ManifestName := content], mode) == knowledge + sources
  {
    NotKept(mode);
  }

  lemma KnowledgeKept(knowledge: Payload, mode: SourceMode, path: string)
    requires path in KnowledgePayload(knowledge)
    ensures Kept(path, mode) && Foreign(path) && path != MarkerPath
  {
    KnowledgeNames(knowledge, path);
    PrefixedNames(knowledge.Keys, path);
    var r :| r in knowledge.Keys && BackupPlan.Carried(r) && path == "knowledge/" + r;
    assert path[10..] == r && MarkerPath[10..] == Marker;
  }

  lemma SourceKept(w: Workspace, withSources: bool, codec: Codec, path: string)
    requires SourcesFor(w, withSources, codec).Ok? && path in SourcesFor(w, withSources, codec).value
    ensures withSources && Kept(path, Included) && Foreign(path) && path != MarkerPath
  {
    SourceNames(w, withSources, codec, path);
    assert path[..8][0] == 's' && MarkerPath[0] == 'k';
  }

  /** What a restore keeps of a planned archive is exactly what the backup carried. */
  lemma KeptEntries(p: Plan, w: Workspace, m: Manifest, withSources: bool, codec: Codec, reader: Reader)
    requires Planned(p, w, withSources, codec, reader)
    ensures SourcesFor(w, withSources, codec).Ok?
    ensures KeptPart(Extracted(Archive(p, m, codec)), p.mode) == CarriedFiles(w, withSources, codec)
  {
    PlanParts(p, w, withSources, codec, reader);
    NotKept(p.mode);
    ExtractedPayload(Entries(p, m, codec));
    var sources := SourcesFor(w, withSources, codec).value;
    forall path | path in KnowledgePayload(w.knowledge) ensures Kept(path, p.mode) && Foreign(path) {
      KnowledgeKept(w.knowledge, p.mode, path);
    }
    forall path | path in sources ensures Kept(path, p.mode) && Foreign(path) {
      SourceKept(w, withSources, codec, path);
    }
    KeptOfMerged(ControlPayload(w, codec), KnowledgePayload(w.knowledge), sources, codec.writeManifest(m), p.mode);
  }

  lemma MarkerNotCarried(w: Workspace, withSources: bool, codec: Codec)
    requires SourcesFor(w, withSources, codec).Ok?
    ensures MarkerPath !in CarriedFiles(w, withSources, codec)
  {
    if MarkerPath in KnowledgePayload(w.knowledge) {
      KnowledgeKept(w.knowledge, Included, MarkerPath);
    }
    if MarkerPath in SourcesFor(w, withSources, codec).value {
      SourceKept(w, withSources, codec, MarkerPath);
    }
  }

  // ----- When source bytes are in the archive -----

  lemma AssetsListed(w: Workspace)
    ensures AssetsFor(w) == [] <==> w.papers == []
  {
    var papers := Sorting.Sorted(w.papers, PaperLeq);
    Sorting.SortedContents(w.papers, PaperLeq);
    if w.papers != [] {
      assert w.papers[0] in papers;
      assert AssetsOf(papers[0]) != [];
    }
  }

  lemma SomeSource(w: Workspace, withSources: bool, codec: Codec)
    requires SourcesFor(w, withSources, codec).Ok?
    ensures SourcesFor(w, withSources, codec).value == map[] <==> !withSources || w.papers == []
  {
    var assets := AssetsFor(w);
    AssetsListed(w);
    if withSources && assets != [] {
      SourcePayloadContents(assets, |assets|, w.sources, codec);
      assert Bound(assets[0], SourcesFor(w, true, codec).value, codec);
    }
  }

  /** A planned archive holds source bytes exactly when sources are included and some paper is registered. */
  lemma ArchiveHasSources(p: Plan, w: Workspace, m: Manifest, withSources: bool, codec: Codec, reader: Reader)
    requires Planned(p, w, withSources, codec, reader)
    ensures HasSources(Extracted(Archive(p, m, codec))) <==> withSources && w.papers != []
  {
    var entries := Entries(p, m, codec);
    ExtractedPayload(entries);
    PlanParts(p, w, withSources, codec, reader);
    SomeSource(w, withSources, codec);
    var sources := SourcesFor(w, withSources, codec).value;
    forall path ensures path in entries && StartsWith(path, "sources/") <==> path in sources {
      PayloadSources(p, w, withSources, codec, reader, path);
      assert "sources/"[0] == 's' && ManifestName[0] == 'm';
    }
    if withSources && w.papers != [] {
      var path :| path in sources;
      assert path in entries && StartsWith(path, "sources/");
    }
  }

  // ----- Backup, then restore -----

  /** The workspace a restore is to make out of `w`, written from `w` alone. */
  ghost function WorkspaceTree(
      w: Workspace, withSources: bool, mode: SourceMode, request: RestoreRequest, restorer: Restorer, codec: Codec): Tree
    requires SourcesFor(w, withSources, codec).Ok?
  {
    CarriedFiles(w, withSources, codec)
      [WorkspacePath := restorer.config(w.config, mode, request.mappings)][ProfilePath := w.profile]
  }

  /** What makes a planned archive one that a restore accepts, read off the workspace and the request. */
  ghost predicate ComesBack(
      w: Workspace, withSources: bool, mode: SourceMode, request: RestoreRequest, restorer: Restorer, codec: Codec)
    requires SourcesFor(w, withSources, codec).Ok?
  {
    && codec.configOk(w.config) && codec.profileOk(w.profile)
    && (forall l :: l in AssetsFor(w) ==> l.asset.rootId in w.config.roots)
    && MappingFault(mode, request.mappings, w.config.roots).None?
    && (withSources ==> w.papers != [])
    && restorer.acceptable(Marked(WorkspaceTree(w, withSources, mode, request, restorer, codec), restorer))
  }

  lemma RootsOfAssets(p: Plan, w: Workspace, withSources: bool, codec: Codec, reader: Reader)
    requires Planned(p, w, withSources, codec, reader)
    ensures RootsDeclared(p, w) <==> forall l :: l in AssetsFor(w) ==> l.asset.rootId in w.config.roots
  {
    var assets := AssetsFor(w);
    PlanParts(p, w, withSources, codec, reader);
    InventorySorted(assets, withSources);
    if RootsDeclared(p, w) {
      forall l | l in assets ensures l.asset.rootId in w.config.roots {
        var i :| 0 <= i < |assets| && assets[i] == l;
        assert ItemOf(assets[i], withSources) in p.inventory;
      }
    }
  }

  /** A planned archive is laid out as the workspace it was made from. */
  lemma LaidOutIsWorkspace(
      p: Plan, w: Workspace, m: Manifest, withSources: bool, request: RestoreRequest, restorer: Restorer, codec: Codec, reader: Reader)
    requires Planned(p, w, withSources, codec, reader) && RoundTrips(codec) && m.mode == p.mode
    ensures SourcesFor(w, withSources, codec).Ok?
    ensures LayoutFault(Archive(p, m, codec), m, request, codec) ==
      if MappingFault(p.mode, request.mappings, w.config.roots).Some? then MappingFault(p.mode, request.mappings, w.config.roots)
      else if withSources && w.papers == [] then Some(SourcesMissing)
      else None
    ensures LayoutFault(Archive(p, m, codec), m, request, codec).None? ==>
      LaidOut(Archive(p, m, codec), m, request, restorer, codec) == WorkspaceTree(w, withSources, p.mode, request, restorer, codec)
  {
    PlanParts(p, w, withSources, codec, reader);
    ControlsRead(p, m, w, withSources, codec, reader);
    ArchiveHasSources(p, w, m, withSources, codec, reader);
    KeptEntries(p, w, m, withSources, codec, reader);
  }

  /** Restorability, given what inspection and layout come to. */
  lemma RestorableWhen(
      inspection: Result<Manifest, InspectError>, fine: bool, files: seq<File>, m: Manifest, fault: Option<RestoreError>,
      tree: Tree, request: RestoreRequest, restorer: Restorer, sha: seq<File> -> string, codec: Codec)
    requires (inspection == Ok(m) <==> fine) && (inspection.Ok? ==> inspection.value == m)
    requires LayoutFault(files, m, request, codec) == fault
    requires fault.None? ==> LaidOut(files, m, request, restorer, codec) == tree
    ensures RestorableAs(inspection, files, request, restorer, sha, codec) <==>
      fine && sha(files) == request.expectedSha && fault.None? && restorer.acceptable(Marked(tree, restorer))
  {
  }

  lemma MarkerNotInWorkspace(
      w: Workspace, withSources: bool, mode: SourceMode, request: RestoreRequest, restorer: Restorer, codec: Codec)
    requires SourcesFor(w, withSources, codec).Ok?
    ensures MarkerPath !in WorkspaceTree(w, withSources, mode, request, restorer, codec)
  {
    MarkerNotCarried(w, withSources, codec);
    NotKept(mode);
  }

  /** Taking the marker out of a workspace that has none changes nothing. */
  lemma RestoredFromLayout(
      files: seq<File>, m: Manifest, tree: Tree, request: RestoreRequest, restorer: Restorer, codec: Codec)
    requires LayoutFault(files, m, request, codec).None? && LaidOut(files, m, request, restorer, codec) == tree
    requires MarkerPath !in tree
    ensures RestoredTree(files, m, request, restorer, codec) == Settled(tree, request, restorer)
  {
    assert tree - {MarkerPath} == tree;
  }

  /**
   Within the reader's limits, the archive of any plan is restorable if and only if its control records
   validate, its source roots are declared, the mappings fit the mode, a source-inclusive backup has a
   paper, and the workspace made from it passes its own checks. What a restore then leaves is that
   workspace, marked afresh and with the new receipt: nothing is lost and nothing else is added.
   */
  lemma RestoreUndoesBackup(
      p: Plan, w: Workspace, withSources: bool, rest: string, request: RestoreRequest, restorer: Restorer,
      sha: seq<File> -> string, codec: Codec, reader: Reader)
    requires Planned(p, w, withSources, codec, reader) && RoundTrips(codec) && FoldKeepsSlashes(codec)
    requires var m := ManifestOf(p, w, reader, rest, codec);
      && WithinLimits(Archive(p, m, codec), reader) && codec.manifestOk(m)
      && request.expectedSha == sha(Archive(p, m, codec))
    requires reader.safeName(ManifestName)
    ensures SourcesFor(w, withSources, codec).Ok?
    ensures var m := ManifestOf(p, w, reader, rest, codec);
      var files := Archive(p, m, codec);
      && (Restorable(files, request, restorer, sha, codec, reader) <==> ComesBack(w, withSources, p.mode, request, restorer, codec))
      && (Restorable(files, request, restorer, sha, codec, reader) ==>
            && LayoutFault(files, m, request, codec).None?
            && RestoredTree(files, m, request, restorer, codec) ==
                 Settled(WorkspaceTree(w, withSources, p.mode, request, restorer, codec), request, restorer))
  {
    var m := ManifestOf(p, w, reader, rest, codec);
    var files := Archive(p, m, codec);
    PlannedArchiveInspects(p, w, withSources, rest, codec, reader);
    RootsOfAssets(p, w, withSources, codec, reader);
    LaidOutIsWorkspace(p, w, m, withSources, request, restorer, codec, reader);
    RestorableWhen(
      Inspect(files, reader, codec), codec.configOk(w.config) && codec.profileOk(w.profile) && RootsDeclared(p, w),
      files, m, LayoutFault(files, m, request, codec), WorkspaceTree(w, withSources, p.mode, request, restorer, codec),
      request, restorer, sha, codec);
    if LayoutFault(files, m, request, codec).None? {
      MarkerNotInWorkspace(w, withSources, p.mode, request, restorer, codec);
      RestoredFromLayout(files, m, WorkspaceTree(w, withSources, p.mode, request, restorer, codec), request, restorer, codec);
    }
  }

  // ----- What comes back -----

  lemma SourcePathApart(path: string, restoreId: string)
    requires StartsWith(path, "sources/")
    ensures path != MarkerPath && path != ReceiptPath(restoreId) && path != WorkspacePath && path != ProfilePath
  {
    assert path[0] == path[..8][0] == 's';
    assert ReceiptPath(restoreId)[0] == 'k' && MarkerPath[0] == 'k' && WorkspacePath[0] == 'w' && ProfilePath[0] == 'd';
  }

  /** Every knowledge file a backup carries is in the restored workspace, byte for byte, unless the new receipt takes its name. */
  lemma KnowledgeComesBack(
      w: Workspace, withSources: bool, mode: SourceMode, relative: string, request: RestoreRequest, restorer: Restorer, codec: Codec)
    requires SourcesFor(w, withSources, codec).Ok?
    requires relative in w.knowledge && Carried(relative) && "knowledge/" + relative != ReceiptPath(request.restoreId)
    ensures var path := "knowledge/" + relative;
      var tree := Settled(WorkspaceTree(w, withSources, mode, request, restorer, codec), request, restorer);
      path in tree && tree[path] == w.knowledge[relative]
  {
    var path := "knowledge/" + relative;
    CarriedPath(w.knowledge, relative);
    KnowledgeNames(w.knowledge, path);
    assert path !in SourcesFor(w, withSources, codec).value by {
      if path in SourcesFor(w, withSources, codec).value {
        SourceNames(w, withSources, codec, path);
      }
    }
    assert path[0] == "knowledge/"[0] == 'k' && WorkspacePath[0] == 'w' && ProfilePath[0] == 'd';
  }

  lemma CarriedPath(knowledge: Payload, relative: string)
    requires relative in knowledge && Carried(relative)
    ensures var path := "knowledge/" + relative;
      path in KnowledgePayload(knowledge) && KnowledgePayload(knowledge)[path] == knowledge[relative] && path != MarkerPath
  {
    var path := "knowledge/" + relative;
    assert path[10..] == relative && path[..10] == "knowledge/";
    assert path in Prefixed(knowledge.Keys);
    assert MarkerPath[10..] == Marker;
  }

  /** The control files, the marker and the receipt leave every other file as it is. */
  lemma ControlsAdded(tree: Tree, config: Bytes, profile: Bytes, path: string, request: RestoreRequest, restorer: Restorer)
    requires path in tree && path != MarkerPath && path != ReceiptPath(request.restoreId)
    requires path != WorkspacePath && path != ProfilePath
    ensures var settled := Settled(tree[WorkspacePath := config][ProfilePath := profile], request, restorer);
      path in settled && settled[path] == tree[path]
  {
  }

  /** With sources included, every listed source is back too, with the digest the registry records for it. */
  lemma SourcesComeBack(
      w: Workspace, mode: SourceMode, l: Listed, request: RestoreRequest, restorer: Restorer, codec: Codec)
    requires SourcesFor(w, true, codec).Ok? && l in AssetsFor(w)
    ensures var tree := Settled(WorkspaceTree(w, true, mode, request, restorer, codec), request, restorer);
      PathOf(l) in tree && codec.sha(tree[PathOf(l)]) == l.asset.sha256
  {
    var assets := AssetsFor(w);
    var path, sources := PathOf(l), SourcesFor(w, true, codec).value;
    SourcePayloadContents(assets, |assets|, w.sources, codec);
    var i :| 0 <= i < |assets| && assets[i] == l;
    assert Bound(assets[i], sources, codec);
    ArchivePathName(l.asset.rootId, l.asset.relativePath);
    SourcePathApart(path, request.restoreId);
    var tree := CarriedFiles(w, true, codec);
    assert path in tree && tree[path] == sources[path];
    ControlsAdded(tree, restorer.config(w.config, mode, request.mappings), w.profile, path, request, restorer);
  }

  /**
   Backup, then restore under a fresh id: exactly when the workspace can come back the archive is
   restorable, and then the restored tree holds every carried knowledge file and every listed source.
   */
  lemma EveryByteComesBack(
      p: Plan, w: Workspace, withSources: bool, rest: string, request: RestoreRequest, restorer: Restorer,
      sha: seq<File> -> string, codec: Codec, reader: Reader)
    requires Planned(p, w, withSources, codec, reader) && RoundTrips(codec) && FoldKeepsSlashes(codec)
    requires var m := ManifestOf(p, w, reader, rest, codec);
      && WithinLimits(Archive(p, m, codec), reader) && codec.manifestOk(m)
      && request.expectedSha == sha(Archive(p, m, codec))
    requires reader.safeName(ManifestName)
    requires ReceiptPath(request.restoreId) !in KnowledgePayload(w.knowledge)
    requires SourcesFor(w, withSources, codec).Ok? && ComesBack(w, withSources, p.mode, request, restorer, codec)
    ensures var m := ManifestOf(p, w, reader, rest, codec);
      var files := Archive(p, m, codec);
      && Inspect(files, reader, codec) == Ok(m)
      && Restorable(files, request, restorer, sha, codec, reader)
      && LayoutFault(files, m, request, codec).None?
      && (forall relative :: relative in w.knowledge && Carried(relative) ==>
            Holds(RestoredTree(files, m, request, restorer, codec), "knowledge/" + relative, w.knowledge[relative]))
      && (forall l :: l in AssetsFor(w) && withSources ==>
            Recorded(RestoredTree(files, m, request, restorer, codec), l, codec))
  {
    RestoreUndoesBackup(p, w, withSources, rest, request, restorer, sha, codec, reader);
    PlannedArchiveInspects(p, w, withSources, rest, codec, reader);
    var m := ManifestOf(p, w, reader, rest, codec);
    var tree := RestoredTree(Archive(p, m, codec), m, request, restorer, codec);
    forall relative | relative in w.knowledge && Carried(relative)
      ensures Holds(tree, "knowledge/" + relative, w.knowledge[relative])
    {
      CarriedPath(w.knowledge, relative);
      KnowledgeComesBack(w, withSources, p.mode, relative, request, restorer, codec);
    }
    forall l | l in AssetsFor(w) && withSources ensures Recorded(tree, l, codec) {
      SourcesComeBack(w, p.mode, l, request, restorer, codec);
    }
  }

  predicate Holds(tree: Tree, path: string, content: Bytes) { path in tree && tree[path] == content }

  predicate Recorded(tree: Tree, l: Listed, codec: Codec) {
    PathOf(l) in tree && codec.sha(tree[PathOf(l)]) == l.asset.sha256
  }

  // ----- The backup that inspects and cannot be restored -----

  /** A workspace without papers or knowledge. */
  const Bare := Workspace(Config("w", [], ""), [], map[], [], map[])

  lemma TwoNamesFit(keys: set<string>, a: string, b: string, codec: Codec, reader: Reader)
    requires keys == {a, b} && codec.casefold(a) != codec.casefold(b) && reader.safeName(a) && reader.safeName(b)
    ensures CollisionFree(Listing.Sorted(keys), codec)
    ensures forall name :: name in Listing.Sorted(keys) ==> reader.safeName(name)
  {
    var names := Listing.Sorted(keys);
    Listing.SortedListsSet(keys);
    forall i, j | 0 <= i < j < |names| ensures codec.casefold(names[i]) != codec.casefold(names[j]) {
      assert names[i] in names && names[j] in names;
    }
  }

  lemma NothingKnown(knowledge: Payload)
    requires knowledge == map[]
    ensures KnowledgePayload(knowledge) == map[]
  {
    assert KnowledgePayload(knowledge).Keys == {};
  }

  lemma BareIsPlanned(codec: Codec, reader: Reader)
    requires reader.safeName(ConfigName) && reader.safeName(ProfileName) && codec.casefold(ConfigName) != codec.casefold(ProfileName)
    ensures PlanOf(Bare, true, codec, reader).Ok?
    ensures AssetsFor(Bare) == []
  {
    AssetsListed(Bare);
    NothingKnown(Bare.knowledge);
    var control := ControlPayload(Bare, codec);
    TwoNamesFit(control.Keys, ConfigName, ProfileName, codec, reader);
    assert control + map[] + map[] == control;
  }

  /**
   The empty workspace, backed up with its sources: the archive passes inspection with every root
   declared, and no restore accepts it, because it has no source bytes to bring back.
   */
  lemma EmptyBackupIsRefused(
      rest: string, request: RestoreRequest, restorer: Restorer, sha: seq<File> -> string, codec: Codec, reader: Reader)
    requires RoundTrips(codec) && FoldKeepsSlashes(codec) && codec.casefold(ConfigName) != codec.casefold(ProfileName)
    requires reader.safeName(ConfigName) && reader.safeName(ProfileName) && reader.safeName(ManifestName)
    requires codec.configOk(Bare.config) && codec.profileOk(Bare.profile)
    ensures PlanOf(Bare, true, codec, reader).Ok?
    ensures var p := PlanOf(Bare, true, codec, reader).value;
      var m := ManifestOf(p, Bare, reader, rest, codec);
      var files := Archive(p, m, codec);
      && RootsDeclared(p, Bare)
      && (WithinLimits(files, reader) && codec.manifestOk(m) ==>
            && Inspect(files, reader, codec) == Ok(m)
            && !Restorable(files, request, restorer, sha, codec, reader)
            && (request.mappings == map[] ==> LayoutFault(files, m, request, codec) == Some(SourcesMissing)))
  {
    BareIsPlanned(codec, reader);
    var p := PlanOf(Bare, true, codec, reader).value;
    var m := ManifestOf(p, Bare, reader, rest, codec);
    RootsOfAssets(p, Bare, true, codec, reader);
    LaidOutIsWorkspace(p, Bare, m, true, request, restorer, codec, reader);
    if WithinLimits(Archive(p, m, codec), reader) && codec.manifestOk(m) {
      PlannedArchiveInspects(p, Bare, true, rest, codec, reader);
    }
  }
}
