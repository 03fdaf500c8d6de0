/** The archive of an export plan passes the validation an import runs. */
module ExchangeAcceptance {
  import opened Wrappers
  import opened ExchangeExport
  import opened ExchangeBundle
  import opened ExchangeAgreement
  import Sorting
  import Listing

  // ----- Data files and control files -----

  lemma DataFilesFree(envelopes: seq<Envelope>, s: SourceSet, f: Format)
    requires SourcesBound(s, f)
    ensures ManifestName !in DataFiles(envelopes, s, f) && ReceiptName !in DataFiles(envelopes, s, f)
    ensures forall path :: path in DataFiles(envelopes, s, f) ==> DataPath(path)
  {
    forall path | path in DataFiles(envelopes, s, f) ensures DataPath(path) && path != ManifestName && path != ReceiptName {
      DataPaths(envelopes, s, f, path);
    }
  }

  /** An archive is its data files plus two control files. */
  lemma WithControls(data: Files, manifest: Bytes, receipt: Bytes)
    requires ManifestName !in data && ReceiptName !in data
    ensures var files := data[ManifestName := manifest][ReceiptName := receipt];
      && DataOf(files) == data
      && ManifestName in files && files[ManifestName] == manifest
      && ReceiptName in files && files[ReceiptName] == receipt
      && forall path :: path in data ==> path in files && files[path] == data[path]
  {
    IndexNotControl();
    var files := data[ManifestName := manifest][ReceiptName := receipt];
    assert DataOf(files) == data;
  }

  // ----- Inventory -----

  lemma InventoryAt(files: Files, counts: map<string, nat>, sources: nat, f: Format, i: nat)
    requires i < |Listing.Sorted(files.Keys)|
    ensures |InventoryOf(files, counts, sources, f)| == |Listing.Sorted(files.Keys)|
    ensures var path := Listing.Sorted(files.Keys)[i];
      path in files && InventoryOf(files, counts, sources, f)[i] == Declare(path, files[path], counts, sources, f)
  {
    Listing.SortedMembers(files.Keys);
    assert Listing.Sorted(files.Keys)[i] in Listing.Sorted(files.Keys);
  }

  lemma InventoryPaths(files: Files, counts: map<string, nat>, sources: nat, f: Format)
    ensures PathsOf(InventoryOf(files, counts, sources, f)) == files.Keys
    ensures PathsDistinct(InventoryOf(files, counts, sources, f))
  {
    var paths, entries := Listing.Sorted(files.Keys), InventoryOf(files, counts, sources, f);
    Listing.SortedListsSet(files.Keys);
    forall path | path in files ensures path in PathsOf(entries) {
      var i :| 0 <= i < |paths| && paths[i] == path;
      InventoryAt(files, counts, sources, f, i);
      assert entries[i] in entries;
    }
    forall path | path in PathsOf(entries) ensures path in files {
      var i :| 0 <= i < |entries| && entries[i].path == path;
      InventoryAt(files, counts, sources, f, i);
    }
    forall i, j | 0 <= i < j < |entries| ensures entries[i].path != entries[j].path {
      InventoryAt(files, counts, sources, f, i);
      InventoryAt(files, counts, sources, f, j);
      assert paths[i] != paths[j];
    }
  }

  lemma InventoryContents(files: Files, counts: map<string, nat>, sources: nat, f: Format)
    ensures PathsOf(InventoryOf(files, counts, sources, f)) == files.Keys
    ensures PathsDistinct(InventoryOf(files, counts, sources, f))
    ensures forall d :: d in InventoryOf(files, counts, sources, f) ==>
      d.path in files && d == Declare(d.path, files[d.path], counts, sources, f)
  {
    InventoryPaths(files, counts, sources, f);
    var entries := InventoryOf(files, counts, sources, f);
    forall d | d in entries ensures d.path in files && d == Declare(d.path, files[d.path], counts, sources, f) {
      var i :| 0 <= i < |entries| && entries[i] == d;
      InventoryAt(files, counts, sources, f, i);
    }
  }

  // ----- Records -----

  lemma RecordsPathsListed(envelopes: seq<Envelope>, s: SourceSet, f: Format)
    requires SourcesBound(s, f)
    ensures (set path | path in DataFiles(envelopes, s, f) && IsRecords(path)) == RecordsPaths(envelopes)
  {
    var data := DataFiles(envelopes, s, f);
    IndexNotControl();
    forall path ensures path in data && IsRecords(path) <==> path in RecordsPaths(envelopes) {
      if path in RecordsPaths(envelopes) {
        RecordsPathsAreRecords(envelopes, path);
        assert path in RecordFiles(envelopes, f);
      }
      if path in data && IsRecords(path) {
        DataPathCases(envelopes, s, f, path);
        if path in s.files {
          SourceNotControl(path);
        }
      }
    }
  }

  lemma RecordsFileContent(envelopes: seq<Envelope>, s: SourceSet, f: Format, path: string)
    requires SourcesBound(s, f) && path in RecordsPaths(envelopes)
    ensures path in DataFiles(envelopes, s, f)
    ensures DataFiles(envelopes, s, f)[path] == f.writeRecords(Group(envelopes, KindOf(path)))
  {
    RecordsPathsAreRecords(envelopes, path);
    RecordsNotControl(path);
    assert path in RecordFiles(envelopes, f);
    assert path !in s.files;
  }

  lemma PathAt(envelopes: seq<Envelope>, i: nat)
    requires i < |Listing.Sorted(RecordsPaths(envelopes))|
    ensures var path := Listing.Sorted(RecordsPaths(envelopes))[i];
      IsRecords(path) && KindOf(path) in KindsOf(envelopes) && path == RecordsPath(KindOf(path))
  {
    var paths := Listing.Sorted(RecordsPaths(envelopes));
    Listing.SortedMembers(RecordsPaths(envelopes));
    assert paths[i] in paths;
    RecordsPathsAreRecords(envelopes, paths[i]);
  }

  lemma KindHasPath(envelopes: seq<Envelope>, kind: string) returns (i: nat)
    requires kind in KindsOf(envelopes)
    ensures i < |Listing.Sorted(RecordsPaths(envelopes))| && Listing.Sorted(RecordsPaths(envelopes))[i] == RecordsPath(kind)
    ensures KindOf(RecordsPath(kind)) == kind
  {
    var paths := Listing.Sorted(RecordsPaths(envelopes));
    Listing.SortedMembers(RecordsPaths(envelopes));
    RecordsPathKind(kind);
    assert RecordsPath(kind) in RecordsPaths(envelopes);
    assert RecordsPath(kind) in paths;
    i :| 0 <= i < |paths| && paths[i] == RecordsPath(kind);
  }

  lemma PathKindsDistinct(envelopes: seq<Envelope>)
    ensures DistinctKinds(KindsAt(Listing.Sorted(RecordsPaths(envelopes))))
  {
    var paths := Listing.Sorted(RecordsPaths(envelopes));
    var kinds := KindsAt(paths);
    Listing.SortedAscends(RecordsPaths(envelopes));
    forall i, j | 0 <= i < j < |kinds| ensures kinds[i] != kinds[j] {
      PathAt(envelopes, i);
      PathAt(envelopes, j);
      assert paths[i] != paths[j];
    }
  }

  lemma PathKinds(envelopes: seq<Envelope>, kind: string)
    ensures kind in KindsAt(Listing.Sorted(RecordsPaths(envelopes))) <==> kind in KindsOf(envelopes)
    ensures kind in (set path | path in Listing.Sorted(RecordsPaths(envelopes)) :: KindOf(path)) <==> kind in KindsOf(envelopes)
  {
    var paths := Listing.Sorted(RecordsPaths(envelopes));
    var kinds := KindsAt(paths);
    if kind in KindsOf(envelopes) {
      var i := KindHasPath(envelopes, kind);
      assert kinds[i] == kind && paths[i] in paths;
    }
    if kind in kinds {
      var i :| 0 <= i < |kinds| && kinds[i] == kind;
      PathAt(envelopes, i);
    }
    if path :| path in paths && KindOf(path) == kind {
      var i :| 0 <= i < |paths| && paths[i] == path;
      PathAt(envelopes, i);
    }
  }

  /** The envelopes as an import reads them: kind by kind, each kind sorted. */
  ghost function Regrouped(envelopes: seq<Envelope>): seq<Envelope> {
    var kinds := KindsAt(Listing.Sorted(RecordsPaths(envelopes)));
    GroupsIn(kinds, envelopes, |kinds|)
  }

  lemma RegroupedContents(envelopes: seq<Envelope>)
    ensures multiset(Regrouped(envelopes)) == multiset(envelopes)
    ensures |Regrouped(envelopes)| == |envelopes|
    ensures Counts(Listing.Sorted(RecordsPaths(envelopes)), Regrouped(envelopes)) == KindCounts(envelopes)
  {
    var paths := Listing.Sorted(RecordsPaths(envelopes));
    PathKindsDistinct(envelopes);
    forall kind
      ensures kind in KindsAt(paths) <==> kind in KindsOf(envelopes)
      ensures kind in (set path | path in paths :: KindOf(path)) <==> kind in KindsOf(envelopes)
    {
      PathKinds(envelopes, kind);
    }
    forall e | e in envelopes ensures e.kind in KindsAt(paths) {
      assert e.kind in KindsOf(envelopes);
    }
    GroupsPermute(KindsAt(paths), envelopes);
    Sorting.SameContents(Regrouped(envelopes), envelopes);
    forall kind | kind in KindsOf(envelopes) ensures |OfKind(Regrouped(envelopes), kind)| == |Group(envelopes, kind)| {
      RegroupedCounts(Regrouped(envelopes), envelopes, kind);
      GroupContents(envelopes, kind);
    }
  }

  /** What the plan's records must satisfy, and the reader's budget. */
  ghost predicate Fits(envelopes: seq<Envelope>, s: SourceSet, f: Format, maxRecords: nat) {
    && RoundTrips(f) && SourcesBound(s, f)
    && |envelopes| <= maxRecords && |s.descriptors| <= maxRecords
    && forall e :: e in envelopes ==> PlannedEnvelope(e, f.codec)
  }

  lemma RecordsRead(envelopes: seq<Envelope>, s: SourceSet, f: Format, maxRecords: nat, files: Files)
    requires Fits(envelopes, s, f, maxRecords)
    requires forall path :: path in DataFiles(envelopes, s, f) ==> path in files && files[path] == DataFiles(envelopes, s, f)[path]
    ensures var paths := Listing.Sorted(RecordsPaths(envelopes));
      && (forall path :: path in paths ==> path in files)
      && ReadFiles(paths, files, f, maxRecords) == Some(Regrouped(envelopes))
  {
    var paths := Listing.Sorted(RecordsPaths(envelopes));
    Listing.SortedMembers(RecordsPaths(envelopes));
    forall path | path in paths ensures path in files {
      RecordsPathsAreRecords(envelopes, path);
      RecordsFileContent(envelopes, s, f, path);
    }
    var parts, kinds := ReadEach(paths, files, f, maxRecords), KindsAt(paths);
    forall i | 0 <= i < |paths| ensures parts[i] == Some(Group(envelopes, kinds[i])) {
      assert paths[i] in paths;
      PathAt(envelopes, i);
      RecordsFileContent(envelopes, s, f, paths[i]);
      GroupReads(envelopes, KindOf(paths[i]), f, maxRecords);
    }
    GroupsGathered(parts, kinds, envelopes, |paths|);
  }

  // ----- Sources -----

  lemma SourcesRead(envelopes: seq<Envelope>, s: SourceSet, f: Format, maxRecords: nat, files: Files)
    requires Fits(envelopes, s, f, maxRecords) && DataOf(files) == DataFiles(envelopes, s, f)
    ensures ReadSources(files, f, maxRecords) == Some(s.descriptors)
  {
    IndexNotControl();
    IndexContent(envelopes, s, f);
    assert IndexName in files <==> IndexName in DataOf(files);
    assert IndexName in files ==> files[IndexName] == DataOf(files)[IndexName];
    forall d | d in s.descriptors ensures SourceBound(d, files, f) {
      assert SourceBound(d, s.files, f);
      assert d.archivePath in DataFiles(envelopes, s, f);
      assert DataFiles(envelopes, s, f)[d.archivePath] == s.files[d.archivePath];
      assert files[d.archivePath] == DataOf(files)[d.archivePath];
    }
  }

  lemma IndexContent(envelopes: seq<Envelope>, s: SourceSet, f: Format)
    requires SourcesBound(s, f)
    ensures IndexName in DataFiles(envelopes, s, f) <==> s.descriptors != []
    ensures s.descriptors != [] ==> DataFiles(envelopes, s, f)[IndexName] == f.writeIndex(s.descriptors)
  {
    IndexNotControl();
    if IndexName in RecordsPaths(envelopes) {
      RecordsPathsAreRecords(envelopes, IndexName);
    }
  }

  // ----- The whole archive -----

  lemma ContentsAccepted(h: Header, envelopes: seq<Envelope>, s: SourceSet, f: Format, maxRecords: nat)
    requires Fits(envelopes, s, f, maxRecords)
    ensures Contents(ManifestOf(h, envelopes, s, f), Archive(h, envelopes, s, f), f, maxRecords) ==
      Ok(Bundle(ManifestOf(h, envelopes, s, f), Regrouped(envelopes), s.descriptors))
  {
    var m, files, data := ManifestOf(h, envelopes, s, f), Archive(h, envelopes, s, f), DataFiles(envelopes, s, f);
    DataFilesFree(envelopes, s, f);
    WithControls(data, f.writeManifest(m), f.writeReceipt(ReceiptOf(m, f, h.rest)));
    RecordsPathsListed(envelopes, s, f);
    RecordsRead(envelopes, s, f, maxRecords, files);
    SourcesRead(envelopes, s, f, maxRecords, files);
    RegroupedContents(envelopes);
    InventoryContents(data, KindCounts(envelopes), |s.descriptors|, f);
    forall d | d in m.entries ensures Classified(d, KindCounts(envelopes), |s.descriptors|) {
      assert DataPath(d.path);
    }
  }

  lemma ControlsRead(h: Header, envelopes: seq<Envelope>, s: SourceSet, f: Format)
    requires RoundTrips(f) && SourcesBound(s, f)
    ensures var m := ManifestOf(h, envelopes, s, f);
      var files := Archive(h, envelopes, s, f);
      && (f.manifestOk(m) ==> Control(files, ManifestName, f.readManifest, f.manifestOk) == Some(m))
      && (f.receiptOk(ReceiptOf(m, f, h.rest)) ==>
            Control(files, ReceiptName, f.readReceipt, f.receiptOk) == Some(ReceiptOf(m, f, h.rest)))
      && DataOf(files) == DataFiles(envelopes, s, f)
      && ManifestName in files && Binds(ReceiptOf(m, f, h.rest), m, files[ManifestName], f)
  {
    var m := ManifestOf(h, envelopes, s, f);
    DataFilesFree(envelopes, s, f);
    WithControls(DataFiles(envelopes, s, f), f.writeManifest(m), f.writeReceipt(ReceiptOf(m, f, h.rest)));
  }

  lemma InventoryAccepted(h: Header, envelopes: seq<Envelope>, s: SourceSet, f: Format)
    requires SourcesBound(s, f)
    ensures var m := ManifestOf(h, envelopes, s, f);
      var files := Archive(h, envelopes, s, f);
      && PathsOf(m.entries) == DataOf(files).Keys && PathsDistinct(m.entries)
      && forall d :: d in m.entries ==> EntryMatches(d, files, f)
  {
    var m := ManifestOf(h, envelopes, s, f);
    var data := DataFiles(envelopes, s, f);
    DataFilesFree(envelopes, s, f);
    WithControls(data, f.writeManifest(m), f.writeReceipt(ReceiptOf(m, f, h.rest)));
    InventoryContents(data, KindCounts(envelopes), |s.descriptors|, f);
  }

  /**
   Within the reader's record budget, every archive assembled from an export plan passes validation,
   and yields exactly the plan's records, its sources and its manifest.
   */
  lemma PlannedArchiveValidates(h: Header, envelopes: seq<Envelope>, s: SourceSet, f: Format, maxRecords: nat)
    requires Fits(envelopes, s, f, maxRecords)
    requires f.manifestOk(ManifestOf(h, envelopes, s, f))
    requires f.receiptOk(ReceiptOf(ManifestOf(h, envelopes, s, f), f, h.rest))
    ensures Validate(Archive(h, envelopes, s, f), f, maxRecords) ==
      Ok(Bundle(ManifestOf(h, envelopes, s, f), Regrouped(envelopes), s.descriptors))
    ensures multiset(Regrouped(envelopes)) == multiset(envelopes)
  {
    ControlsRead(h, envelopes, s, f);
    InventoryAccepted(h, envelopes, s, f);
    ContentsAccepted(h, envelopes, s, f, maxRecords);
    RegroupedContents(envelopes);
  }

  /** Export, then import into the unchanged workspace: every record arrives, and as an exact duplicate. */
  lemma ExportReimports(
      h: Header, entries: seq<Entry>, s: SourceSet, f: Format, maxRecords: nat, matches: Envelope -> Option<string>)
    requires UniqueKeyed(entries) && ValidEntries(entries, f.codec) && Select(entries, h.scope).Ok?
    requires var selected := Select(entries, h.scope).value;
      var envelopes := Envelopes(h.originId, selected, f.codec);
      && envelopes.Ok? && RoundTrips(f) && SourcesBound(s, f)
      && |envelopes.value| <= maxRecords && |s.descriptors| <= maxRecords
      && f.manifestOk(ManifestOf(h, envelopes.value, s, f))
      && f.receiptOk(ReceiptOf(ManifestOf(h, envelopes.value, s, f), f, h.rest))
    ensures var selected := Select(entries, h.scope).value;
      var envelopes := Envelopes(h.originId, selected, f.codec).value;
      var r := Validate(Archive(h, envelopes, s, f), f, maxRecords);
      && r.Ok? && multiset(r.value.envelopes) == multiset(envelopes)
      && forall e :: e in r.value.envelopes ==>
           ClassifyEnvelope(e, Local(h.originId, entries, |entries|, f.codec), matches) ==
           Conflict(e, ExactLocalDuplicate, Some(e.recordId))
  {
    var selected := Select(entries, h.scope).value;
    var envelopes := Envelopes(h.originId, selected, f.codec).value;
    PlannedEnvelopes(h.originId, entries, h.scope, f.codec);
    PlannedArchiveValidates(h, envelopes, s, f, maxRecords);
    Sorting.SameContents(Regrouped(envelopes), envelopes);
    forall e | e in Regrouped(envelopes)
      ensures ClassifyEnvelope(e, Local(h.originId, entries, |entries|, f.codec), matches) ==
        Conflict(e, ExactLocalDuplicate, Some(e.recordId))
    {
      ReimportIsExact(h.originId, entries, h.scope, f.codec, matches, e);
    }
  }
}
