/** The loops that plan a backup and inspect an archive. */
module BackupPlanning {
  import opened Wrappers
  import opened BackupArchive
  import opened BackupPlan
  import Sorting
  import Listing

  /** The bytes of every listed source, or the first reason a source cannot be included. */
  method CollectSources(assets: seq<Listed>, withSources: bool, sources: map<(string, string), Bytes>, codec: Codec)
      returns (r: Result<Payload, PlanError>)
    ensures r == SourcePayload(assets, |assets|, withSources, sources, codec)
  {
    var payload: Payload := map[];
    for i := 0 to |assets|
      invariant SourcePayload(assets, i, withSources, sources, codec) == Ok(payload)
    {
      if withSources {
        var next := AddSource(payload, assets[i], sources, codec);
        if next.Err? {
          FailureStays(assets, i + 1, |assets|, sources, codec);
          return next;
        }
        payload := next.value;
      }
    }
    r := Ok(payload);
  }

  lemma {:induction false} FailureStays(
      assets: seq<Listed>, i: nat, n: nat, sources: map<(string, string), Bytes>, codec: Codec)
    requires i <= n <= |assets| && SourcePayload(assets, i, true, sources, codec).Err?
    ensures SourcePayload(assets, n, true, sources, codec) == SourcePayload(assets, i, true, sources, codec)
  {
    if i < n {
      FailureStays(assets, i, n - 1, sources, codec);
    }
  }

  method CollectAssets(papers: seq<Paper>) returns (assets: seq<Listed>)
    ensures assets == ListAssets(papers)
  {
    assets := [];
    for i := 0 to |papers|
      invariant assets + ListAssets(papers[i..]) == ListAssets(papers)
    {
      var found := AssetsOf(papers[i]);
      var listed := seq(|found|, k requires 0 <= k < |found| => Listed(papers[i].paperId, found[k]));
      assert papers[i..][1..] == papers[i + 1..];
      assert assets + (listed + ListAssets(papers[i + 1..])) == assets + listed + ListAssets(papers[i + 1..]);
      assets := assets + listed;
    }
    assert papers[|papers|..] == [];
  }

  method PlanBackup(w: Workspace, withSources: bool, codec: Codec, reader: Reader) returns (r: Result<Plan, PlanError>)
    ensures r == PlanOf(w, withSources, codec, reader)
  {
    var assets := CollectAssets(Sorting.Sorted(w.papers, PaperLeq));
    var sources := CollectSources(assets, withSources, w.sources, codec);
    if sources.Err? {
      return Err(sources.error);
    }
    var payload := ControlPayload(w, codec) + KnowledgePayload(w.knowledge) + sources.value;
    var names := Listing.List(payload.Keys);
    if (exists i :: 0 <= i < |names| && !reader.safeName(names[i])) || !CollisionFree(names, codec) {
      return Err(PathsCollide);
    }
    r := Ok(Plan(if withSources then Included else InventoryOnly, payload, Inventory(assets, withSources)));
  }

  /** The archive of a payload: its entries by name. */
  method WriteArchive(payload: Payload) returns (files: seq<File>)
    ensures files == FilesOf(payload)
  {
    var names := Listing.List(payload.Keys);
    Listing.SortedMembers(payload.Keys);
    files := [];
    for i := 0 to |names|
      invariant |files| == i
      invariant forall k :: 0 <= k < i ==> names[k] in payload && files[k] == File(names[k], payload[names[k]])
    {
      assert names[i] in names;
      files := files + [File(names[i], payload[names[i]])];
    }
  }

  method CheckSizes(files: seq<File>, reader: Reader, codec: Codec)
      returns (fault: Option<InspectError>, entries: seq<Descriptor>)
    ensures fault == SizeFault(files, |files|, reader)
    ensures fault.None? ==> entries == DescribeAll(files, codec)
  {
    var total := 0;
    entries := [];
    for i := 0 to |files|
      invariant total == TotalBytes(files, i) && SizeFault(files, i, reader).None?
      invariant |entries| == i && forall k :: 0 <= k < i ==> entries[k] == Describe(files[k], codec)
    {
      var size := |files[i].content|;
      total := total + size;
      if size > reader.maxEntryBytes {
        fault := Some(EntryTooLarge);
      } else if total > reader.maxTotalBytes {
        fault := Some(TotalTooLarge);
      } else if IsControl(files[i].name) && size > reader.maxControlBytes {
        fault := Some(ControlTooLarge);
      } else {
        fault := None;
      }
      if fault.Some? {
        FaultStays(files, i + 1, |files|, reader);
        return;
      }
      entries := entries + [Describe(files[i], codec)];
    }
    fault := None;
  }

  lemma {:induction false} FaultStays(files: seq<File>, i: nat, n: nat, reader: Reader)
    requires i <= n <= |files| && SizeFault(files, i, reader).Some?
    ensures SizeFault(files, n, reader) == SizeFault(files, i, reader)
  {
    if i < n {
      FaultStays(files, i, n - 1, reader);
    }
  }

  method InspectArchive(files: seq<File>, reader: Reader, codec: Codec) returns (r: Result<Manifest, InspectError>)
    ensures r == Inspect(files, reader, codec)
  {
    if reader.archiveBytes(files) <= 0 || reader.archiveBytes(files) > reader.maxArchiveBytes {
      return Err(ArchiveSize);
    }
    if files == [] || |files| > reader.maxEntries {
      return Err(EntryCount);
    }
    if exists i :: 0 <= i < |files| && !reader.safeName(files[i].name) {
      return Err(UnsafeName);
    }
    if !CanonicalNames(NamesOf(files), codec) {
      return Err(NotCanonical);
    }
    var fault, entries := CheckSizes(files, reader, codec);
    if fault.Some? {
      return Err(fault.value);
    }
    r := CheckContents(files, entries, reader, codec);
  }

  method CheckContents(files: seq<File>, entries: seq<Descriptor>, reader: Reader, codec: Codec)
      returns (r: Result<Manifest, InspectError>)
    requires ShapeFault(files, reader, codec).None? && entries == DescribeAll(files, codec)
    ensures r == Inspect(files, reader, codec)
  {
    var manifest := ReadManifest(files, codec);
    if manifest.None? || !codec.manifestOk(manifest.value) {
      return Err(ManifestInvalid);
    }
    var m := manifest.value;
    if m.format != Format || m.profileId != reader.profileId {
      return Err(UnsupportedFormat);
    }
    var payload := ActualPayload(entries);
    if m.entries != payload {
      return Err(InventoryMismatch);
    }
    if {ManifestName} + PathsOf(m.entries) != PathsOf(entries) {
      return Err(UnlistedPayload);
    }
    var control := ControlFault(files, m, payload, codec);
    r := if control.Some? then Err(control.value) else Ok(m);
  }
}
