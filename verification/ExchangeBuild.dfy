/** The export and import passes over exchange bundles, and the all-or-nothing build. */
module ExchangeBuild {
  import opened Wrappers
  import opened StringOrder
  import opened Selection
  import opened ExchangeExport
  import opened ExchangeBundle
  import opened ExchangeAgreement
  import opened ExchangeConflicts
  import Sorting
  import Listing

  // ----- Collecting sources -----

  /** A source asset and the bytes found for it; no bytes when it cannot be resolved to a regular PDF path. */
  datatype Asset = Asset(
    paperId: string,
    assetId: Option<string>,
    role: string,
    fingerprint: string,
    isCurrent: bool,
    content: Option<Bytes>)

  predicate Usable(a: Asset, f: Format) {
    a.isCurrent && a.content.Some? && f.codec.sha(a.content.value) == a.fingerprint && f.isPdf(a.content.value)
  }

  function Describe(a: Asset): Source
    requires a.content.Some?
  {
    Source(a.paperId, a.assetId, a.role, a.fingerprint, SourcePath(a.fingerprint), |a.content.value|)
  }

  /** Every file sits under its own digest, and every descriptor is bound to its file. */
  ghost predicate Collected(s: SourceSet, f: Format) {
    && SourcesBound(s, f)
    && (forall d :: d in s.descriptors ==> d.archivePath == SourcePath(d.fingerprint))
    && (forall path :: path in s.files ==> path == SourcePath(f.codec.sha(s.files[path])))
  }

  lemma SourcePathInjective(a: string, b: string)
    requires SourcePath(a) == SourcePath(b)
    ensures a == b
  {
    var x, y := SourcePath(a), SourcePath(b);
    assert x[15..|x| - 4] == a && y[15..|y| - 4] == b;
  }

  lemma SourcePathStarts(digest: string)
    ensures IsSourcePath(SourcePath(digest))
  {
    assert SourcePath(digest)[..15] == "sources/sha256/";
  }

  function AddFile(files: Files, path: string, content: Bytes): Files {
    if path in files then files else files[path := content]
  }

  /** One more asset: its descriptor, and its bytes unless a file of that digest is there already. */
  function AddAsset(s: SourceSet, a: Asset, f: Format): SourceSet {
    if !Usable(a, f) then s
    else SourceSet(AddFile(s.files, SourcePath(a.fingerprint), a.content.value), s.descriptors + [Describe(a)])
  }

  function SourcesOf(assets: seq<Asset>, n: nat, f: Format): SourceSet
    requires n <= |assets|
  {
    if n == 0 then SourceSet(map[], []) else AddAsset(SourcesOf(assets, n - 1, f), assets[n - 1], f)
  }

  /** Archiving one more usable asset keeps everything bound: equal digests mean equal bytes. */
  lemma CollectedStep(s: SourceSet, a: Asset, f: Format)
    requires Collected(s, f) && Usable(a, f) && Injective(f.codec.sha) && f.sourceOk(Describe(a))
    ensures Collected(AddAsset(s, a, f), f)
  {
    var path := SourcePath(a.fingerprint);
    var files := AddFile(s.files, path, a.content.value);
    SourcePathStarts(a.fingerprint);
    if path in s.files {
      SourcePathInjective(a.fingerprint, f.codec.sha(s.files[path]));
      assert s.files[path] == a.content.value;
    }
    assert SourceBound(Describe(a), files, f);
    forall d | d in s.descriptors ensures SourceBound(d, files, f) {
      assert SourceBound(d, s.files, f);
    }
  }

  /** Archives every usable asset under its digest; the others are reported missing. */
  method CollectSources(assets: seq<Asset>, f: Format) returns (r: Result<SourceSet, ExportError>, missing: seq<Asset>)
    requires Injective(f.codec.sha)
    ensures r.Ok? ==> Collected(r.value, f) && r.value == SourcesOf(assets, |assets|, f)
    ensures r.Ok? ==> missing == Filter(assets, (a: Asset) => !Usable(a, f))
    ensures r.Ok? ==> |r.value.descriptors| + |missing| == |assets|
    ensures r.Err? ==> exists a :: a in assets && Usable(a, f) && !f.sourceOk(Describe(a))
  {
    var s := SourceSet(map[], []);
    missing := [];
    for i := 0 to |assets|
      invariant Collected(s, f) && s == SourcesOf(assets, i, f)
      invariant missing == Filter(assets[..i], (a: Asset) => !Usable(a, f))
      invariant |s.descriptors| + |missing| == i
    {
      var a := assets[i];
      assert assets[..i + 1][..i] == assets[..i];
      if Usable(a, f) {
        if !f.sourceOk(Describe(a)) {
          return Err(SourceRefused), missing;
        }
        CollectedStep(s, a, f);
        s := SourceSet(AddFile(s.files, SourcePath(a.fingerprint), a.content.value), s.descriptors + [Describe(a)]);
      } else {
        missing := missing + [a];
      }
    }
    assert assets[..|assets|] == assets;
    r := Ok(s);
  }

  // ----- Envelopes -----

  method BuildEnvelopes(workspaceId: string, selected: seq<Entry>, codec: Codec) returns (r: Result<seq<Envelope>, ExportError>)
    ensures r == Envelopes(workspaceId, selected, codec)
  {
    r := Ok([]);
    ghost var results := Built(workspaceId, selected, codec);
    for i := 0 to |selected|
      invariant r == Sequenced(results, i)
    {
      var next := BuildEnvelope(workspaceId, selected[i], codec);
      assert results[i] == next;
      if r.Ok? {
        r := if next.Ok? then Ok(r.value + [next.value]) else Err(next.error);
      }
    }
  }

  /** The local envelopes by kind and id, and the local papers in record order. */
  method LocalEnvelopes(workspaceId: string, entries: seq<Entry>, codec: Codec)
      returns (local: map<LocalKey, Envelope>, papers: seq<Envelope>)
    ensures local == Local(workspaceId, entries, |entries|, codec)
    ensures papers == Papers(workspaceId, entries, |entries|, codec)
  {
    local, papers := map[], [];
    for i := 0 to |entries|
      invariant local == Local(workspaceId, entries, i, codec) && papers == Papers(workspaceId, entries, i, codec)
    {
      var envelope := BuildEnvelope(workspaceId, entries[i], codec);
      if envelope.Ok? {
        local := local[LocalKey(envelope.value.kind, envelope.value.recordId) := envelope.value];
        if envelope.value.kind == IdentityKind {
          papers := papers + [envelope.value];
        }
      }
    }
  }

  predicate ConflictLeq(a: Conflict, b: Conflict) {
    if a.envelope.kind != b.envelope.kind then Leq(a.envelope.kind, b.envelope.kind) else EnvelopeLeq(a.envelope, b.envelope)
  }

  function Conflicts(envelopes: seq<Envelope>, local: map<LocalKey, Envelope>, matches: Envelope -> Option<string>): seq<Conflict> {
    seq(|envelopes|, i requires 0 <= i < |envelopes| => ClassifyEnvelope(envelopes[i], local, matches))
  }

  method ClassifyEach(envelopes: seq<Envelope>, local: map<LocalKey, Envelope>, matches: Envelope -> Option<string>)
      returns (found: seq<Conflict>)
    ensures found == Conflicts(envelopes, local, matches)
  {
    found := [];
    for i := 0 to |envelopes|
      invariant |found| == i
      invariant forall k :: 0 <= k < i ==> found[k] == ClassifyEnvelope(envelopes[k], local, matches)
    {
      found := found + [ClassifyEnvelope(envelopes[i], local, matches)];
    }
  }

  lemma ConflictsSorted(envelopes: seq<Envelope>, local: map<LocalKey, Envelope>, matches: Envelope -> Option<string>, c: Conflict)
    requires c in Sorting.Sorted(Conflicts(envelopes, local, matches), ConflictLeq)
    ensures c.envelope in envelopes && c == ClassifyEnvelope(c.envelope, local, matches)
  {
    var found := Conflicts(envelopes, local, matches);
    Sorting.SortedContents(found, ConflictLeq);
    var i :| 0 <= i < |found| && found[i] == c;
  }

  /** How every imported record relates to the local workspace, by kind, id and digest. */
  method ProjectConflicts(envelopes: seq<Envelope>, workspaceId: string, entries: seq<Entry>, codec: Codec, reading: Reading)
      returns (conflicts: seq<Conflict>)
    ensures conflicts == Sorting.Sorted(
      Conflicts(envelopes, Local(workspaceId, entries, |entries|, codec),
                Matcher(Papers(workspaceId, entries, |entries|, codec), reading)),
      ConflictLeq)
    ensures forall c :: c in conflicts ==>
      c.envelope in envelopes && Related(c.envelope, c, entries, workspaceId, codec, reading)
  {
    var local, papers := LocalEnvelopes(workspaceId, entries, codec);
    var matches := Matcher(papers, reading);
    var found := ClassifyEach(envelopes, local, matches);
    conflicts := Sorting.Sorted(found, ConflictLeq);
    forall c | c in conflicts
      ensures c.envelope in envelopes && Related(c.envelope, c, entries, workspaceId, codec, reading)
    {
      ConflictsSorted(envelopes, local, matches, c);
      ConflictsByRecords(c.envelope, workspaceId, entries, codec, reading);
    }
  }

  // ----- Validation -----

  method ReadRecordFiles(paths: seq<string>, files: Files, f: Format, maxRecords: nat) returns (r: Option<seq<Envelope>>)
    requires forall path :: path in paths ==> path in files
    ensures r == ReadFiles(paths, files, f, maxRecords)
  {
    r := Some([]);
    ghost var parts := ReadEach(paths, files, f, maxRecords);
    for i := 0 to |paths|
      invariant r == Gathered(parts, i)
    {
      assert paths[i] in paths;
      var records := ReadFile(paths[i], files[paths[i]], f, maxRecords);
      assert parts[i] == records;
      r := if r.None? || records.None? then None else Some(r.value + records.value);
    }
  }

  method ReadContents(m: Manifest, files: Files, f: Format, maxRecords: nat) returns (r: Result<Bundle, BundleError>)
    ensures r == Contents(m, files, f, maxRecords)
  {
    var records := set path | path in DataOf(files) && IsRecords(path);
    var paths := Listing.List(records);
    Listing.SortedMembers(records);
    var envelopes := ReadRecordFiles(paths, files, f, maxRecords);
    if envelopes.None? {
      return Err(RecordsRefused);
    }
    var sources := ReadSources(files, f, maxRecords);
    if sources.None? {
      return Err(SourcesRefused);
    }
    var counts := Counts(paths, envelopes.value);
    if |envelopes.value| > maxRecords || |envelopes.value| != m.recordCount
      || counts != m.kindCounts || |sources.value| != m.sourceCount {
      return Err(CountsMismatch);
    }
    if exists d :: d in m.entries && !Classified(d, counts, |sources.value|) {
      return Err(Misclassified);
    }
    r := Ok(Bundle(m, envelopes.value, sources.value));
  }

  method ValidateSupportedBundle(files: Files, f: Format, maxRecords: nat) returns (r: Result<Bundle, BundleError>)
    ensures r == Validate(files, f, maxRecords)
  {
    var manifest := Control(files, ManifestName, f.readManifest, f.manifestOk);
    if manifest.None? {
      return Err(ManifestRefused);
    }
    var receipt := Control(files, ReceiptName, f.readReceipt, f.receiptOk);
    if receipt.None? {
      return Err(ReceiptRefused);
    }
    var m := manifest.value;
    if !Binds(receipt.value, m, files[ManifestName], f) {
      return Err(ReceiptUnbound);
    }
    if PathsOf(m.entries) != DataOf(files).Keys || !PathsDistinct(m.entries) {
      return Err(InventoryIncomplete);
    }
    if exists d :: d in m.entries && !EntryMatches(d, files, f) {
      return Err(EntryMismatch);
    }
    r := ReadContents(m, files, f, maxRecords);
  }

  // ----- The build -----

  /** The receipt the workspace keeps of an export. */
  datatype LocalReceipt = LocalReceipt(exportId: string, archiveSha: string, manifestSha: string, rest: string)

  datatype BuildStep =
    | WriteStage | ReadBack | CheckTarget | Publish | PublishedHook | BuildReceipt | ReadReceipt | WriteReceipt | RecordedHook

  datatype BuildError = StageExists | Raised(step: BuildStep) | TargetAppeared | ReceiptBound

  /** What else happens at the target: a file that appears before publication, or takes the place of the published one. */
  datatype Others = Others(appears: Option<Files>, swapped: Option<Files>)

  class BuildSite {
    var stage: Option<Files>
    var target: Option<Files>
    var receipt: Option<LocalReceipt>

    method Prepare(archive: Files, raises: set<BuildStep>, others: Others) returns (r: Option<BuildError>)
      requires target.None?
      modifies this`stage, this`target
      ensures r.None? <==> {WriteStage, ReadBack, CheckTarget, Publish} !! raises && others.appears.None?
      ensures r.None? ==> stage == Some(archive) && target.None?
      ensures target == None || target == others.appears
    {
      if WriteStage in raises {
        stage := None;
        return Some(Raised(WriteStage));
      }
      stage := Some(archive);
      if ReadBack in raises {
        return Some(Raised(ReadBack));
      }
      target := others.appears;
      if CheckTarget in raises {
        return Some(Raised(CheckTarget));
      }
      if target.Some? {
        return Some(TargetAppeared);
      }
      r := if Publish in raises then Some(Raised(Publish)) else None;
    }

    /** Records the receipt, or finds the very same one; `created` says whether it was written here. */
    method Record(mine: LocalReceipt, raises: set<BuildStep>) returns (r: Option<BuildError>, created: bool)
      modifies this`receipt
      ensures r.None? <==>
        && {PublishedHook, BuildReceipt, RecordedHook} !! raises
        && (if old(receipt).Some? then ReadReceipt !in raises && old(receipt) == Some(mine) else WriteReceipt !in raises)
      ensures receipt == if created then Some(mine) else old(receipt)
      ensures created ==> old(receipt).None?
      ensures r.None? ==> receipt == Some(mine)
    {
      created := false;
      if PublishedHook in raises {
        return Some(Raised(PublishedHook)), false;
      }
      if BuildReceipt in raises {
        return Some(Raised(BuildReceipt)), false;
      }
      if receipt.Some? {
        if ReadReceipt in raises {
          return Some(Raised(ReadReceipt)), false;
        }
        if receipt != Some(mine) {
          return Some(ReceiptBound), false;
        }
      } else {
        if WriteReceipt in raises {
          return Some(Raised(WriteReceipt)), false;
        }
        receipt, created := Some(mine), true;
      }
      r := if RecordedHook in raises then Some(Raised(RecordedHook)) else None;
    }

    /**
     Publishes the archive and records its receipt, or raises and restores the receipt there was and an
     absent target: what remains at the target is at most what someone else put there.
     */
    method BuildLocked(
        archive: Files, exportId: string, manifestSha: string, rest: string, raises: set<BuildStep>, others: Others,
        sha: Files -> string) returns (r: Result<LocalReceipt, BuildError>)
      requires target.None? && Injective(sha)
      modifies this
      ensures old(stage).Some? ==> r == Err(StageExists) && stage == old(stage) && target.None? && receipt == old(receipt)
      ensures old(stage).None? ==> stage.None?
      ensures r.Err? ==> receipt == old(receipt)
      ensures r.Err? ==> target.None? || target == others.appears || target == others.swapped
      ensures r.Err? && target == Some(archive) ==> others.appears == Some(archive)
      ensures r.Ok? ==> receipt == Some(r.value) && r.value == LocalReceipt(exportId, sha(archive), manifestSha, rest)
      ensures r.Ok? && others.swapped.None? ==> target == Some(archive)
      ensures old(stage).None? ==> (r.Ok? <==>
        && others.appears.None?
        && {WriteStage, ReadBack, CheckTarget, Publish, PublishedHook, BuildReceipt, RecordedHook} !! raises
        && (if old(receipt).Some?
            then ReadReceipt !in raises && old(receipt) == Some(LocalReceipt(exportId, sha(archive), manifestSha, rest))
            else WriteReceipt !in raises))
    {
      if stage.Some? {
        return Err(StageExists);
      }
      var failure := Prepare(archive, raises, others);
      if failure.Some? {
        stage := None;
        return Err(failure.value);
      }
      target, stage := stage, None;
      if others.swapped.Some? {
        target := others.swapped;
      }
      var mine := LocalReceipt(exportId, sha(archive), manifestSha, rest);
      var created;
      failure, created := Record(mine, raises);
      if failure.Some? {
        if target.Some? && sha(target.value) == sha(archive) {
          target := None;
        }
        if created {
          receipt := None;
        }
        return Err(failure.value);
      }
      return Ok(mine);
    }
  }
}
