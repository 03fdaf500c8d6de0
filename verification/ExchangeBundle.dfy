/** Exchange bundles: the files an export plan writes, and the validation an import runs on them. */
module ExchangeBundle {
  import opened Wrappers
  import opened StringOrder
  import opened Selection
  import opened ExchangeExport
  import Sorting
  import Listing

  // ----- Files -----

  type Files = map<string, Bytes>

  datatype EntryKind = RecordsEntry | IndexEntry | SourceEntry

  datatype Declared = Declared(path: string, sha256: string, bytes: nat, count: nat, kind: EntryKind)

  datatype Source = Source(paperId: string, assetId: Option<string>, role: string, fingerprint: string, archivePath: string, bytes: nat)

  datatype Manifest = Manifest(
    exportId: string,
    originId: string,
    scope: Scope,
    recordCount: nat,
    kindCounts: map<string, nat>,
    sourceCount: nat,
    basis: string,
    entries: seq<Declared>,
    rest: string)

  datatype Receipt = Receipt(exportId: string, scope: Scope, manifestSha: string, basis: string, rest: string)

  /** Reading and writing of bundle files, which are not part of this model. Readers refuse non-canonical text. */
  datatype Format = Format(
    codec: Codec,
    writeManifest: Manifest -> Bytes,
    readManifest: Bytes -> Option<Manifest>,
    manifestOk: Manifest -> bool,
    writeReceipt: Receipt -> Bytes,
    readReceipt: Bytes -> Option<Receipt>,
    receiptOk: Receipt -> bool,
    writeRecords: seq<Envelope> -> Bytes,
    readRecords: Bytes -> Option<seq<Envelope>>,
    writeIndex: seq<Source> -> Bytes,
    readIndex: Bytes -> Option<seq<Source>>,
    sourceOk: Source -> bool,
    isPdf: Bytes -> bool)

  ghost predicate RoundTrips(f: Format) {
    && (forall m: Manifest :: f.readManifest(f.writeManifest(m)) == Some(m))
    && (forall r: Receipt :: f.readReceipt(f.writeReceipt(r)) == Some(r))
    && (forall s: seq<Envelope> :: f.readRecords(f.writeRecords(s)) == Some(s))
    && (forall s: seq<Source> :: f.readIndex(f.writeIndex(s)) == Some(s))
  }

  const ManifestName := "manifest.json"
  const ReceiptName := "receipt.json"
  const IndexName := "sources/index.jsonl"

  function RecordsPath(kind: string): string { "records/" + kind + ".jsonl" }

  function SourcePath(digest: string): string { "sources/sha256/" + digest + ".pdf" }

  predicate StartsWith(s: string, prefix: string) { |s| >= |prefix| && s[..|prefix|] == prefix }

  predicate IsRecords(path: string) { StartsWith(path, "records/") }

  /** The kind named by a records path. */
  function KindOf(path: string): string {
    var kind := if StartsWith(path, "records/") then path[8..] else path;
    if |kind| >= 6 && kind[|kind| - 6..] == ".jsonl" then kind[..|kind| - 6] else kind
  }

  lemma RecordsPathKind(kind: string)
    ensures IsRecords(RecordsPath(kind)) && KindOf(RecordsPath(kind)) == kind
  {
    var path := RecordsPath(kind);
    assert path[..8] == "records/" && path[8..] == kind + ".jsonl";
    assert (kind + ".jsonl")[|kind|..] == ".jsonl" && (kind + ".jsonl")[..|kind|] == kind;
  }

  // ----- The records of a plan -----

  predicate EnvelopeLeq(a: Envelope, b: Envelope) {
    if a.recordId != b.recordId then Leq(a.recordId, b.recordId) else Leq(a.digest, b.digest)
  }

  function OfKind(envelopes: seq<Envelope>, kind: string): seq<Envelope> {
    Filter(envelopes, (e: Envelope) => e.kind == kind)
  }

  /** The content of a kind's records file. */
  function Group(envelopes: seq<Envelope>, kind: string): seq<Envelope> {
    Sorting.Sorted(OfKind(envelopes, kind), EnvelopeLeq)
  }

  function KindsOf(envelopes: seq<Envelope>): set<string> { set e | e in envelopes :: e.kind }

  function KindCounts(envelopes: seq<Envelope>): map<string, nat> {
    map kind | kind in KindsOf(envelopes) :: |Group(envelopes, kind)|
  }

  function RecordsPaths(envelopes: seq<Envelope>): set<string> { set kind | kind in KindsOf(envelopes) :: RecordsPath(kind) }

  function RecordFiles(envelopes: seq<Envelope>, f: Format): Files {
    map path | path in RecordsPaths(envelopes) :: f.writeRecords(Group(envelopes, KindOf(path)))
  }

  lemma GroupContents(envelopes: seq<Envelope>, kind: string)
    ensures forall e :: e in Group(envelopes, kind) <==> e in envelopes && e.kind == kind
    ensures |Group(envelopes, kind)| == |OfKind(envelopes, kind)|
  {
    FilterContents(envelopes, (e: Envelope) => e.kind == kind);
    Sorting.SortedContents(OfKind(envelopes, kind), EnvelopeLeq);
  }

  // ----- What the sources contribute -----

  /** The archived bytes of every listed source, and the descriptors in order. */
  datatype SourceSet = SourceSet(files: Files, descriptors: seq<Source>)

  /** Every descriptor is bound to PDF bytes with its fingerprint and size; every file is one of theirs. */
  ghost predicate SourcesBound(s: SourceSet, f: Format) {
    && (forall d :: d in s.descriptors ==> SourceBound(d, s.files, f))
    && (forall path :: path in s.files ==> IsSourcePath(path))
  }

  predicate SourceBound(d: Source, files: Files, f: Format) {
    && f.sourceOk(d) && d.archivePath in files && f.codec.sha(files[d.archivePath]) == d.fingerprint
    && |files[d.archivePath]| == d.bytes && f.isPdf(files[d.archivePath])
  }

  predicate IsSourcePath(path: string) { StartsWith(path, "sources/sha256/") }

  function DataFiles(envelopes: seq<Envelope>, s: SourceSet, f: Format): Files {
    RecordFiles(envelopes, f) +
    (if s.descriptors == [] then map[] else map[IndexName := f.writeIndex(s.descriptors)]) +
    s.files
  }

  function Classify(path: string, counts: map<string, nat>, sources: nat): Option<(EntryKind, nat)> {
    if IsRecords(path) then Some((RecordsEntry, if KindOf(path) in counts then counts[KindOf(path)] else 0))
    else if path == IndexName then Some((IndexEntry, sources))
    else if IsSourcePath(path) then Some((SourceEntry, 0))
    else None
  }

  function Declare(path: string, content: Bytes, counts: map<string, nat>, sources: nat, f: Format): Declared {
    var found := Classify(path, counts, sources);
    var (kind, count) := if found.Some? then found.value else (SourceEntry, 0);
    Declared(path, f.codec.sha(content), |content|, count, kind)
  }

  predicate DataPath(path: string) { IsRecords(path) || path == IndexName || IsSourcePath(path) }

  lemma PrefixAt(s: string, prefix: string, k: nat)
    requires k < |prefix|
    ensures StartsWith(s, prefix) ==> |s| > k && s[k] == prefix[k]
  {
    assert StartsWith(s, prefix) ==> s[k] == s[..|prefix|][k];
  }

  lemma RecordsNotControl(path: string)
    requires IsRecords(path)
    ensures path != ManifestName && path != ReceiptName && path != IndexName && !IsSourcePath(path)
  {
    PrefixAt(path, "records/", 0);
    PrefixAt(path, "records/", 3);
    PrefixAt(path, "sources/sha256/", 0);
    assert ManifestName[0] == 'm' && ReceiptName[3] == 'e' && IndexName[0] == 's';
  }

  lemma SourceNotControl(path: string)
    requires IsSourcePath(path)
    ensures path != ManifestName && path != ReceiptName && path != IndexName && !IsRecords(path)
  {
    PrefixAt(path, "sources/sha256/", 0);
    PrefixAt(path, "sources/sha256/", 9);
    PrefixAt(path, "records/", 0);
    assert ManifestName[0] == 'm' && ReceiptName[0] == 'r' && IndexName[9] == 'n';
  }

  lemma IndexNotControl()
    ensures IndexName != ManifestName && IndexName != ReceiptName && !IsRecords(IndexName) && !IsSourcePath(IndexName)
    ensures ManifestName != ReceiptName && !IsRecords(ManifestName) && !IsRecords(ReceiptName)
  {
    assert IndexName[0] == 's' && IndexName[9] == 'n' && ManifestName[0] == 'm' && ReceiptName[0] == 'r' && ReceiptName[3] == 'e';
    PrefixAt(IndexName, "sources/sha256/", 9);
    PrefixAt(IndexName, "records/", 0);
    PrefixAt(ReceiptName, "records/", 3);
    PrefixAt(ManifestName, "records/", 0);
  }

  lemma DataPathCases(envelopes: seq<Envelope>, s: SourceSet, f: Format, path: string)
    requires path in DataFiles(envelopes, s, f)
    ensures path in RecordsPaths(envelopes) || (path == IndexName && s.descriptors != []) || path in s.files
  {
  }

  lemma RecordsPathsAreRecords(envelopes: seq<Envelope>, path: string)
    requires path in RecordsPaths(envelopes)
    ensures IsRecords(path) && KindOf(path) in KindsOf(envelopes) && path == RecordsPath(KindOf(path))
  {
    var kind :| kind in KindsOf(envelopes) && RecordsPath(kind) == path;
    RecordsPathKind(kind);
  }

  lemma DataPaths(envelopes: seq<Envelope>, s: SourceSet, f: Format, path: string)
    requires SourcesBound(s, f) && path in DataFiles(envelopes, s, f)
    ensures DataPath(path)
    ensures path != ManifestName && path != ReceiptName
  {
    DataPathCases(envelopes, s, f, path);
    IndexNotControl();
    if path in RecordsPaths(envelopes) {
      RecordsPathsAreRecords(envelopes, path);
      RecordsNotControl(path);
    } else if path in s.files {
      SourceNotControl(path);
    }
  }

  /** Every data file declared with its digest, size, classification and count, in path order. */
  ghost function Inventory(envelopes: seq<Envelope>, s: SourceSet, f: Format): seq<Declared> {
    InventoryOf(DataFiles(envelopes, s, f), KindCounts(envelopes), |s.descriptors|, f)
  }

  ghost function InventoryOf(files: Files, counts: map<string, nat>, sources: nat, f: Format): seq<Declared> {
    var paths := Listing.Sorted(files.Keys);
    Listing.SortedMembers(files.Keys);
    seq(|paths|, i requires 0 <= i < |paths| => assert paths[i] in paths; Declare(paths[i], files[paths[i]], counts, sources, f))
  }

  // ----- The archive -----

  datatype Header = Header(exportId: string, originId: string, scope: Scope, basis: string, rest: string)

  ghost function ManifestOf(h: Header, envelopes: seq<Envelope>, s: SourceSet, f: Format): Manifest {
    Manifest(h.exportId, h.originId, h.scope, |envelopes|, KindCounts(envelopes), |s.descriptors|, h.basis,
             Inventory(envelopes, s, f), h.rest)
  }

  ghost function ReceiptOf(m: Manifest, f: Format, rest: string): Receipt {
    Receipt(m.exportId, m.scope, f.codec.sha(f.writeManifest(m)), m.basis, rest)
  }

  ghost function Archive(h: Header, envelopes: seq<Envelope>, s: SourceSet, f: Format): Files {
    var m := ManifestOf(h, envelopes, s, f);
    DataFiles(envelopes, s, f)[ManifestName := f.writeManifest(m)][ReceiptName := f.writeReceipt(ReceiptOf(m, f, h.rest))]
  }

  // ----- Validation -----

  datatype BundleError =
    | ManifestRefused | ReceiptRefused | ReceiptUnbound | InventoryIncomplete | EntryMismatch
    | RecordsRefused | SourcesRefused | CountsMismatch | Misclassified

  datatype Bundle = Bundle(manifest: Manifest, envelopes: seq<Envelope>, sources: seq<Source>)

  function Control<T>(files: Files, name: string, read: Bytes -> Option<T>, ok: T -> bool): Option<T> {
    if name !in files then None
    else
      var r := read(files[name]);
      if r.None? || !ok(r.value) then None else r
  }

  predicate Binds(r: Receipt, m: Manifest, content: Bytes, f: Format) {
    && r.manifestSha == f.codec.sha(content) && r.exportId == m.exportId
    && r.scope == m.scope && r.basis == m.basis
  }

  function PathsOf(entries: seq<Declared>): set<string> { set d | d in entries :: d.path }

  predicate PathsDistinct(entries: seq<Declared>) {
    forall i, j :: 0 <= i < j < |entries| ==> entries[i].path != entries[j].path
  }

  function DataOf(files: Files): Files { files - {ManifestName, ReceiptName} }

  predicate EntryMatches(d: Declared, files: Files, f: Format) {
    d.path in files && d.sha256 == f.codec.sha(files[d.path]) && d.bytes == |files[d.path]|
  }

  /** A records file whose kind is allowed and whose records are all well bound. */
  predicate RecordSound(e: Envelope, kind: string, f: Format) {
    && f.codec.envelopeOk(e) && e.kind == kind
    && f.codec.sha(f.codec.record(e.record)) == e.digest && f.codec.recordOk(kind, e.record)
  }

  function ReadFile(path: string, content: Bytes, f: Format, maxRecords: nat): Option<seq<Envelope>> {
    var kind := KindOf(path);
    var records := f.readRecords(content);
    if kind !in PayloadKinds() || records.None? || |records.value| > maxRecords then None
    else if exists e :: e in records.value && !RecordSound(e, kind, f) then None
    else records
  }

  ghost function RecordsIn(files: Files): seq<string> { Listing.Sorted(set path | path in files && IsRecords(path)) }

  /** Every file's records, in path order. */
  function ReadEach(paths: seq<string>, files: Files, f: Format, maxRecords: nat): seq<Option<seq<Envelope>>>
    requires forall path :: path in paths ==> path in files
  {
    seq(|paths|, i requires 0 <= i < |paths| =>
      assert paths[i] in paths; ReadFile(paths[i], files[paths[i]], f, maxRecords))
  }

  /** All records together, unless some file is refused. */
  function Gathered(parts: seq<Option<seq<Envelope>>>, n: nat): Option<seq<Envelope>>
    requires n <= |parts|
  {
    if n == 0 then Some([])
    else
      var before := Gathered(parts, n - 1);
      if before.None? || parts[n - 1].None? then None else Some(before.value + parts[n - 1].value)
  }

  function ReadFiles(paths: seq<string>, files: Files, f: Format, maxRecords: nat): Option<seq<Envelope>>
    requires forall path :: path in paths ==> path in files
  {
    Gathered(ReadEach(paths, files, f, maxRecords), |paths|)
  }

  function ReadSources(files: Files, f: Format, maxRecords: nat): Option<seq<Source>> {
    var sources := if IndexName in files then f.readIndex(files[IndexName]) else Some([]);
    if sources.None? || |sources.value| > maxRecords then None
    else if exists d :: d in sources.value && !SourceBound(d, files, f) then None
    else sources
  }

  predicate Classified(d: Declared, counts: map<string, nat>, sources: nat) {
    Classify(d.path, counts, sources) == Some((d.kind, d.count))
  }

  /** How many records there are of every kind that has a records file. */
  function Counts(paths: seq<string>, envelopes: seq<Envelope>): map<string, nat> {
    map kind | kind in (set path | path in paths :: KindOf(path)) :: |OfKind(envelopes, kind)|
  }

  ghost function Contents(m: Manifest, files: Files, f: Format, maxRecords: nat): Result<Bundle, BundleError> {
    var paths := RecordsIn(DataOf(files));
    Listing.SortedMembers(set path | path in DataOf(files) && IsRecords(path));
    var envelopes := ReadFiles(paths, files, f, maxRecords);
    var sources := ReadSources(files, f, maxRecords);
    if envelopes.None? then Err(RecordsRefused)
    else if sources.None? then Err(SourcesRefused)
    else if |envelopes.value| > maxRecords || |envelopes.value| != m.recordCount
      || Counts(paths, envelopes.value) != m.kindCounts || |sources.value| != m.sourceCount then Err(CountsMismatch)
    else if exists d :: d in m.entries && !Classified(d, Counts(paths, envelopes.value), |sources.value|) then Err(Misclassified)
    else Ok(Bundle(m, envelopes.value, sources.value))
  }

  ghost function Validate(files: Files, f: Format, maxRecords: nat): Result<Bundle, BundleError> {
    var manifest := Control(files, ManifestName, f.readManifest, f.manifestOk);
    var receipt := Control(files, ReceiptName, f.readReceipt, f.receiptOk);
    if manifest.None? then Err(ManifestRefused)
    else if receipt.None? then Err(ReceiptRefused)
    else if !Binds(receipt.value, manifest.value, files[ManifestName], f) then Err(ReceiptUnbound)
    else if PathsOf(manifest.value.entries) != DataOf(files).Keys || !PathsDistinct(manifest.value.entries) then Err(InventoryIncomplete)
    else if exists d :: d in manifest.value.entries && !EntryMatches(d, files, f) then Err(EntryMismatch)
    else Contents(manifest.value, files, f, maxRecords)
  }
}
