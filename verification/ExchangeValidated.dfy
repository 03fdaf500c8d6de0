/** What a validation that accepts a bundle says about its files, its records and its sources. */
module ExchangeValidated {
  import opened Wrappers
  import opened ExchangeExport
  import opened ExchangeBundle
  import Listing

  predicate IsData(path: string) { path != "manifest.json" && path != "receipt.json" }

  /** The receipt belongs to this manifest file. */
  predicate Receipted(files: Files, m: Manifest, r: Receipt, sha: Bytes -> string) {
    && ManifestName in files && r.manifestSha == sha(files[ManifestName])
    && r.exportId == m.exportId && r.scope == m.scope && r.basis == m.basis
  }

  /** The data files are the declared paths, each declared once, with the digest and size of its bytes. */
  ghost predicate Declares(files: Files, m: Manifest, sha: Bytes -> string) {
    && (forall path :: path in files && IsData(path) ==> exists d :: d in m.entries && d.path == path)
    && (forall d :: d in m.entries ==>
          && d.path in files && IsData(d.path)
          && d.sha256 == sha(files[d.path]) && d.bytes == |files[d.path]|)
    && forall i, j :: 0 <= i < j < |m.entries| ==> m.entries[i].path != m.entries[j].path
  }

  /** A records file holds an envelope. */
  predicate Holds(path: string, e: Envelope, files: Files, f: Format) {
    && path in files && StartsWith(path, "records/")
    && f.readRecords(files[path]).Some? && e in f.readRecords(files[path]).value
  }

  /** An envelope is read from the records file of its kind. */
  ghost predicate ReadFrom(e: Envelope, files: Files, f: Format) {
    exists path :: Holds(path, e, files, f) && KindOf(path) == e.kind
  }

  /** An envelope is of a payload kind, and its record validates and has the digest it claims. */
  predicate WellBound(e: Envelope, c: Codec) {
    && e.kind in PayloadKinds() && c.envelopeOk(e) && c.recordOk(e.kind, e.record)
    && c.sha(c.record(e.record)) == e.digest
  }

  /** The records are those of all records files, each well bound. */
  ghost predicate RecordsKept(envelopes: seq<Envelope>, files: Files, f: Format) {
    && (forall e :: e in envelopes ==> ReadFrom(e, files, f) && WellBound(e, f.codec))
    && (forall path, e :: Holds(path, e, files, f) ==> e in envelopes)
  }

  /** A source descriptor names an archived PDF with its fingerprint and size. */
  predicate Archived(d: Source, files: Files, f: Format) {
    && f.sourceOk(d) && d.archivePath in files && f.isPdf(files[d.archivePath])
    && f.codec.sha(files[d.archivePath]) == d.fingerprint && |files[d.archivePath]| == d.bytes
  }

  /** The sources are those of the index, or none without an index, each archived. */
  predicate SourcesKept(sources: seq<Source>, files: Files, f: Format) {
    && (IndexName in files ==> f.readIndex(files[IndexName]) == Some(sources))
    && (IndexName !in files ==> sources == [])
    && forall d :: d in sources ==> Archived(d, files, f)
  }

  /** Kind and count of every declared entry, by its path. */
  ghost predicate EntriesClassified(m: Manifest, envelopes: seq<Envelope>, sources: seq<Source>) {
    forall d :: d in m.entries ==>
      || (StartsWith(d.path, "records/") && d.kind == RecordsEntry && d.count == |OfKind(envelopes, KindOf(d.path))|)
      || (d.path == "sources/index.jsonl" && d.kind == IndexEntry && d.count == |sources|)
      || (StartsWith(d.path, "sources/sha256/") && d.kind == SourceEntry && d.count == 0)
  }

  /** The totals of the manifest are those of the records and sources. */
  ghost predicate Counted(m: Manifest, envelopes: seq<Envelope>, sources: seq<Source>) {
    && m.recordCount == |envelopes| && m.sourceCount == |sources|
    && forall kind :: kind in m.kindCounts ==> m.kindCounts[kind] == |OfKind(envelopes, kind)|
  }

  // ----- Control files -----

  lemma ControlRead<T>(files: Files, name: string, read: Bytes -> Option<T>, ok: T -> bool)
    requires Control(files, name, read, ok).Some?
    ensures name in files && read(files[name]) == Control(files, name, read, ok) && ok(Control(files, name, read, ok).value)
  {
  }

  lemma ValidParts(files: Files, f: Format, maxRecords: nat, b: Bundle)
    requires Validate(files, f, maxRecords) == Ok(b)
    ensures ManifestName in files && ReceiptName in files
    ensures f.readManifest(files[ManifestName]) == Some(b.manifest) && f.manifestOk(b.manifest)
    ensures f.readReceipt(files[ReceiptName]).Some? && f.receiptOk(f.readReceipt(files[ReceiptName]).value)
    ensures Receipted(files, b.manifest, f.readReceipt(files[ReceiptName]).value, f.codec.sha)
    ensures Declares(files, b.manifest, f.codec.sha)
    ensures Contents(b.manifest, files, f, maxRecords) == Ok(b)
  {
    var m := Control(files, ManifestName, f.readManifest, f.manifestOk);
    var r := Control(files, ReceiptName, f.readReceipt, f.receiptOk);
    ControlRead(files, ManifestName, f.readManifest, f.manifestOk);
    ControlRead(files, ReceiptName, f.readReceipt, f.receiptOk);
    assert Contents(m.value, files, f, maxRecords) == Ok(b);
    DeclaredEach(files, m.value, f);
  }

  lemma DeclaredEach(files: Files, m: Manifest, f: Format)
    requires PathsOf(m.entries) == DataOf(files).Keys && PathsDistinct(m.entries)
    requires forall d :: d in m.entries ==> EntryMatches(d, files, f)
    ensures Declares(files, m, f.codec.sha)
  {
    forall path | path in files && IsData(path) ensures exists d :: d in m.entries && d.path == path {
      assert path in DataOf(files);
      assert path in PathsOf(m.entries);
    }
    forall d | d in m.entries
      ensures d.path in files && IsData(d.path) && d.sha256 == f.codec.sha(files[d.path]) && d.bytes == |files[d.path]|
    {
      assert EntryMatches(d, files, f);
      assert d.path in PathsOf(m.entries);
    }
  }

  // ----- Records -----

  lemma {:induction false} GatheredMembers(parts: seq<Option<seq<Envelope>>>, n: nat)
    requires n <= |parts| && Gathered(parts, n).Some?
    ensures forall i :: 0 <= i < n ==> parts[i].Some?
    ensures forall e :: e in Gathered(parts, n).value <==> exists i :: 0 <= i < n && parts[i].Some? && e in parts[i].value
  {
    if n > 0 {
      GatheredMembers(parts, n - 1);
    }
  }

  lemma FileKept(path: string, content: Bytes, f: Format, maxRecords: nat)
    requires ReadFile(path, content, f, maxRecords).Some?
    ensures f.readRecords(content) == ReadFile(path, content, f, maxRecords)
    ensures forall e :: e in f.readRecords(content).value ==> e.kind == KindOf(path) && WellBound(e, f.codec)
  {
    forall e | e in f.readRecords(content).value ensures e.kind == KindOf(path) && WellBound(e, f.codec) {
      assert RecordSound(e, KindOf(path), f);
    }
  }

  lemma ReadAt(paths: seq<string>, files: Files, f: Format, maxRecords: nat, i: nat)
    requires (forall path :: path in paths <==> path in files && IsRecords(path)) && i < |paths|
    requires ReadEach(paths, files, f, maxRecords)[i].Some?
    ensures paths[i] in files && IsRecords(paths[i])
    ensures ReadEach(paths, files, f, maxRecords)[i] == f.readRecords(files[paths[i]])
    ensures forall e :: e in f.readRecords(files[paths[i]]).value ==> e.kind == KindOf(paths[i]) && WellBound(e, f.codec)
  {
    assert paths[i] in paths;
    assert ReadEach(paths, files, f, maxRecords)[i] == ReadFile(paths[i], files[paths[i]], f, maxRecords);
    FileKept(paths[i], files[paths[i]], f, maxRecords);
  }

  lemma ReadEachKept(paths: seq<string>, files: Files, f: Format, maxRecords: nat, envelopes: seq<Envelope>)
    requires forall path :: path in paths <==> path in files && IsRecords(path)
    requires ReadFiles(paths, files, f, maxRecords) == Some(envelopes)
    ensures RecordsKept(envelopes, files, f)
  {
    var parts := ReadEach(paths, files, f, maxRecords);
    GatheredMembers(parts, |parts|);
    forall e | e in envelopes ensures ReadFrom(e, files, f) && WellBound(e, f.codec) {
      var i :| 0 <= i < |parts| && parts[i].Some? && e in parts[i].value;
      ReadAt(paths, files, f, maxRecords, i);
      assert Holds(paths[i], e, files, f);
    }
    forall path, e | Holds(path, e, files, f) ensures e in envelopes {
      assert path in paths;
      var i :| 0 <= i < |paths| && paths[i] == path;
      ReadAt(paths, files, f, maxRecords, i);
      assert e in parts[i].value;
    }
  }

  // ----- The contents -----

  lemma ContentsParts(m: Manifest, files: Files, f: Format, maxRecords: nat, b: Bundle)
    requires Contents(m, files, f, maxRecords) == Ok(b)
    ensures b.manifest == m
    ensures var paths := RecordsIn(DataOf(files));
      && (forall path :: path in paths ==> path in files)
      && ReadFiles(paths, files, f, maxRecords) == Some(b.envelopes)
      && Counts(paths, b.envelopes) == m.kindCounts
      && forall d :: d in m.entries ==> Classified(d, Counts(paths, b.envelopes), |b.sources|)
    ensures ReadSources(files, f, maxRecords) == Some(b.sources)
    ensures |b.envelopes| == m.recordCount && |b.sources| == m.sourceCount
  {
    Listing.SortedMembers(set path | path in DataOf(files) && IsRecords(path));
  }

  lemma RecordsInContents(files: Files)
    ensures forall path :: path in RecordsIn(DataOf(files)) <==> path in files && IsRecords(path)
  {
    Listing.SortedMembers(set path | path in DataOf(files) && IsRecords(path));
    forall path | path in files && IsRecords(path) ensures path in DataOf(files) {
      RecordsNotControl(path);
    }
  }

  lemma SourcesRead(files: Files, f: Format, maxRecords: nat, sources: seq<Source>)
    requires ReadSources(files, f, maxRecords) == Some(sources)
    ensures SourcesKept(sources, files, f)
  {
    forall d | d in sources ensures Archived(d, files, f) {
      assert SourceBound(d, files, f);
    }
  }

  lemma CountsAt(paths: seq<string>, envelopes: seq<Envelope>, path: string)
    requires path in paths
    ensures KindOf(path) in Counts(paths, envelopes) && Counts(paths, envelopes)[KindOf(path)] == |OfKind(envelopes, KindOf(path))|
  {
  }

  lemma EntriesKept(m: Manifest, files: Files, b: Bundle, f: Format)
    requires Declares(files, m, f.codec.sha)
    requires var paths := RecordsIn(DataOf(files));
      Counts(paths, b.envelopes) == m.kindCounts
      && forall d :: d in m.entries ==> Classified(d, Counts(paths, b.envelopes), |b.sources|)
    ensures EntriesClassified(m, b.envelopes, b.sources)
    ensures forall kind :: kind in m.kindCounts ==> m.kindCounts[kind] == |OfKind(b.envelopes, kind)|
  {
    var paths := RecordsIn(DataOf(files));
    RecordsInContents(files);
    forall d | d in m.entries
      ensures (StartsWith(d.path, "records/") && d.kind == RecordsEntry && d.count == |OfKind(b.envelopes, KindOf(d.path))|)
        || (d.path == "sources/index.jsonl" && d.kind == IndexEntry && d.count == |b.sources|)
        || (StartsWith(d.path, "sources/sha256/") && d.kind == SourceEntry && d.count == 0)
    {
      assert Classified(d, Counts(paths, b.envelopes), |b.sources|);
      if IsRecords(d.path) {
        CountsAt(paths, b.envelopes, d.path);
      }
    }
  }

  /**
   A bundle that validates: its receipt is the manifest's; its data files are exactly the declared ones,
   with their declared digests and sizes; its records are exactly those of the records files, each in the
   file of its kind and under the digest of its record; its sources are exactly those of the index, each
   an archived PDF with its fingerprint and size; and the manifest counts and classifies them right.
   */
  lemma ValidatedBundle(files: Files, f: Format, maxRecords: nat, b: Bundle)
    requires Validate(files, f, maxRecords) == Ok(b)
    ensures ManifestName in files && ReceiptName in files
    ensures f.readManifest(files[ManifestName]) == Some(b.manifest) && f.manifestOk(b.manifest)
    ensures f.readReceipt(files[ReceiptName]).Some?
    ensures Receipted(files, b.manifest, f.readReceipt(files[ReceiptName]).value, f.codec.sha)
    ensures Declares(files, b.manifest, f.codec.sha)
    ensures RecordsKept(b.envelopes, files, f) && SourcesKept(b.sources, files, f)
    ensures EntriesClassified(b.manifest, b.envelopes, b.sources) && Counted(b.manifest, b.envelopes, b.sources)
  {
    ValidParts(files, f, maxRecords, b);
    ContentsParts(b.manifest, files, f, maxRecords, b);
    RecordsInContents(files);
    ReadEachKept(RecordsIn(DataOf(files)), files, f, maxRecords, b.envelopes);
    SourcesRead(files, f, maxRecords, b.sources);
    EntriesKept(b.manifest, files, b, f);
  }

  lemma SharedData(a: Files, b: Files, m: Manifest, sha: Bytes -> string, path: string)
    requires Injective(sha) && Declares(a, m, sha) && Declares(b, m, sha) && path in a && IsData(path)
    ensures path in b && b[path] == a[path]
  {
    var d :| d in m.entries && d.path == path;
    assert sha(a[path]) == sha(b[path]);
  }

  /** With a collision-free digest, two bundles that validate with one manifest file have the same data files. */
  lemma ManifestDeterminesData(a: Files, b: Files, f: Format, maxRecords: nat)
    requires Injective(f.codec.sha) && Validate(a, f, maxRecords).Ok? && Validate(b, f, maxRecords).Ok?
    requires ManifestName in a && ManifestName in b && a[ManifestName] == b[ManifestName]
    ensures DataOf(a) == DataOf(b)
  {
    ValidatedBundle(a, f, maxRecords, Validate(a, f, maxRecords).value);
    ValidatedBundle(b, f, maxRecords, Validate(b, f, maxRecords).value);
    var m := Validate(a, f, maxRecords).value.manifest;
    forall path | path in DataOf(a) ensures path in DataOf(b) && DataOf(b)[path] == DataOf(a)[path] {
      SharedData(a, b, m, f.codec.sha, path);
    }
    forall path | path in DataOf(b) ensures path in DataOf(a) {
      SharedData(b, a, m, f.codec.sha, path);
    }
  }
}
