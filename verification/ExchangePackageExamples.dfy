/** Archives written by an export always fit; two archives that are supported and do not. */
module ExchangePackageExamples {
  import opened Wrappers
  import opened Selection
  import opened BundlePaths
  import opened ExchangeExport
  import opened ExchangeBundle
  import opened ExchangeAgreement
  import opened ExchangeAcceptance
  import opened ExchangePackage
  import opened ExchangePackageChecks
  import ExchangeImport
  import ExchangeImportRecovery
  import ExchangePublication

  // ----- Names that keep out of each other's way -----

  /** A normal name, all of whose directories are among the given ones, and which is none of them. */
  ghost predicate Tidy(name: string, directories: set<string>) {
    Normal(name) && Above(name) <= directories && name !in directories
  }

  lemma TidyNames(names: set<string>, directories: set<string>)
    requires forall name :: name in names ==> Tidy(name, directories)
    ensures Disjoint(names) && AllNormal(names) && Directories(names) <= directories
  {
    forall a, b {:trigger Apart(a, b)} | a in names && b in names && a != b ensures Apart(a, b) {
      assert Tidy(a, directories) && Tidy(b, directories);
      NormalParts(a);
      NormalParts(b);
    }
  }

  lemma InDirectory(d: string, child: string)
    requires Normal(d) && '/' !in child && |child| > 1
    ensures Normal(d + "/" + child) && Above(d + "/" + child) == Above(d) + {d}
  {
    ChildParts(d, child);
    ChildAbove(d, child);
  }

  /** A plain name, or a plain name in one of the given directories. */
  ghost predicate Shaped(name: string, directories: set<string>) {
    || ('/' !in name && |name| > 1)
    || exists d, child :: d in directories && '/' !in child && |child| > 1 && name == d + "/" + child
  }

  /** A directory, one inside another, and a file directly below either or at the top. */
  lemma ShapedTidy(name: string, records: string, sources: string, hashes: string)
    requires '/' !in records && '/' !in sources && '/' !in hashes && |records| > 1 && |sources| > 1 && |hashes| > 1
    requires var directories := {records, sources, sources + "/" + hashes};
      Shaped(name, directories) && name !in directories
    ensures Tidy(name, {records, sources, sources + "/" + hashes})
  {
    var directories := {records, sources, sources + "/" + hashes};
    PlainName(records);
    PlainName(sources);
    InDirectory(sources, hashes);
    forall d | d in directories ensures KnownDirectory(d, directories) {
      assert Above(d) <= {sources};
    }
    ShapedBelow(name, directories);
  }

  ghost predicate KnownDirectory(d: string, directories: set<string>) { Normal(d) && Above(d) <= directories }

  lemma ShapedBelow(name: string, directories: set<string>)
    requires forall d :: d in directories ==> KnownDirectory(d, directories)
    requires Shaped(name, directories) && name !in directories
    ensures Tidy(name, directories)
  {
    if '/' !in name && |name| > 1 {
      PlainName(name);
    } else {
      var d, child :| d in directories && '/' !in child && |child| > 1 && name == d + "/" + child;
      assert KnownDirectory(d, directories);
      InDirectory(d, child);
    }
  }

  const Ordinary: set<string> := {"records", "sources", "sources/sha256"}

  lemma ShortDirectories()
    ensures forall d :: d in Ordinary ==> Utf8(d) <= 14
  {
    Utf8Ascii("records");
    Utf8Ascii("sources");
    Utf8Ascii("sources/sha256");
  }

  lemma OrdinaryTidy(name: string)
    requires Shaped(name, Ordinary) && name !in Ordinary
    ensures Tidy(name, Ordinary)
  {
    assert "sources" + "/" + "sha256" == "sources/sha256";
    ShapedTidy(name, "records", "sources", "sha256");
  }

  lemma DataIsNoDirectory(path: string)
    requires DataPath(path) || path == ManifestName || path == ReceiptName
    ensures path !in Ordinary
  {
    assert |"records"| == 7 && |"sources"| == 7 && |"sources/sha256"| == 14;
    assert |"records/"| == 8 && |"sources/sha256/"| == 15;
    assert |IndexName| == 19 && |ManifestName| == 13 && |ReceiptName| == 12;
    if IsRecords("sources/sha256") {
      PrefixAt("sources/sha256", "records/", 0);
    }
  }

  lemma PlainShaped(name: string)
    requires name == ManifestName || name == ReceiptName
    ensures Shaped(name, Ordinary)
  {
    ReceiptApart();
  }

  lemma IndexShaped()
    ensures Shaped(IndexName, Ordinary)
  {
    assert "sources" in Ordinary && IndexName == "sources" + "/" + "index.jsonl" && '/' !in "index.jsonl";
  }

  lemma RecordsShaped(kind: string)
    requires '/' !in kind
    ensures Shaped(RecordsPath(kind), Ordinary)
  {
    assert '/' !in ".jsonl";
    assert "records" in Ordinary && RecordsPath(kind) == "records" + "/" + (kind + ".jsonl");
  }

  lemma SourceShaped(digest: string)
    requires '/' !in digest
    ensures Shaped(SourcePath(digest), Ordinary) && IsSourcePath(SourcePath(digest))
  {
    assert '/' !in ".pdf";
    assert "sources/sha256" in Ordinary && SourcePath(digest) == "sources/sha256" + "/" + (digest + ".pdf");
    assert SourcePath(digest)[..15] == "sources/sha256/";
  }

  // ----- Archives written by an export -----

  ghost predicate PlainKinds(envelopes: seq<Envelope>) { forall kind :: kind in KindsOf(envelopes) ==> '/' !in kind }

  /** Every archived source sits under a digest without slashes. */
  ghost predicate UnderDigests(s: SourceSet) {
    forall path :: path in s.files ==> exists digest :: path == SourcePath(digest) && '/' !in digest
  }

  lemma ArchiveNames(h: Header, envelopes: seq<Envelope>, s: SourceSet, f: Format, name: string)
    requires name in Archive(h, envelopes, s, f)
    ensures name == ManifestName || name == ReceiptName || name == IndexName
      || (IsRecords(name) && KindOf(name) in KindsOf(envelopes) && name == RecordsPath(KindOf(name))) || name in s.files
  {
    if name in DataFiles(envelopes, s, f) {
      DataPathCases(envelopes, s, f, name);
      if name in RecordsPaths(envelopes) {
        RecordsPathsAreRecords(envelopes, name);
      }
    }
  }

  lemma ExportedShaped(h: Header, envelopes: seq<Envelope>, s: SourceSet, f: Format, name: string)
    requires PlainKinds(envelopes) && UnderDigests(s) && name in Archive(h, envelopes, s, f)
    ensures Shaped(name, Ordinary) && name !in Ordinary
  {
    ArchiveNames(h, envelopes, s, f, name);
    if name == ManifestName || name == ReceiptName {
      PlainShaped(name);
    } else if name == IndexName {
      IndexShaped();
    } else if name in s.files {
      var digest :| name == SourcePath(digest) && '/' !in digest;
      SourceShaped(digest);
    } else {
      RecordsShaped(KindOf(name));
    }
    DataIsNoDirectory(name);
  }

  /**
   Every archive an export writes extracts, and its package passes its own checks whenever there is
   room for the receipt: all its directories are short.
   */
  lemma ExportedArchiveFits(
      h: Header, envelopes: seq<Envelope>, s: SourceSet, f: Format, receipt: seq<int>, p: Limits)
    requires UnderDigests(s) && p.maxPathBytes >= 26
    requires forall e :: e in envelopes ==> PlannedEnvelope(e, f.codec)
    ensures var files := Archive(h, envelopes, s, f);
      Extract(files).Some? && (PackageFits(files, receipt, p) <==> ReceiptFits(files, receipt, p))
  {
    var files := Archive(h, envelopes, s, f);
    PlannedKinds(envelopes, f.codec);
    forall name | name in files.Keys ensures Tidy(name, Ordinary) {
      ExportedShaped(h, envelopes, s, f, name);
      OrdinaryTidy(name);
    }
    TidyNames(files.Keys, Ordinary);
    ShortDirectories();
  }

  /** Under the default limits a supported archive always leaves room for a receipt of ordinary size. */
  lemma DefaultRoom(files: Files, receipt: seq<int>, w: Wire)
    requires WithinBudget(files, w, DefaultLimits)
    ensures ReceiptFits(files, receipt, DefaultLimits) <==> |receipt| <= DefaultLimits.maxEntryBytes
  {
    Utf8Ascii(RECEIPT);
  }

  // ----- Two archives that do not fit -----

  /** An archive of a plan's records with one more source entry that no source index mentions. */
  ghost function WithStowaway(h: Header, envelopes: seq<Envelope>, path: string, content: Bytes, f: Format): Files {
    Archive(h, envelopes, SourceSet(map[path := content], []), f)
  }

  lemma StowawayValidates(h: Header, envelopes: seq<Envelope>, path: string, content: Bytes, f: Format, maxRecords: nat)
    requires IsSourcePath(path) && RoundTrips(f) && |envelopes| <= maxRecords
    requires forall e :: e in envelopes ==> PlannedEnvelope(e, f.codec)
    requires var m := ManifestOf(h, envelopes, SourceSet(map[path := content], []), f);
      f.manifestOk(m) && f.receiptOk(ReceiptOf(m, f, h.rest))
    ensures Validate(WithStowaway(h, envelopes, path, content, f), f, maxRecords).Ok?
    ensures path in WithStowaway(h, envelopes, path, content, f)
  {
    var s := SourceSet(map[path := content], []);
    assert SourcesBound(s, f);
    PlannedArchiveValidates(h, envelopes, s, f, maxRecords);
    DataFilesFree(envelopes, s, f);
    assert path in DataFiles(envelopes, s, f);
  }

  /** Every other name of such an archive is shaped as an export shapes it. */
  lemma StowawayNames(h: Header, envelopes: seq<Envelope>, path: string, content: Bytes, f: Format, name: string)
    requires PlainKinds(envelopes) && name in WithStowaway(h, envelopes, path, content, f) && name != path
    ensures Shaped(name, Ordinary) && name !in Ordinary
    ensures !IsSourcePath(name)
  {
    ArchiveNames(h, envelopes, SourceSet(map[path := content], []), f, name);
    if name == ManifestName || name == ReceiptName {
      PlainShaped(name);
    } else if name == IndexName {
      IndexShaped();
    } else {
      RecordsShaped(KindOf(name));
      RecordsNotControl(name);
    }
    IndexNotControl();
    ControlsNotSources();
    DataIsNoDirectory(name);
  }

  lemma ControlsNotSources()
    ensures !IsSourcePath(ManifestName) && !IsSourcePath(ReceiptName)
  {
    PrefixAt(ManifestName, "sources/sha256/", 0);
    PrefixAt(ReceiptName, "sources/sha256/", 0);
    assert ManifestName[0] == 'm' && ReceiptName[0] == 'r';
  }

  // ----- A directory too long -----

  /** The directory of 229 bytes that a part of 214 ASCII characters makes below `sources/sha256`. */
  predicate LongPart(part: string) {
    |part| == 214 && '/' !in part && forall i :: 0 <= i < |part| ==> part[i] as int < 0x80
  }

  /** There is such a part. */
  lemma SomeLongPart()
    ensures LongPart(seq(214, _ => 'a'))
  {
  }

  function DirectoryOf(part: string): string { "sources/sha256" + "/" + part }

  function DeepPath(part: string): string { DirectoryOf(part) + "/" + "b" }

  lemma LongNames(part: string, hashes: string, d: string, path: string, leaf: string)
    requires '/' !in part && |part| > 1 && Normal(hashes) && '/' !in leaf && Real(leaf)
    requires d == hashes + "/" + part && path == d + "/" + leaf
    ensures Normal(path) && Normal(d) && Above(path) == Above(hashes) + {hashes, d}
  {
    InDirectory(hashes, part);
    ChildParts(d, leaf);
    ChildAbove(d, leaf);
  }

  lemma TwoLevels(sources: string, sha: string, part: string, leaf: string, d: string, path: string)
    requires '/' !in sources && '/' !in sha && '/' !in part && |sources| > 1 && |sha| > 1 && |part| > 1
    requires '/' !in leaf && Real(leaf)
    requires d == sources + "/" + sha + "/" + part && path == d + "/" + leaf
    ensures Normal(path) && Above(path) == {sources, sources + "/" + sha, d}
  {
    PlainName(sources);
    InDirectory(sources, sha);
    LongNames(part, sources + "/" + sha, d, path, leaf);
  }

  lemma DeepNames(part: string)
    requires '/' !in part && |part| > 1
    ensures Normal(DeepPath(part)) && Normal(DirectoryOf(part)) && DirectoryOf(part) in Above(DeepPath(part))
    ensures Above(DeepPath(part)) <= Ordinary + {DirectoryOf(part)}
    ensures IsSourcePath(DeepPath(part)) && IsSourcePath(DirectoryOf(part)) && DeepPath(part) !in Ordinary
  {
    var d, path := DirectoryOf(part), DeepPath(part);
    assert "sources" + "/" + "sha256" == "sources/sha256";
    TwoLevels("sources", "sha256", part, "b", d, path);
    var i := AboveParts(path, d);
    assert d[..15] == "sources/sha256/" && path[..15] == "sources/sha256/";
    assert |path| > 14;
  }

  lemma LongLengths(part: string)
    requires LongPart(part)
    ensures Utf8(DeepPath(part)) == 231 && Utf8(DirectoryOf(part)) == 229
  {
    Utf8Ascii(DirectoryOf(part));
    Utf8Ascii(DeepPath(part));
  }

  // ----- The archives with a stowaway -----

  /** Records, a manifest and a receipt that a plan could have written, and a source entry besides. */
  ghost predicate Stowaway(files: Files, h: Header, envelopes: seq<Envelope>, path: string, content: Bytes, f: Format, maxRecords: nat) {
    var m := ManifestOf(h, envelopes, SourceSet(map[path := content], []), f);
    && files == WithStowaway(h, envelopes, path, content, f)
    && IsSourcePath(path) && RoundTrips(f) && |envelopes| <= maxRecords
    && (forall e :: e in envelopes ==> PlannedEnvelope(e, f.codec))
    && f.manifestOk(m) && f.receiptOk(ReceiptOf(m, f, h.rest))
  }

  lemma PlannedKinds(envelopes: seq<Envelope>, codec: Codec)
    requires forall e :: e in envelopes ==> PlannedEnvelope(e, codec)
    ensures PlainKinds(envelopes)
  {
    forall kind | kind in KindsOf(envelopes) ensures '/' !in kind {
      KindIsPlain(kind);
    }
  }

  lemma KindIsPlain(kind: string)
    requires kind in PayloadKinds()
    ensures '/' !in kind
  {
  }

  /** One entry deep below the sources keeps out of the way of all the others. */
  lemma OneDeepEntry(names: set<string>, path: string, d: string)
    requires path in names && Above(path) <= Ordinary + {d} && IsSourcePath(d) && IsSourcePath(Place(path))
    requires Place(path) !in Ordinary
    requires forall name :: name in names && name != path ==> Tidy(name, Ordinary) && !IsSourcePath(name)
    ensures Disjoint(names)
  {
    forall a, b {:trigger Apart(a, b)} | a in names && b in names && a != b ensures Apart(a, b) {
      if a != path {
        NormalParts(a);
      }
      if b != path {
        NormalParts(b);
      }
    }
  }

  lemma StowawayExtracts(
      files: Files, h: Header, envelopes: seq<Envelope>, path: string, content: Bytes, f: Format, maxRecords: nat, d: string)
    requires Stowaway(files, h, envelopes, path, content, f, maxRecords)
    requires Above(path) <= Ordinary + {d} && IsSourcePath(d) && IsSourcePath(Place(path)) && Place(path) !in Ordinary
    ensures Validate(files, f, maxRecords).Ok? && path in files && Extract(files).Some?
  {
    StowawayValidates(h, envelopes, path, content, f, maxRecords);
    PlannedKinds(envelopes, f.codec);
    forall name | name in files.Keys && name != path ensures Tidy(name, Ordinary) && !IsSourcePath(name) {
      StowawayNames(h, envelopes, path, content, f, name);
      OrdinaryTidy(name);
    }
    OneDeepEntry(files.Keys, path, d);
  }

  /**
   An archive with an unlisted source entry in a directory of 229 bytes is within the limits of the
   default profile, is supported and extracts, and does not fit: 229 and 12 bytes are more than 240.
   */
  lemma LongDirectoryDoesNotFit(
      files: Files, h: Header, envelopes: seq<Envelope>, part: string, content: Bytes, receipt: seq<int>, w: Wire, p: Limits)
    requires LongPart(part) && p.maxPathBytes == 240
    requires Stowaway(files, h, envelopes, DeepPath(part), content, w.format, p.maxRecords) && WithinBudget(files, w, p)
    ensures Supported(files, w, p) && Extract(files).Some? && !PackageFits(files, receipt, p)
  {
    var d, path := DirectoryOf(part), DeepPath(part);
    DeepNames(part);
    LongLengths(part);
    NormalParts(path);
    StowawayExtracts(files, h, envelopes, path, content, w.format, p.maxRecords, d);
    assert d in Directories(files.Keys);
  }

  /** The name `sources/sha256/<part>//b`: it denotes a path, and is not that path. */
  function StrayPath(part: string): string { DirectoryOf(part) + "/" + "" + "/" + "b" }

  lemma StrayComponents(c: seq<string>, leaf: string)
    requires Real(leaf)
    ensures Filter(c + [""] + [leaf], Real) == Filter(c + [leaf], Real)
  {
    var stray := c + [""] + [leaf];
    assert stray[..|stray| - 1] == c + [""] && (c + [""])[..|c|] == c && (c + [leaf])[..|c|] == c;
  }

  lemma StrayParts(d: string, leaf: string)
    requires '/' !in leaf && Real(leaf)
    ensures !Normal(d + "/" + "" + "/" + leaf) && Parts(d + "/" + "" + "/" + leaf) == Parts(d + "/" + leaf)
  {
    var c, stray := Components(d), d + "/" + "" + "/" + leaf;
    ComponentsAppend(d, "");
    ComponentsAppend(d + "/" + "", leaf);
    ComponentsAppend(d, leaf);
    StrayComponents(c, leaf);
    assert Components(stray)[|c|] == "" && Components(stray)[|c|] in Components(stray);
  }

  /** An archive with a source entry under a name that has an empty component is supported and does not fit. */
  lemma StrayNameDoesNotFit(
      files: Files, h: Header, envelopes: seq<Envelope>, part: string, content: Bytes, receipt: seq<int>, w: Wire, p: Limits)
    requires '/' !in part && |part| > 1
    requires Stowaway(files, h, envelopes, StrayPath(part), content, w.format, p.maxRecords) && WithinBudget(files, w, p)
    ensures Supported(files, w, p) && Extract(files).Some? && !PackageFits(files, receipt, p)
  {
    var d, path := DirectoryOf(part), DeepPath(part);
    DeepNames(part);
    NormalParts(path);
    assert '/' !in "b" && Real("b");
    StrayParts(d, "b");
    StowawayExtracts(files, h, envelopes, StrayPath(part), content, w.format, p.maxRecords, d);
    assert !Normal(StrayPath(part));
  }

  /** Importing the first of these archives parks it, with no recovery cut off, and blocks every later import. */
  lemma LongDirectoryParks(
      h: Header, envelopes: seq<Envelope>, part: string, content: Bytes, w: Wire, p: Limits,
      x: ExchangeImport.ApplyInput, cut: nat, later: ExchangeImport.ApplyInput)
    requires ExchangeImport.ReceiptsRead(ReaderOf(w, p)) && PlainNamesSafe(w)
    requires LongPart(part) && p.maxPathBytes == 240
    requires Stowaway(x.archive, h, envelopes, DeepPath(part), content, w.format, p.maxRecords) && WithinBudget(x.archive, w, p)
    requires ExchangePublication.Requested(ReaderOf(w, p), x) && cut >= ExchangeImport.RENAME
    ensures var r := ReaderOf(w, p);
      var d := ExchangeImport.Run(r, [ExchangeImport.ApplyRun(x, cut)]);
      && ExchangeImport.Decide(r, d, x.importId) == Some(ExchangeImport.Manual)
      && !ExchangeImportRecovery.Lost(ExchangeImport.SlotOf(d, x.importId))
      && ExchangeImport.ApplyTrace(r, d, later).states == [d]
  {
    var receipt := w.writeReceipt(ExchangeImport.ReceiptOf(ReaderOf(w, p), x));
    LongDirectoryDoesNotFit(x.archive, h, envelopes, part, content, receipt, w, p);
    ExchangePublication.MisfitParks(w, p, x, cut, later);
  }
}
