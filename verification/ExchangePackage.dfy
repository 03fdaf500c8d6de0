/** From an exchange archive to a published package: extraction, and the checks the package must pass. */
module ExchangePackage {
  import opened Wrappers
  import opened BundlePaths
  import opened ExchangeBundle
  import ExchangeImport

  type Tree = ExchangeImport.Tree
  type ImportReceipt = ExchangeImport.Receipt
  type Binding = ExchangeImport.Binding

  const RECEIPT: string := ExchangeImport.RECEIPT

  /** The budget of the safe reader. */
  datatype Limits = Limits(
    maxArchiveBytes: nat,
    maxEntries: nat,
    maxEntryBytes: nat,
    maxTotalBytes: nat,
    maxStagingBytes: nat,
    maxManifestBytes: nat,
    maxRecords: nat,
    maxPathBytes: nat)

  /** The default profile of the safe reader. */
  const DefaultLimits := Limits(
    0x1_0000_0000, 10_000, 0x2000_0000, 0x2_0000_0000, 0x2_8000_0000, 0x200_0000, 500_000, 240)

  /**
   What is used without looking inside: the bundle formats, the platform's rules for one part of a
   path, case folding, the size of the archive file, and the digests and texts of an import.
   */
  datatype Wire = Wire(
    format: Format,
    safePart: string -> bool,
    casefold: string -> string,
    archiveBytes: Files -> nat,
    digest: Files -> string,
    basis: (string, Option<string>) -> string,
    receiptOk: ImportReceipt -> bool,
    writeReceipt: ImportReceipt -> seq<int>,
    readReceipt: seq<int> -> Option<ImportReceipt>)

  // ----- Sizes -----

  ghost function Total(files: Files): nat {
    if files == map[] then 0
    else
      var name :| name in files;
      |files[name]| + Total(files - {name})
  }

  lemma {:induction false} TotalRemove(files: Files, name: string)
    requires name in files
    ensures Total(files) == |files[name]| + Total(files - {name})
  {
    var first :| first in files && Total(files) == |files[first]| + Total(files - {first});
    if first != name {
      TotalRemove(files - {first}, name);
      TotalRemove(files - {name}, first);
      assert files - {first} - {name} == files - {name} - {first};
    }
  }

  lemma TotalAdd(files: Files, name: string, content: seq<int>)
    requires name !in files
    ensures Total(files[name := content]) == Total(files) + |content|
  {
    TotalRemove(files[name := content], name);
    assert files[name := content] - {name} == files;
  }

  // ----- Names -----

  /** A safe relative path within the limit. */
  predicate PathOk(s: string, w: Wire, p: Limits) {
    && s != "" && s[0] != '/' && s[|s| - 1] != '/' && Utf8(s) <= p.maxPathBytes
    && forall part :: part in Parts(s) ==> part != ".." && w.safePart(part)
  }

  predicate NoCaseCollisions(names: set<string>, w: Wire) {
    forall a, b :: a in names && b in names && a != b ==> w.casefold(a) != w.casefold(b)
  }

  // ----- Inspecting an archive -----

  /** What the safe reader asks of the entries of an archive. */
  ghost predicate WithinBudget(files: Files, w: Wire, p: Limits) {
    && 0 < w.archiveBytes(files) <= p.maxArchiveBytes
    && 0 < |files| <= p.maxEntries
    && (forall name :: name in files ==> PathOk(name, w, p))
    && NoCaseCollisions(files.Keys, w)
    && (forall name :: name in files ==> |files[name]| <= p.maxEntryBytes)
    && Total(files) <= p.maxTotalBytes && Total(files) <= p.maxStagingBytes
    && (ManifestName in files ==> |files[ManifestName]| <= p.maxManifestBytes)
  }

  ghost predicate Supported(files: Files, w: Wire, p: Limits) {
    WithinBudget(files, w, p) && Validate(files, w.format, p.maxRecords).Ok?
  }

  function BindingOf(b: Bundle, manifest: seq<int>, f: Format): Binding {
    ExchangeImport.Binding(f.codec.sha(manifest), b.manifest.originId, b.manifest.exportId, |b.envelopes|, |b.sources|)
  }

  /** What a receipt repeats from a supported archive. */
  ghost function BindingIn(files: Files, w: Wire, p: Limits): Binding {
    var bundle := Validate(files, w.format, p.maxRecords);
    if bundle.Ok? && ManifestName in files then BindingOf(bundle.value, files[ManifestName], w.format)
    else ExchangeImport.Binding("", "", "", 0, 0)
  }

  // ----- Extraction -----

  predicate Apart(a: string, b: string) { Place(a) != Place(b) && Place(a) !in Above(b) }

  /** No entry lands on another one, or below one. */
  predicate Disjoint(names: set<string>) {
    forall a, b {:trigger Apart(a, b)} :: a in names && b in names && a != b ==> Apart(a, b)
  }

  function Directories(names: set<string>): set<string> { set name, d | name in names && d in Above(name) :: d }

  /** Every entry's content at the path it denotes. */
  ghost function Placed(files: Files): Files {
    if files == map[] then map[]
    else
      var name :| name in files;
      Placed(files - {name})[Place(name) := files[name]]
  }

  /** The directory an extraction leaves; nothing when entries get into each other's way. */
  ghost function Extract(files: Files): Option<Tree> {
    if Disjoint(files.Keys) then Some(ExchangeImport.Tree(Placed(files), Directories(files.Keys))) else None
  }

  // ----- The package checks -----

  const Placeholder := "placeholder"

  /** The walk over a package directory stays within the limits. */
  ghost predicate ScanFits(tree: Tree, w: Wire, p: Limits) {
    && (forall d :: d in tree.directories ==> PathOk(d + "/" + Placeholder, w, p))
    && (forall name :: name in tree.files ==> PathOk(name, w, p))
    && |tree.files| <= p.maxEntries + 1
    && (forall name :: name in tree.files ==> |tree.files[name]| <= p.maxEntryBytes)
    && Total(tree.files) <= p.maxStagingBytes
    && (ManifestName in tree.files ==> |tree.files[ManifestName]| <= p.maxManifestBytes)
  }

  function Read<T>(files: Files, name: string, read: seq<int> -> Option<T>): Option<T> {
    if name in files then read(files[name]) else None
  }

  /** The files and directories of a package are the ones its manifest declares. */
  predicate InventoryMatches(tree: Tree, m: Manifest) {
    var expected := {ManifestName, ReceiptName, RECEIPT} + PathsOf(m.entries);
    tree.files.Keys == expected && tree.directories == Directories(expected)
  }

  ghost predicate BundleMatches(tree: Tree, receipt: ImportReceipt, w: Wire, p: Limits) {
    var files := tree.files - {RECEIPT};
    var bundle := Validate(files, w.format, p.maxRecords);
    bundle.Ok? && ManifestName in files && receipt.binding == BindingOf(bundle.value, files[ManifestName], w.format)
  }

  /** Everything a package directory must satisfy besides holding a receipt that validates. */
  ghost predicate Sound(tree: Tree, w: Wire, p: Limits) {
    var receipt := Read(tree.files, RECEIPT, w.readReceipt);
    var manifest := Read(tree.files, ManifestName, w.format.readManifest);
    && receipt.Some? && ScanFits(tree, w, p)
    && manifest.Some? && InventoryMatches(tree, manifest.value)
    && BundleMatches(tree, receipt.value, w, p)
  }

  /** The archive reader of a wire format and a profile. */
  ghost function ReaderOf(w: Wire, p: Limits): ExchangeImport.Reader {
    ExchangeImport.Reader(
      w.digest,
      files => Supported(files, w, p),
      files => BindingIn(files, w, p),
      w.basis,
      files => Extract(files),
      w.receiptOk,
      w.writeReceipt,
      w.readReceipt,
      tree => Sound(tree, w, p))
  }

  // ----- What the checks come to for an extracted archive -----

  predicate AllNormal(names: set<string>) { forall name {:trigger Normal(name)} :: name in names ==> Normal(name) }

  /** Every directory above an entry leaves room for a placeholder of eleven bytes. */
  predicate DirectoriesFit(names: set<string>, p: Limits) {
    forall d :: d in Directories(names) ==> Utf8(d) + 12 <= p.maxPathBytes
  }

  /** There is room for the receipt, too. */
  ghost predicate ReceiptFits(files: Files, receipt: seq<int>, p: Limits) {
    && Utf8(RECEIPT) <= p.maxPathBytes && |receipt| <= p.maxEntryBytes
    && Total(files) + |receipt| <= p.maxStagingBytes
  }

  /** What a caller can check of an archive before importing it. */
  ghost predicate PackageFits(files: Files, receipt: seq<int>, p: Limits) {
    AllNormal(files.Keys) && DirectoriesFit(files.Keys, p) && ReceiptFits(files, receipt, p)
  }
}
