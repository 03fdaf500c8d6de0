/** When an extracted archive passes the checks of a published package. */
module ExchangePackageChecks {
  import opened Wrappers
  import opened BundlePaths
  import opened ExchangeBundle
  import opened ExchangePackage
  import ExchangeImport

  // ----- What validation says about names -----

  /** A valid bundle holds its two control files and otherwise the data files its manifest declares. */
  lemma ValidMeans(files: Files, f: Format, maxRecords: nat)
    requires Validate(files, f, maxRecords).Ok?
    ensures ManifestName in files && ReceiptName in files
    ensures var m := Validate(files, f, maxRecords).value.manifest;
      && f.readManifest(files[ManifestName]) == Some(m) && PathsOf(m.entries) == DataOf(files).Keys
      && forall path :: path in DataOf(files) ==> DataPath(path)
  {
    var m := Validate(files, f, maxRecords).value.manifest;
    ContentsKeepManifest(m, files, f, maxRecords);
    forall path | path in DataOf(files) ensures DataPath(path) {
      var d :| d in m.entries && d.path == path;
    }
  }

  lemma ContentsKeepManifest(m: Manifest, files: Files, f: Format, maxRecords: nat)
    requires Contents(m, files, f, maxRecords).Ok?
    ensures Contents(m, files, f, maxRecords).value.manifest == m
    ensures forall d :: d in m.entries ==> Classify(d.path, m.kindCounts, m.sourceCount).Some?
  {
  }

  lemma ReceiptApart()
    ensures !DataPath(RECEIPT) && RECEIPT != ManifestName && RECEIPT != ReceiptName && RECEIPT != ""
    ensures '/' !in RECEIPT && '/' !in ManifestName && '/' !in ReceiptName && '/' !in Placeholder
  {
    PrefixAt(RECEIPT, "records/", 0);
    PrefixAt(RECEIPT, "sources/sha256/", 0);
    assert RECEIPT[0] == 'i' && ManifestName[0] == 'm' && ReceiptName[0] == 'r' && IndexName[0] == 's';
  }

  lemma PlainName(name: string)
    requires '/' !in name && Real(name)
    ensures Normal(name) && Place(name) == name && Parts(name) == [name] && Above(name) == {}
  {
    ComponentsOne(name);
    NormalParts(name);
  }

  lemma SupportedNames(files: Files, w: Wire, p: Limits)
    requires Supported(files, w, p)
    ensures RECEIPT !in files && ManifestName in files && ReceiptName in files
    ensures Normal(ManifestName) && Place(ManifestName) == ManifestName
    ensures w.format.readManifest(files[ManifestName]).Some?
    ensures var m := w.format.readManifest(files[ManifestName]).value;
      {ManifestName, ReceiptName} + PathsOf(m.entries) == files.Keys
  {
    ValidMeans(files, w.format, p.maxRecords);
    ReceiptApart();
    PlainName(ManifestName);
    assert RECEIPT in files ==> RECEIPT in DataOf(files);
  }

  // ----- What an extraction leaves -----

  lemma {:induction false} PlacedAt(files: Files, name: string)
    requires Disjoint(files.Keys) && name in files
    ensures Place(name) in Placed(files) && Placed(files)[Place(name)] == files[name]
  {
    var first :| first in files && Placed(files) == Placed(files - {first})[Place(first) := files[first]];
    if first != name {
      assert Apart(first, name);
      PlacedAt(files - {first}, name);
    }
  }

  lemma {:induction false} PlacedFrom(files: Files, path: string) returns (name: string)
    requires path in Placed(files)
    ensures name in files && Place(name) == path
  {
    var first :| first in files && Placed(files) == Placed(files - {first})[Place(first) := files[first]];
    if path == Place(first) {
      name := first;
    } else {
      name := PlacedFrom(files - {first}, path);
    }
  }

  lemma NormalPlacedAt(files: Files, name: string)
    requires Disjoint(files.Keys) && name in files && Normal(name)
    ensures name in Placed(files) && Placed(files)[name] == files[name]
  {
    NormalParts(name);
    PlacedAt(files, name);
  }

  lemma PlacedNormal(files: Files)
    requires Disjoint(files.Keys) && AllNormal(files.Keys)
    ensures Placed(files) == files
  {
    forall name | name in files ensures name in Placed(files) && Placed(files)[name] == files[name] {
      assert Normal(name);
      NormalPlacedAt(files, name);
    }
    forall path | path in Placed(files) ensures path in files {
      var name := PlacedFrom(files, path);
      assert Normal(name);
      NormalParts(name);
    }
    SameFiles(Placed(files), files);
  }

  lemma SameFiles(a: Files, b: Files)
    requires a.Keys == b.Keys && forall name :: name in b ==> name in a && a[name] == b[name]
    ensures a == b
  {
  }

  /** A name that is not the path it denotes is never the name of an extracted file. */
  lemma StrayName(files: Files, name: string)
    requires name != "" && !Normal(name)
    ensures name !in Placed(files)
  {
    if name in Placed(files) {
      var other := PlacedFrom(files, name);
      if Parts(other) != [] {
        PlaceIsNormal(other);
      }
    }
  }

  function Sealed(tree: Tree, receipt: ImportReceipt, w: Wire): Tree {
    tree.(files := tree.files[RECEIPT := w.writeReceipt(receipt)])
  }

  /** An archive with an empty or dot component in some name is refused once it is published. */
  lemma StrayNameRefused(files: Files, receipt: ImportReceipt, w: Wire, p: Limits, name: string)
    requires Supported(files, w, p) && Disjoint(files.Keys) && name in files && !Normal(name)
    ensures !Sound(Sealed(Extract(files).value, receipt, w), w, p)
  {
    var tree := Sealed(Extract(files).value, receipt, w);
    SupportedNames(files, w, p);
    ReceiptApart();
    PlacedAt(files, ManifestName);
    assert PathOk(name, w, p);
    StrayName(files, name);
    assert name !in tree.files;
    assert tree.files[ManifestName] == files[ManifestName];
  }

  // ----- The walk over an extracted archive -----

  /** The platform's rules accept the two names the service adds. */
  predicate PlainNamesSafe(w: Wire) { w.safePart(Placeholder) && w.safePart(RECEIPT) }

  lemma PlaceholderLength()
    ensures Utf8("/" + Placeholder) == 12
  {
    Utf8Ascii("/" + Placeholder);
  }

  lemma NormalStart(d: string)
    requires Normal(d)
    ensures d != "" && d[0] != '/'
  {
    var parts := Components(d);
    ComponentsSlashFree(d);
    assert parts[0] in parts;
    JoinStarts(parts);
    JoinComponents(d);
    assert parts[0][0] in parts[0];
  }

  lemma ChildLength(d: string)
    ensures Utf8(d + "/" + Placeholder) == Utf8(d) + 12
  {
    assert d + "/" + Placeholder == d + ("/" + Placeholder);
    Utf8Append(d, "/" + Placeholder);
    PlaceholderLength();
  }

  lemma DirectoryParts(name: string, d: string, w: Wire, p: Limits)
    requires PathOk(name, w, p) && PlainNamesSafe(w) && d in Above(name)
    ensures Normal(d) && forall part :: part in Parts(d + "/" + Placeholder) ==> part != ".." && w.safePart(part)
  {
    var i := AboveParts(name, d);
    ReceiptApart();
    ChildParts(d, Placeholder);
    forall part | part in Parts(d + "/" + Placeholder) ensures part != ".." && w.safePart(part) {
      if part != Placeholder {
        assert part in Parts(d);
        assert part in Parts(name);
      }
    }
  }

  /** A directory above a safe name is safe with a placeholder exactly when there is room for it. */
  lemma DirectoryOk(name: string, d: string, w: Wire, p: Limits)
    requires PathOk(name, w, p) && PlainNamesSafe(w) && d in Above(name)
    ensures PathOk(d + "/" + Placeholder, w, p) <==> Utf8(d) + 12 <= p.maxPathBytes
  {
    var longer := d + "/" + Placeholder;
    DirectoryParts(name, d, w, p);
    ChildLength(d);
    NormalStart(d);
    assert longer[0] == d[0] && longer[|longer| - 1] == Placeholder[10];
  }

  lemma DirectoriesOk(names: set<string>, w: Wire, p: Limits)
    requires PlainNamesSafe(w) && forall name :: name in names ==> PathOk(name, w, p)
    ensures (forall d :: d in Directories(names) ==> PathOk(d + "/" + Placeholder, w, p)) <==> DirectoriesFit(names, p)
  {
    forall d | d in Directories(names) ensures PathOk(d + "/" + Placeholder, w, p) <==> Utf8(d) + 12 <= p.maxPathBytes {
      var name :| name in names && d in Above(name);
      DirectoryOk(name, d, w, p);
    }
  }

  lemma ReceiptPathOk(w: Wire, p: Limits)
    requires PlainNamesSafe(w)
    ensures PathOk(RECEIPT, w, p) <==> Utf8(RECEIPT) <= p.maxPathBytes
  {
    ReceiptApart();
    PlainName(RECEIPT);
    assert RECEIPT[0] == 'i' && RECEIPT[|RECEIPT| - 1] == 'n';
  }

  lemma SizesOk(files: Files, content: seq<int>, w: Wire, p: Limits)
    requires WithinBudget(files, w, p) && RECEIPT !in files
    ensures var whole := files[RECEIPT := content];
      && |whole| <= p.maxEntries + 1
      && (ManifestName in whole ==> |whole[ManifestName]| <= p.maxManifestBytes)
      && ((forall name :: name in whole ==> |whole[name]| <= p.maxEntryBytes) <==> |content| <= p.maxEntryBytes)
      && Total(whole) == Total(files) + |content|
  {
    var whole := files[RECEIPT := content];
    ReceiptApart();
    TotalAdd(files, RECEIPT, content);
    assert whole.Keys == files.Keys + {RECEIPT};
    assert |whole.Keys| == |files.Keys| + 1;
    assert |whole.Keys| == |whole| && |files.Keys| == |files|;
    assert whole[RECEIPT] == content;
  }

  lemma ScanExactly(files: Files, content: seq<int>, w: Wire, p: Limits)
    requires WithinBudget(files, w, p) && RECEIPT !in files && PlainNamesSafe(w)
    ensures ScanFits(ExchangeImport.Tree(files[RECEIPT := content], Directories(files.Keys)), w, p) <==>
      DirectoriesFit(files.Keys, p) && ReceiptFits(files, content, p)
  {
    var whole := files[RECEIPT := content];
    DirectoriesOk(files.Keys, w, p);
    ReceiptPathOk(w, p);
    SizesOk(files, content, w, p);
    assert RECEIPT in whole;
    forall name | name in whole ensures PathOk(name, w, p) <==> name in files || PathOk(RECEIPT, w, p) {
    }
  }

  // ----- The whole check -----

  lemma DirectoriesWith(names: set<string>, extra: string)
    requires Above(extra) == {}
    ensures Directories(names + {extra}) == Directories(names)
  {
  }

  lemma InventoryOfExtracted(files: Files, content: seq<int>, m: Manifest)
    requires {ManifestName, ReceiptName} + PathsOf(m.entries) == files.Keys
    ensures InventoryMatches(ExchangeImport.Tree(files[RECEIPT := content], Directories(files.Keys)), m)
  {
    ReceiptApart();
    PlainName(RECEIPT);
    DirectoriesWith(files.Keys, RECEIPT);
    InventoryWhen(ExchangeImport.Tree(files[RECEIPT := content], Directories(files.Keys)), files.Keys, m);
  }

  lemma InventoryWhen(tree: Tree, names: set<string>, m: Manifest)
    requires {ManifestName, ReceiptName} + PathsOf(m.entries) == names
    requires tree.files.Keys == names + {RECEIPT} && tree.directories == Directories(names + {RECEIPT})
    ensures InventoryMatches(tree, m)
  {
    assert {ManifestName, ReceiptName, RECEIPT} + PathsOf(m.entries) == names + {RECEIPT};
  }

  lemma BundleOfExtracted(files: Files, content: seq<int>, receipt: ImportReceipt, w: Wire, p: Limits)
    requires Supported(files, w, p) && receipt.binding == BindingIn(files, w, p) && RECEIPT !in files && ManifestName in files
    ensures BundleMatches(ExchangeImport.Tree(files[RECEIPT := content], Directories(files.Keys)), receipt, w, p)
  {
    assert files[RECEIPT := content] - {RECEIPT} == files;
  }

  /** Where receipt, manifest, inventory and bundle are fine, the walk decides. */
  lemma SoundWhen(tree: Tree, receipt: ImportReceipt, m: Manifest, w: Wire, p: Limits)
    requires Read(tree.files, RECEIPT, w.readReceipt) == Some(receipt)
    requires Read(tree.files, ManifestName, w.format.readManifest) == Some(m)
    requires InventoryMatches(tree, m) && BundleMatches(tree, receipt, w, p)
    ensures Sound(tree, w, p) <==> ScanFits(tree, w, p)
  {
  }

  lemma ExtractedRead(files: Files, receipt: ImportReceipt, w: Wire, p: Limits)
    requires Supported(files, w, p) && w.readReceipt(w.writeReceipt(receipt)) == Some(receipt)
    ensures RECEIPT !in files && ManifestName in files && w.format.readManifest(files[ManifestName]).Some?
    ensures {ManifestName, ReceiptName} + PathsOf(w.format.readManifest(files[ManifestName]).value.entries) == files.Keys
    ensures var whole := files[RECEIPT := w.writeReceipt(receipt)];
      && Read(whole, RECEIPT, w.readReceipt) == Some(receipt)
      && Read(whole, ManifestName, w.format.readManifest) == w.format.readManifest(files[ManifestName])
  {
    SupportedNames(files, w, p);
    ReceiptApart();
  }

  lemma NormalSoundExactly(files: Files, receipt: ImportReceipt, w: Wire, p: Limits)
    requires Supported(files, w, p) && PlainNamesSafe(w)
    requires w.readReceipt(w.writeReceipt(receipt)) == Some(receipt) && receipt.binding == BindingIn(files, w, p)
    ensures Sound(ExchangeImport.Tree(files[RECEIPT := w.writeReceipt(receipt)], Directories(files.Keys)), w, p) <==>
      DirectoriesFit(files.Keys, p) && ReceiptFits(files, w.writeReceipt(receipt), p)
  {
    var content := w.writeReceipt(receipt);
    var tree := ExchangeImport.Tree(files[RECEIPT := content], Directories(files.Keys));
    ExtractedRead(files, receipt, w, p);
    InventoryOfExtracted(files, content, w.format.readManifest(files[ManifestName]).value);
    BundleOfExtracted(files, content, receipt, w, p);
    SoundWhen(tree, receipt, w.format.readManifest(files[ManifestName]).value, w, p);
    ScanExactly(files, content, w, p);
  }

  lemma ExtractNormal(files: Files)
    requires Disjoint(files.Keys) && AllNormal(files.Keys)
    ensures Extract(files) == Some(ExchangeImport.Tree(files, Directories(files.Keys)))
  {
    PlacedNormal(files);
  }

  /** The package of a tree is sound exactly when the archive it was extracted from fits. */
  ghost predicate SoundWhenFits(files: Files, tree: Tree, receipt: ImportReceipt, w: Wire, p: Limits) {
    Sound(Sealed(tree, receipt, w), w, p) <==> PackageFits(files, w.writeReceipt(receipt), p)
  }

  lemma NormalPackage(files: Files, tree: Tree, receipt: ImportReceipt, w: Wire, p: Limits)
    requires Supported(files, w, p) && PlainNamesSafe(w)
    requires tree == ExchangeImport.Tree(files, Directories(files.Keys)) && AllNormal(files.Keys)
    requires w.readReceipt(w.writeReceipt(receipt)) == Some(receipt) && receipt.binding == BindingIn(files, w, p)
    ensures SoundWhenFits(files, tree, receipt, w, p)
  {
    NormalSoundExactly(files, receipt, w, p);
  }

  /**
   A supported archive whose extraction succeeds makes a package that passes its own checks if and only
   if no name has an empty or dot component, every directory above an entry leaves room for the walk's
   placeholder, and there is room for the receipt.
   */
  lemma PackageSoundExactly(files: Files, tree: Tree, receipt: ImportReceipt, w: Wire, p: Limits)
    requires Supported(files, w, p) && Extract(files) == Some(tree) && PlainNamesSafe(w)
    requires w.readReceipt(w.writeReceipt(receipt)) == Some(receipt) && receipt.binding == BindingIn(files, w, p)
    ensures SoundWhenFits(files, tree, receipt, w, p)
  {
    if AllNormal(files.Keys) {
      ExtractNormal(files);
      NormalPackage(files, tree, receipt, w, p);
    } else {
      var name :| name in files && !Normal(name);
      StrayNameRefused(files, receipt, w, p, name);
    }
  }
}
