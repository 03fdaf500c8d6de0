/** The loops that extract an archive and check a published package. */
module ExchangePackageReader {
  import opened Wrappers
  import opened BundlePaths
  import opened ExchangeBundle
  import opened ExchangePackage
  import opened ExchangePackageChecks
  import ExchangeBuild
  import ExchangeImport
  import Listing

  function Members(names: seq<string>): set<string> { set name | name in names }

  function Part(files: Files, names: set<string>): Files { map name | name in files && name in names :: files[name] }

  // ----- Extraction -----

  lemma PlacedInsert(files: Files, name: string, content: seq<int>)
    requires name !in files && Disjoint(files.Keys + {name})
    ensures Placed(files[name := content]) == Placed(files)[Place(name) := content]
  {
    var longer := files[name := content];
    assert longer.Keys == files.Keys + {name};
    PlacedAt(longer, name);
    forall path | path in Placed(files) ensures path in Placed(longer) && path != Place(name) && Placed(longer)[path] == Placed(files)[path] {
      var other := PlacedFrom(files, path);
      assert Apart(other, name);
      PlacedAt(files, other);
      PlacedAt(longer, other);
    }
    forall path | path in Placed(longer) ensures path in Placed(files)[Place(name) := content] {
      var other := PlacedFrom(longer, path);
      if other != name {
        PlacedAt(files, other);
      }
    }
    SameFiles(Placed(files)[Place(name) := content], Placed(longer));
  }

  /** The directory after extracting some of the entries. */
  ghost predicate Holds(tree: Tree, files: Files, done: set<string>) {
    tree.files == Placed(Part(files, done)) && tree.directories == Directories(done)
  }

  /** An entry finds its place taken, or a file where it needs a directory. */
  predicate Blocked(tree: Tree, name: string) {
    || Place(name) in tree.files || Place(name) in tree.directories
    || exists d :: d in Above(name) && d in tree.files
  }

  lemma BlockedMeans(tree: Tree, files: Files, done: set<string>, name: string)
    requires done <= files.Keys && name !in done && Disjoint(done) && Holds(tree, files, done)
    ensures Blocked(tree, name) <==> !Disjoint(done + {name})
  {
    var part := Part(files, done);
    if Place(name) in tree.files {
      var other := PlacedFrom(part, Place(name));
      assert !Apart(other, name);
    }
    if Place(name) in tree.directories {
      var other :| other in done && Place(name) in Above(other);
      assert !Apart(name, other);
    }
    if d :| d in Above(name) && d in tree.files {
      var other := PlacedFrom(part, d);
      assert !Apart(other, name);
    }
    if !Blocked(tree, name) {
      forall a, b {:trigger Apart(a, b)} | a in done + {name} && b in done + {name} && a != b ensures Apart(a, b) {
        UnblockedApart(tree, files, done, name, a, b);
      }
    }
  }

  lemma UnblockedApart(tree: Tree, files: Files, done: set<string>, name: string, a: string, b: string)
    requires done <= files.Keys && name !in done && Disjoint(done) && Holds(tree, files, done) && !Blocked(tree, name)
    requires a in done + {name} && b in done + {name} && a != b
    ensures Apart(a, b)
  {
    var part := Part(files, done);
    assert part.Keys == done;
    if b == name {
      PlacedAt(part, a);
    } else if a == name {
      PlacedAt(part, b);
      assert Place(name) !in Directories(done);
    }
  }

  lemma HoldsMore(tree: Tree, files: Files, done: set<string>, name: string)
    requires done <= files.Keys && name in files && name !in done && Disjoint(done + {name}) && Holds(tree, files, done)
    ensures Holds(ExchangeImport.Tree(tree.files[Place(name) := files[name]], tree.directories + Above(name)), files, done + {name})
  {
    var part := Part(files, done);
    assert part.Keys == done;
    PlacedInsert(part, name, files[name]);
    assert Part(files, done + {name}) == part[name := files[name]];
    assert Directories(done + {name}) == Directories(done) + Above(name);
  }

  lemma NothingHeld(files: Files)
    ensures Holds(ExchangeImport.Tree(map[], {}), files, {}) && Disjoint({})
  {
    assert Part(files, {}) == map[];
  }

  lemma AllHeld(tree: Tree, files: Files)
    requires Holds(tree, files, files.Keys) && Disjoint(files.Keys)
    ensures Extract(files) == Some(tree)
  {
    assert Part(files, files.Keys) == files;
  }

  /** Extracts the entries in name order; the first that is blocked ends it. */
  method ExtractTo(files: Files) returns (r: Option<Tree>)
    ensures r == Extract(files)
  {
    var names := Listing.List(files.Keys);
    Listing.SortedListsSet(files.Keys);
    var tree := ExchangeImport.Tree(map[], {});
    ghost var done := {};
    NothingHeld(files);
    for i := 0 to |names|
      invariant done == Members(names[..i])
      invariant done <= files.Keys && Disjoint(done) && Holds(tree, files, done)
    {
      var name := names[i];
      NextName(names, i);
      assert name in names;
      BlockedMeans(tree, files, done, name);
      if Blocked(tree, name) {
        StaysClashing(done + {name}, files.Keys);
        return None;
      }
      HoldsMore(tree, files, done, name);
      tree := ExchangeImport.Tree(tree.files[Place(name) := files[name]], tree.directories + Above(name));
      done := done + {name};
    }
    assert names[..|names|] == names;
    AllNames(files, names);
    AllHeld(tree, files);
    r := Some(tree);
  }

  lemma NextName(names: seq<string>, i: nat)
    requires i < |names| && forall j, k :: 0 <= j < k < |names| ==> names[j] != names[k]
    ensures names[i] !in names[..i]
    ensures Members(names[..i + 1]) == Members(names[..i]) + {names[i]}
  {
    assert names[..i + 1] == names[..i] + [names[i]];
  }

  lemma StaysClashing(some: set<string>, all: set<string>)
    requires some <= all && !Disjoint(some)
    ensures !Disjoint(all)
  {
    var a, b :| a in some && b in some && a != b && !Apart(a, b);
    assert !Apart(a, b);
  }

  // ----- The walk over a package -----

  lemma {:induction false} TotalGrows(files: Files, name: string)
    requires name in files
    ensures Total(files - {name}) <= Total(files)
  {
    TotalRemove(files, name);
  }

  lemma {:induction false} TotalOfPart(files: Files, names: set<string>)
    requires names <= files.Keys
    ensures Total(Part(files, names)) <= Total(files)
    decreases files.Keys - names
  {
    if names == files.Keys {
      assert Part(files, names) == files;
    } else {
      var name :| name in files && name !in names;
      TotalOfPart(files, names + {name});
      var part := Part(files, names);
      assert Part(files, names + {name}) == part[name := files[name]];
      TotalAdd(part, name, files[name]);
    }
  }

  method ScanDirectories(directories: set<string>, w: Wire, p: Limits) returns (fits: bool)
    ensures fits <==> forall d :: d in directories ==> PathOk(d + "/" + Placeholder, w, p)
  {
    var names := Listing.List(directories);
    Listing.SortedListsSet(directories);
    for i := 0 to |names|
      invariant forall k :: 0 <= k < i ==> PathOk(names[k] + "/" + Placeholder, w, p)
    {
      if !PathOk(names[i] + "/" + Placeholder, w, p) {
        assert names[i] in names;
        return false;
      }
    }
    fits := true;
    forall d | d in directories ensures PathOk(d + "/" + Placeholder, w, p) {
      assert d in names;
    }
  }

  /** One file of the walk is within the limits. */
  predicate FileOk(name: string, content: seq<int>, w: Wire, p: Limits) {
    && PathOk(name, w, p) && |content| <= p.maxEntryBytes
    && (name == ManifestName ==> |content| <= p.maxManifestBytes)
  }

  /** One more file of the walk: the total grows by its size, and is at most the whole. */
  lemma NextFile(files: Files, done: set<string>, name: string)
    requires done <= files.Keys && name in files && name !in done
    ensures Total(Part(files, done + {name})) == Total(Part(files, done)) + |files[name]|
    ensures Total(Part(files, done + {name})) <= Total(files)
  {
    assert Part(files, done + {name}) == Part(files, done)[name := files[name]];
    TotalAdd(Part(files, done), name, files[name]);
    TotalOfPart(files, done + {name});
  }

  ghost predicate FilesOk(files: Files, names: set<string>, w: Wire, p: Limits) {
    forall name :: name in files && name in names ==> FileOk(name, files[name], w, p)
  }

  lemma FilesOkMore(files: Files, done: set<string>, name: string, w: Wire, p: Limits)
    requires done <= files.Keys && name in files
    ensures FilesOk(files, done + {name}, w, p) <==> FilesOk(files, done, w, p) && FileOk(name, files[name], w, p)
    ensures !FileOk(name, files[name], w, p) ==> !FilesOk(files, files.Keys, w, p)
  {
  }

  method ScanFiles(files: Files, w: Wire, p: Limits) returns (fits: bool)
    ensures fits <==> FilesOk(files, files.Keys, w, p) && |files| <= p.maxEntries + 1 && Total(files) <= p.maxStagingBytes
  {
    var names := Listing.List(files.Keys);
    Listing.SortedListsSet(files.Keys);
    Listing.SortedMembers(files.Keys);
    assert |names| == |files.Keys| == |files|;
    var total := 0;
    ghost var done: set<string> := {};
    assert Part(files, {}) == map[];
    for i := 0 to |names|
      invariant done == Members(names[..i]) && done <= files.Keys
      invariant total == Total(Part(files, done)) <= p.maxStagingBytes && i <= p.maxEntries + 1
      invariant FilesOk(files, done, w, p)
    {
      var name := names[i];
      NextName(names, i);
      assert name in names;
      NextFile(files, done, name);
      FilesOkMore(files, done, name, w, p);
      done := done + {name};
      total := total + |files[name]|;
      if !FileOk(name, files[name], w, p) || i + 1 > p.maxEntries + 1 || total > p.maxStagingBytes {
        return false;
      }
    }
    assert names[..|names|] == names;
    AllNames(files, names);
    fits := true;
  }

  lemma AllNames(files: Files, names: seq<string>)
    requires forall name :: name in names <==> name in files.Keys
    ensures Members(names) == files.Keys && Part(files, Members(names)) == files
  {
    assert Members(names) == files.Keys;
  }

  /** The walk over a package directory. */
  method ScanPackage(tree: Tree, w: Wire, p: Limits) returns (fits: bool)
    ensures fits == ScanFits(tree, w, p)
  {
    var directories := ScanDirectories(tree.directories, w, p);
    var files := ScanFiles(tree.files, w, p);
    FilesOkMeans(tree.files, w, p);
    fits := directories && files;
  }

  lemma FilesOkMeans(files: Files, w: Wire, p: Limits)
    ensures FilesOk(files, files.Keys, w, p) <==>
      && (forall name :: name in files ==> PathOk(name, w, p))
      && (forall name :: name in files ==> |files[name]| <= p.maxEntryBytes)
      && (ManifestName in files ==> |files[ManifestName]| <= p.maxManifestBytes)
  {
    if FilesOk(files, files.Keys, w, p) {
      assert ManifestName in files ==> FileOk(ManifestName, files[ManifestName], w, p);
    }
  }

  method CheckBundle(tree: Tree, receipt: ImportReceipt, w: Wire, p: Limits) returns (matches: bool)
    ensures matches == BundleMatches(tree, receipt, w, p)
  {
    var files := tree.files - {RECEIPT};
    var bundle := ExchangeBuild.ValidateSupportedBundle(files, w.format, p.maxRecords);
    matches := bundle.Ok? && ManifestName in files
      && receipt.binding == BindingOf(bundle.value, files[ManifestName], w.format);
  }

  method CheckPackage(tree: Tree, receipt: ImportReceipt, w: Wire, p: Limits) returns (sound: bool)
    requires Read(tree.files, RECEIPT, w.readReceipt) == Some(receipt)
    ensures sound == Sound(tree, w, p)
  {
    var fits := ScanPackage(tree, w, p);
    var manifest := Read(tree.files, ManifestName, w.format.readManifest);
    if !fits || manifest.None? || !InventoryMatches(tree, manifest.value) {
      return false;
    }
    sound := CheckBundle(tree, receipt, w, p);
  }

  /** Reads a published package: its receipt, when everything in the directory matches it. */
  method ReadValidatedPackage(tree: Tree, archiveSha: Option<string>, w: Wire, p: Limits) returns (r: Option<ImportReceipt>)
    ensures r == (var found := ExchangeImport.Inspect(ReaderOf(w, p), tree);
      if found.Some? && archiveSha.Some? && found.value.archiveSha != archiveSha.value then None else found)
  {
    var receipt := Read(tree.files, RECEIPT, w.readReceipt);
    if receipt.None? || !w.receiptOk(receipt.value) {
      return None;
    }
    if archiveSha.Some? && receipt.value.archiveSha != archiveSha.value {
      return None;
    }
    var sound := CheckPackage(tree, receipt.value, w, p);
    r := if sound then receipt else None;
  }
}
