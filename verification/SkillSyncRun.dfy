/** The synchroniser on a directory that is updated in place. */
module SkillSyncRun {
  import opened Wrappers
  import opened SkillTree
  import opened SkillSync
  import opened SkillWrite
  import opened SkillSyncResult
  import StringOrder
  import Sorting
  import opened Selection

  datatype SyncError = Undecodable | FileSystemError | Mismatch

  /** A directory on disk. */
  class Directory {
    var files: Files
    var dirs: set<Path>

    function View(): Tree
      reads this
    {
      Tree(files, dirs)
    }

    method Unlink(p: Path)
      modifies this
      ensures View() == old(View()).(files := old(files) - {p})
    {
      files := files - {p};
    }

    method RemoveDirectory(d: Path)
      modifies this
      ensures View() == old(View()).(dirs := old(dirs) - {d})
    {
      dirs := dirs - {d};
    }

    /** Creates the missing directories above `p`; fails when a file stands where one is needed. */
    method MakeParents(p: Path) returns (ok: bool)
      modifies this
      ensures ok <==> old(files).Keys !! Ancestors(p)
      ensures View() == if ok then Tree(old(files), old(dirs) + Ancestors(p)) else old(View())
    {
      ok := files.Keys !! Ancestors(p);
      if ok {
        dirs := dirs + Ancestors(p);
      }
    }

    method WriteBytes(p: Path, content: Bytes) returns (ok: bool)
      modifies this
      ensures ok <==> p !in old(dirs)
      ensures View() == if ok then old(View()).(files := old(files)[p := content]) else old(View())
    {
      ok := p !in dirs;
      if ok {
        files := files[p := content];
      }
    }

    /** Renames a file over another path, which must not be a directory. */
    method Rename(source: Path, target: Path) returns (ok: bool)
      requires source in files
      modifies this
      ensures ok <==> target !in old(dirs)
      ensures View() ==
        if ok then old(View()).(files := (old(files) - {source})[target := old(files)[source]]) else old(View())
    {
      ok := target !in dirs;
      if ok {
        files := (files - {source})[target := files[source]];
      }
    }

    /** One file: parents, temporary, rename. */
    method ReplaceFile(p: Path, content: Bytes, pid: string) returns (ok: bool)
      requires p != []
      modifies this
      ensures ok <==> Put(old(View()), p, content, pid).Some?
      ensures ok ==> View() == Put(old(View()), p, content, pid).value
    {
      TempBeside(p, pid);
      ok := MakeParents(p);
      if !ok {
        return;
      }
      ghost var before := files;
      ok := WriteBytes(Temp(p, pid), content);
      if !ok {
        return;
      }
      ok := Rename(Temp(p, pid), p);
      assert ok ==> files == (before - {Temp(p, pid)})[p := content];
    }
  }

  // ----- Listings -----

  method Enumerate(paths: set<Path>) returns (listing: seq<Path>)
    ensures forall p :: p in listing <==> p in paths
    ensures NoRepeats(listing)
  {
    listing := [];
    var todo := paths;
    while todo != {}
      invariant todo <= paths
      invariant forall p :: p in listing <==> p in paths && p !in todo
      invariant NoRepeats(listing)
    {
      var p :| p in todo;
      assert p !in listing;
      listing := listing + [p];
      todo := todo - {p};
    }
  }

  predicate DeeperFirst(p: Path, q: Path) { |p| >= |q| }

  function Itself(p: Path): Path { p }

  method ListDeepestFirst(t: Tree) returns (listing: seq<Path>)
    ensures DeepestFirst(listing, t)
  {
    var found := Enumerate(t.files.Keys + t.dirs);
    listing := Sorting.Sorted(found, DeeperFirst);
    Sorting.SortedContents(found, DeeperFirst);
    Sorting.SortedOrders(found, DeeperFirst);
    assert DistinctBy(found, Itself);
    DistinctPermutes(found, listing, Itself);
    assert forall i, j :: 0 <= i < j < |listing| ==> Itself(listing[i]) != Itself(listing[j]);
  }

  lemma PathOrder()
    ensures Sorting.TotalPreorder(PathLeq)
  {
    forall p: Path, q: Path ensures PathLeq(p, q) || PathLeq(q, p) {
      StringOrder.LeqTotal(Posix(p), Posix(q));
    }
    forall p: Path, q: Path, r: Path | PathLeq(p, q) && PathLeq(q, r) ensures PathLeq(p, r) {
      StringOrder.LeqTransitive(Posix(p), Posix(q), Posix(r));
    }
  }

  method ListFiles(files: Files) returns (order: seq<Path>)
    requires [] !in files
    ensures WriteOrder(order, files)
  {
    var found := Enumerate(files.Keys);
    order := Sorting.Sorted(found, PathLeq);
    Sorting.SortedContents(found, PathLeq);
    PathOrder();
    Sorting.SortedOrders(found, PathLeq);
    assert DistinctBy(found, Itself);
    DistinctPermutes(found, order, Itself);
    assert forall i, j :: 0 <= i < j < |order| ==> Itself(order[i]) != Itself(order[j]);
    assert forall i :: 0 <= i < |order| ==> order[i] in order;
  }

  // ----- Snapshots -----

  ghost predicate AllReadable(files: Files, codec: Codec) {
    forall p :: p in files ==> Readable(p, files[p], codec)
  }

  /** The normalised files, unless a text file does not decode. */
  method Snapshot(files: Files, codec: Codec) returns (r: Option<Files>)
    requires [] !in files
    ensures r.Some? <==> AllReadable(files, codec)
    ensures r.Some? ==> r.value == NormalFiles(files, codec)
  {
    var order := ListFiles(files);
    var found: Files := map[];
    for i := 0 to |order|
      invariant found.Keys == Listed(order, i)
      invariant forall p :: p in found ==> p in files && Readable(p, files[p], codec)
      invariant forall p :: p in found ==> found[p] == Normal(p, files[p], codec)
    {
      var p := order[i];
      if !Readable(p, files[p], codec) {
        return None;
      }
      assert Listed(order, i + 1) == Listed(order, i) + {p};
      found := found[p := Normal(p, files[p], codec)];
    }
    forall p | p in files ensures p in found {
      var i :| 0 <= i < |order| && order[i] == p;
      assert p in Listed(order, |order|);
    }
    r := Some(found);
  }

  // ----- The run -----

  method Prunes(destination: Directory, keep: set<Path>) returns (ghost listing: seq<Path>)
    modifies destination
    ensures DeepestFirst(listing, old(destination.View()))
    ensures destination.View() == PruneAll(old(destination.View()), listing, |listing|, keep)
  {
    var order := ListDeepestFirst(destination.View());
    ghost var before := destination.View();
    for i := 0 to |order|
      invariant destination.View() == PruneAll(before, order, i, keep)
    {
      var p := order[i];
      if p in destination.files && p !in keep {
        destination.Unlink(p);
      } else if p in destination.dirs && !HasChild(destination.View(), p) {
        destination.RemoveDirectory(p);
      }
    }
    listing := order;
  }

  method Writes(source: Files, order: seq<Path>, destination: Directory, codec: Codec, pid: string) returns (ok: bool)
    requires SourceOrder(order, source)
    modifies destination
    ensures ok <==> PutAll(old(destination.View()), order, |order|, source, codec, pid).Some?
    ensures ok ==> destination.View() == PutAll(old(destination.View()), order, |order|, source, codec, pid).value
  {
    ghost var before := destination.View();
    for i := 0 to |order|
      invariant PutAll(before, order, i, source, codec, pid) == Some(destination.View())
    {
      ok := destination.ReplaceFile(order[i], Normal(order[i], source[order[i]], codec), pid);
      if !ok {
        StaysFailed(before, order, i + 1, |order|, source, codec, pid);
        return;
      }
    }
    ok := true;
  }

  lemma {:induction false} StaysFailed(
      t: Tree, order: seq<Path>, i: nat, n: nat, source: Files, codec: Codec, pid: string)
    requires SourceOrder(order, source) && i <= n <= |order| && PutAll(t, order, i, source, codec, pid).None?
    ensures PutAll(t, order, n, source, codec, pid).None?
  {
    if i < n {
      StaysFailed(t, order, i, n - 1, source, codec, pid);
    }
  }

  lemma TargetReadable(source: Files, codec: Codec)
    requires KeepsDecodable(codec) && AllReadable(source, codec)
    ensures AllReadable(NormalFiles(source, codec), codec)
  {
    forall p | p in source ensures Readable(p, NormalFiles(source, codec)[p], codec) {
      assert Readable(p, source[p], codec);
    }
  }

  /** Whether written trees decode is a property of what they were written from. */
  lemma WrittenReadable(files: Files, source: Files, codec: Codec)
    requires KeepsDecodable(codec) && AllReadable(source, codec) && Matches(files, source, codec)
    requires files == NormalFiles(source, codec)
    ensures AllReadable(files, codec)
  {
    TargetReadable(source, codec);
  }

  /**
   Makes the destination the normalised source. An undecodable source changes nothing; otherwise the
   run succeeds exactly when no name collides with a temporary, and then leaves exactly the target.
   */
  method SyncTree(source: Directory, destination: Directory, codec: Codec, pid: string, digest: Files -> string)
      returns (r: Result<Files, SyncError>)
    requires source != destination && KeepsDecodable(codec) && Injective(digest)
    requires WellFormed(source.View()) && WellFormed(destination.View())
    modifies destination
    ensures r.Ok? <==>
      AllReadable(source.files, codec) && !Collides(source.files, old(destination.files).Keys, pid)
    ensures r.Ok? ==> destination.View() == Target(source.files, codec) && r.value == destination.files
    ensures !AllReadable(source.files, codec) ==> r == Err(Undecodable) && destination.View() == old(destination.View())
  {
    var wanted := Snapshot(source.files, codec);
    if wanted.None? {
      return Err(Undecodable);
    }
    ghost var dest := destination.View();
    ghost var listing := Prunes(destination, source.files.Keys);
    var order := ListFiles(source.files);
    SyncExactly(source.View(), dest, listing, order, codec, pid);
    ghost var start := destination.View();
    var ok := Writes(source.files, order, destination, codec, pid);
    if !ok {
      return Err(FileSystemError);
    }
    WrittenTree(start, source.View(), dest, listing, order, codec, pid);
    var actual := Snapshot(destination.files, codec);
    if Matches(destination.files, source.files, codec) {
      WrittenReadable(destination.files, source.files, codec);
    }
    if actual.None? {
      return Err(Undecodable);
    }
    if digest(actual.value) != digest(wanted.value) {
      return Err(Mismatch);
    }
    return Ok(actual.value);
  }

  lemma WrittenTree(
      start: Tree, source: Tree, dest: Tree, listing: seq<Path>, order: seq<Path>, codec: Codec, pid: string)
    requires WellFormed(source) && WellFormed(dest)
    requires DeepestFirst(listing, dest) && WriteOrder(order, source.files)
    requires start == PruneAll(dest, listing, |listing|, source.files.Keys)
    requires PutAll(start, order, |order|, source.files, codec, pid).Some?
    ensures [] !in PutAll(start, order, |order|, source.files, codec, pid).value.files
  {
    PruningLeavesKept(dest, listing, source.files.Keys);
    StartShaped(start, source, order);
    PutAllShape(start, source, order, |order|, start.files.Keys, codec, pid);
  }

  // ----- A second run -----

  lemma TargetWellFormed(source: Tree, codec: Codec)
    requires WellFormed(source)
    ensures WellFormed(Target(source.files, codec))
  {
    var t := Target(source.files, codec);
    SourceDirs(source, source.files.Keys);
    forall p, d | (p in t.files || p in t.dirs) && Above(d, p) ensures d in t.dirs {
      DirsOfContents(source.files.Keys, d);
      if p in t.dirs {
        DirsOfContents(source.files.Keys, p);
        var q :| q in source.files && Above(p, q);
        AboveTransitive(d, p, q);
      }
    }
  }

  /** Running again on the result changes nothing, exactly when no temporary is an earlier file or a needed directory. */
  lemma SecondRunChangesNothing(
      source: Tree, listing: seq<Path>, order: seq<Path>, codec: Codec, pid: string)
    requires WellFormed(source) && WriteOrder(order, source.files)
    requires DeepestFirst(listing, Target(source.files, codec))
    ensures var t := Target(source.files, codec);
      var r := PutAll(PruneAll(t, listing, |listing|, source.files.Keys), order, |order|, source.files, codec, pid);
      r == Some(t) <==> !CollidesWhenPresent(source.files, pid)
  {
    var t := Target(source.files, codec);
    TargetWellFormed(source, codec);
    SyncExactly(source, t, listing, order, codec, pid);
    SecondRunCondition(source.files, codec, pid);
    TargetMatches(source.files, codec);
  }

  lemma TargetMatches(source: Files, codec: Codec)
    ensures Matches(Target(source, codec).files, source, codec)
  {
    forall p | p in source ensures Normal(p, Normal(p, source[p], codec), codec) == Normal(p, source[p], codec) {
      NormalIdempotent(p, source[p], codec);
    }
  }
}
