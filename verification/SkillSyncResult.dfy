/** Exactly when a synchronisation matches its source, and what a second one does. */
module SkillSyncResult {
  import opened SkillTree
  import opened SkillSync
  import opened SkillWrite
  import StringOrder

  // ----- Names that collide with temporaries -----

  /** `q` is written before `p`. */
  predicate Before(q: Path, p: Path) { PathLeq(q, p) && q != p }

  /**
   Writing `p` destroys `q` or runs into a directory above `q`: the temporary of `p` is an earlier
   file, or a directory that an earlier or already present file needs.
   */
  predicate Hits(p: Path, q: Path, present: set<Path>, pid: string)
    requires p != []
  {
    || (Temp(p, pid) == q && Before(q, p))
    || (Above(Temp(p, pid), q) && (Before(q, p) || q in present))
  }

  ghost predicate Collides(source: Files, present: set<Path>, pid: string) {
    exists p, q :: p in source && q in source && p != [] && Hits(p, q, present, pid)
  }

  /** The source files in the order they are written. */
  ghost predicate WriteOrder(order: seq<Path>, source: Files) {
    && SourceOrder(order, source) && NoRepeats(order)
    && (forall p :: p in source ==> p in order)
    && (forall i, j :: 0 <= i < j < |order| ==> PathLeq(order[i], order[j]))
  }

  lemma OrderIsBefore(order: seq<Path>, source: Tree, i: nat, j: nat)
    requires WellFormed(source) && WriteOrder(order, source.files) && i < |order| && j < |order|
    ensures Before(order[i], order[j]) <==> i < j
  {
    assert order[i] in source.files && order[j] in source.files;
    if j < i && PathLeq(order[i], order[j]) {
      StringOrderAntisymmetric(order[i], order[j]);
    }
  }

  lemma StringOrderAntisymmetric(p: Path, q: Path)
    requires ValidPath(p) && ValidPath(q) && PathLeq(p, q) && PathLeq(q, p)
    ensures p == q
  {
    StringOrder.LeqAntisymmetric(Posix(p), Posix(q));
    PosixInjective(p, q);
  }

  lemma ListedIsBefore(order: seq<Path>, source: Tree, j: nat, q: Path)
    requires WellFormed(source) && WriteOrder(order, source.files) && j < |order|
    ensures q in Listed(order, j) <==> q in source.files && Before(q, order[j])
  {
    if q in source.files {
      var i :| 0 <= i < |order| && order[i] == q;
      OrderIsBefore(order, source, i, j);
      if q in Listed(order, j) {
        var k :| 0 <= k < j && order[k] == q;
        assert k == i;
      }
    }
  }

  /** A directory named like the temporary of `p` is needed by an earlier or present file. */
  ghost predicate DirectoryInTheWay(source: Files, present: set<Path>, p: Path, pid: string)
    requires p != []
  {
    exists q :: q in source && Above(Temp(p, pid), q) && (Before(q, p) || q in present)
  }

  /** The temporary of some later file is named `q`. */
  ghost predicate Clobbered(source: Files, q: Path, pid: string) {
    exists p :: p in source && p != [] && Temp(p, pid) == q && Before(q, p)
  }

  /** A temporary is blocked exactly when a directory of its name is needed by an earlier or present file. */
  lemma BlockedMeansHit(order: seq<Path>, source: Tree, present: set<Path>, j: nat, pid: string)
    requires WellFormed(source) && WriteOrder(order, source.files) && j < |order|
    ensures Blocked(present * source.files.Keys, order, j, pid) <==>
      DirectoryInTheWay(source.files, present, order[j], pid)
  {
    var temp := Temp(order[j], pid);
    var kept := present * source.files.Keys;
    DirsOfContents(kept, temp);
    DirsOfContents(Listed(order, j), temp);
    forall q ensures q in Listed(order, j) <==> q in source.files && Before(q, order[j]) {
      ListedIsBefore(order, source, j, q);
    }
  }

  lemma OverwrittenMeansHit(order: seq<Path>, source: Tree, i: nat, pid: string)
    requires WellFormed(source) && WriteOrder(order, source.files) && i < |order|
    ensures Overwritten(order, i, |order|, pid) <==> Clobbered(source.files, order[i], pid)
  {
    if Overwritten(order, i, |order|, pid) {
      var j :| i < j < |order| && Temp(order[j], pid) == order[i];
      OrderIsBefore(order, source, i, j);
      assert order[j] in source.files;
    }
    if p :| p in source.files && p != [] && Temp(p, pid) == order[i] && Before(order[i], p) {
      var j :| 0 <= j < |order| && order[j] == p;
      OrderIsBefore(order, source, i, j);
    }
  }

  // ----- The whole pass -----

  /** The files are the normalised source. */
  predicate Matches(files: Files, source: Files, codec: Codec) {
    NormalFiles(files, codec) == NormalFiles(source, codec)
  }

  ghost predicate Intact(order: seq<Path>, pid: string)
    requires forall j :: 0 <= j < |order| ==> order[j] != []
  {
    forall i {:trigger Overwritten(order, i, |order|, pid)} :: 0 <= i < |order| ==> !Overwritten(order, i, |order|, pid)
  }

  /** The tree the writing pass starts from. */
  function Start(source: Tree, dest: Tree): Tree {
    Tree(KeptFiles(dest, source.files.Keys), DirsOf(Kept(dest, source.files.Keys)))
  }

  lemma {:induction false} EveryFileWritten(
      t: Tree, order: seq<Path>, source: Tree, codec: Codec, pid: string)
    requires WriteOrder(order, source.files)
    requires PutAll(t, order, |order|, source.files, codec, pid).Some?
    ensures var files := PutAll(t, order, |order|, source.files, codec, pid).value.files;
      && (Intact(order, pid) <==> forall p :: p in source.files ==> p in files)
      && (forall p :: p in source.files && p in files ==> files[p] == Normal(p, source.files[p], codec))
  {
    var files := PutAll(t, order, |order|, source.files, codec, pid).value.files;
    forall i | 0 <= i < |order|
      ensures order[i] in files <==> !Overwritten(order, i, |order|, pid)
      ensures order[i] in files ==> files[order[i]] == Normal(order[i], source.files[order[i]], codec)
    {
      WrittenInPlace(t, order, |order|, i, source.files, codec, pid);
    }
    forall p | p in source.files && p in files ensures files[p] == Normal(p, source.files[p], codec) {
      var i :| 0 <= i < |order| && order[i] == p;
    }
    if Intact(order, pid) {
      forall p | p in source.files ensures p in files {
        var i :| 0 <= i < |order| && order[i] == p;
        assert !Overwritten(order, i, |order|, pid);
      }
    }
  }

  lemma MatchingFiles(files: Files, source: Files, codec: Codec)
    requires files.Keys <= source.Keys
    requires forall p :: p in source && p in files ==> files[p] == Normal(p, source[p], codec)
    ensures Matches(files, source, codec) <==> source.Keys <= files.Keys
    ensures source.Keys <= files.Keys ==> files == NormalFiles(source, codec)
  {
    forall p | p in files ensures Normal(p, files[p], codec) == Normal(p, source[p], codec) {
      NormalIdempotent(p, source[p], codec);
    }
    assert NormalFiles(files, codec).Keys == files.Keys && NormalFiles(source, codec).Keys == source.Keys;
  }

  /** A complete pass ends with the target; any missing file shows as a mismatch. */
  lemma CompletePass(
      start: Tree, order: seq<Path>, source: Tree, codec: Codec, pid: string)
    requires WellFormed(source) && WriteOrder(order, source.files)
    requires start.files.Keys <= source.files.Keys && start.dirs == DirsOf(start.files.Keys)
    requires PutAll(start, order, |order|, source.files, codec, pid).Some?
    ensures var t := PutAll(start, order, |order|, source.files, codec, pid).value;
      && (Matches(t.files, source.files, codec) <==> Intact(order, pid))
      && (Intact(order, pid) ==> t == Target(source.files, codec))
  {
    var kept := start.files.Keys;
    var t := PutAll(start, order, |order|, source.files, codec, pid).value;
    StartShaped(start, source, order);
    PutAllShape(start, source, order, |order|, kept, codec, pid);
    EveryFileWritten(start, order, source, codec, pid);
    MatchingFiles(t.files, source.files, codec);
    AllDirs(order, source, kept);
  }

  lemma StartShaped(start: Tree, source: Tree, order: seq<Path>)
    requires start.files.Keys <= source.files.Keys && start.dirs == DirsOf(start.files.Keys)
    ensures Shaped(start, source.files, start.files.Keys, order, 0)
  {
    assert Listed(order, 0) == {};
  }

  lemma AllDirs(order: seq<Path>, source: Tree, kept: set<Path>)
    requires WriteOrder(order, source.files) && kept <= source.files.Keys
    ensures DirsAt(kept, order, |order|) == DirsOf(source.files.Keys)
  {
    forall p | p in source.files ensures p in Listed(order, |order|) {
      var i :| 0 <= i < |order| && order[i] == p;
    }
    assert Listed(order, |order|) == source.files.Keys;
    assert DirsOf(kept) <= DirsOf(source.files.Keys);
  }

  /** Collisions are of these two kinds. */
  lemma CollisionKinds(source: Files, present: set<Path>, pid: string)
    ensures Collides(source, present, pid) <==>
      || (exists p :: p in source && p != [] && DirectoryInTheWay(source, present, p, pid))
      || (exists q :: q in source && Clobbered(source, q, pid))
  {
    if p, q :| p in source && q in source && p != [] && Hits(p, q, present, pid) {
      assert DirectoryInTheWay(source, present, p, pid) || Clobbered(source, q, pid);
    }
    if p :| p in source && p != [] && DirectoryInTheWay(source, present, p, pid) {
      var q :| q in source && Above(Temp(p, pid), q) && (Before(q, p) || q in present);
      assert Hits(p, q, present, pid);
    }
    if q :| q in source && Clobbered(source, q, pid) {
      var p :| p in source && p != [] && Temp(p, pid) == q && Before(q, p);
      assert Hits(p, q, present, pid);
    }
  }

  lemma NeverBlockedMeans(order: seq<Path>, source: Tree, present: set<Path>, pid: string)
    requires WellFormed(source) && WriteOrder(order, source.files)
    ensures NeverBlocked(present * source.files.Keys, order, |order|, pid) <==>
      !exists p :: p in source.files && p != [] && DirectoryInTheWay(source.files, present, p, pid)
  {
    var kept := present * source.files.Keys;
    if NeverBlocked(kept, order, |order|, pid) {
      forall p | p in source.files && p != [] ensures !DirectoryInTheWay(source.files, present, p, pid) {
        var j :| 0 <= j < |order| && order[j] == p;
        BlockedMeansHit(order, source, present, j, pid);
        assert !Blocked(kept, order, j, pid);
      }
    } else {
      var j :| 0 <= j < |order| && Blocked(kept, order, j, pid);
      BlockedMeansHit(order, source, present, j, pid);
      assert order[j] in source.files;
    }
  }

  lemma IntactMeans(order: seq<Path>, source: Tree, pid: string)
    requires WellFormed(source) && WriteOrder(order, source.files)
    ensures Intact(order, pid) <==> !exists q :: q in source.files && Clobbered(source.files, q, pid)
  {
    if Intact(order, pid) {
      forall q | q in source.files ensures !Clobbered(source.files, q, pid) {
        var i :| 0 <= i < |order| && order[i] == q;
        OverwrittenMeansHit(order, source, i, pid);
        assert !Overwritten(order, i, |order|, pid);
      }
    } else {
      var i :| 0 <= i < |order| && Overwritten(order, i, |order|, pid);
      OverwrittenMeansHit(order, source, i, pid);
      assert order[i] in source.files;
    }
  }

  lemma NoCollision(order: seq<Path>, source: Tree, present: set<Path>, pid: string)
    requires WellFormed(source) && WriteOrder(order, source.files)
    ensures !Collides(source.files, present, pid) <==>
      NeverBlocked(present * source.files.Keys, order, |order|, pid) && Intact(order, pid)
  {
    CollisionKinds(source.files, present, pid);
    NeverBlockedMeans(order, source, present, pid);
    IntactMeans(order, source, pid);
  }

  /** Whatever the destination held: the run ends with the target exactly when no name collides with a temporary. */
  lemma SyncExactly(
      source: Tree, dest: Tree, listing: seq<Path>, order: seq<Path>, codec: Codec, pid: string)
    requires WellFormed(source) && WellFormed(dest)
    requires DeepestFirst(listing, dest) && WriteOrder(order, source.files)
    ensures var pruned := PruneAll(dest, listing, |listing|, source.files.Keys);
      var r := PutAll(pruned, order, |order|, source.files, codec, pid);
      && ((r.Some? && Matches(r.value.files, source.files, codec)) <==> !Collides(source.files, dest.files.Keys, pid))
      && (r.Some? && Matches(r.value.files, source.files, codec) ==> r.value == Target(source.files, codec))
  {
    PruningLeavesKept(dest, listing, source.files.Keys);
    var start := Start(source, dest);
    var kept := Kept(dest, source.files.Keys);
    assert start.files.Keys == kept;
    StartShaped(start, source, order);
    PutAllShape(start, source, order, |order|, kept, codec, pid);
    NoCollision(order, source, dest.files.Keys, pid);
    if PutAll(start, order, |order|, source.files, codec, pid).Some? {
      CompletePass(start, order, source, codec, pid);
    }
  }

  // ----- Sufficient conditions, and running twice -----

  /** No path of the source has a component that is named like a temporary of this process. */
  ghost predicate NoTemporaryNames(source: Files, pid: string) {
    forall p, k, name :: p in source && 0 <= k < |p| ==> p[k] != TempName(name, pid)
  }

  lemma WithoutTemporaryNames(source: Files, present: set<Path>, pid: string)
    requires NoTemporaryNames(source, pid)
    ensures !Collides(source, present, pid)
  {
    forall p, q | p in source && q in source && p != [] ensures !Hits(p, q, present, pid) {
      NotNamedLikeTemporary(source, p, q, pid);
    }
  }

  lemma NotNamedLikeTemporary(source: Files, p: Path, q: Path, pid: string)
    requires NoTemporaryNames(source, pid) && q in source && p != []
    ensures Temp(p, pid) != q && !Above(Temp(p, pid), q)
  {
    var k := |p| - 1;
    assert Temp(p, pid)[k] == TempName(p[k], pid);
    if k < |q| {
      assert q[k] != TempName(p[k], pid);
      assert |q| > |p| ==> q[..|p|][k] == q[k];
    }
  }

  /** Once everything is present, a run succeeds exactly when no temporary is an earlier file or a needed directory. */
  ghost predicate CollidesWhenPresent(source: Files, pid: string) {
    exists p, q :: p in source && q in source && p != [] &&
      ((Temp(p, pid) == q && Before(q, p)) || Above(Temp(p, pid), q))
  }

  lemma SecondRunCondition(source: Files, codec: Codec, pid: string)
    ensures Collides(source, Target(source, codec).files.Keys, pid) <==> CollidesWhenPresent(source, pid)
  {
    assert Target(source, codec).files.Keys == source.Keys;
    if Collides(source, source.Keys, pid) {
      var p, q :| p in source && q in source && p != [] && Hits(p, q, source.Keys, pid);
    }
    if CollidesWhenPresent(source, pid) {
      var p, q :| p in source && q in source && p != [] && ((Temp(p, pid) == q && Before(q, p)) || Above(Temp(p, pid), q));
      assert Hits(p, q, source.Keys, pid);
    }
  }

  /**
   A first run may succeed where the second fails: `-x` is written before `.-x.7.tmp/y`, whose
   directory the second run finds in the way of the temporary.
   */
  lemma SecondRunCanFail(content: Bytes)
    ensures var source: Files := map[["-x"] := content, [".-x.7.tmp", "y"] := content];
      !Collides(source, {}, "7") && CollidesWhenPresent(source, "7")
  {
    var p, q := ["-x"], [".-x.7.tmp", "y"];
    var source: Files := map[p := content, q := content];
    assert TempName("-x", "7") == ".-x.7.tmp";
    assert Temp(p, "7") == [".-x.7.tmp"];
    assert Above(Temp(p, "7"), q);
    assert Temp(q, "7")[0] == ".-x.7.tmp" && Temp(q, "7") != p && Temp(q, "7") != q;
    assert Posix(q)[0] == '.' && Posix(p)[0] == '-';
    assert !Before(q, p);
  }
}
