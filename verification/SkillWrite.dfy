/** The writing pass: each file is written under its temporary name and renamed into place. */
module SkillWrite {
  import opened Wrappers
  import opened SkillTree
  import opened SkillSync

  /**
   Makes the parents, writes the temporary and renames it onto the file; nothing when a file stands
   where a directory is needed, or a directory where a file is.
   */
  function Put(t: Tree, p: Path, content: Bytes, pid: string): Option<Tree>
    requires p != []
  {
    var dirs := t.dirs + Ancestors(p);
    if !(t.files.Keys !! Ancestors(p)) || Temp(p, pid) in dirs || p in dirs then None
    else Some(Tree((t.files - {Temp(p, pid)})[p := content], dirs))
  }

  predicate SourceOrder(order: seq<Path>, source: Files) {
    forall i :: 0 <= i < |order| ==> order[i] != [] && order[i] in source
  }

  function PutAll(t: Tree, order: seq<Path>, n: nat, source: Files, codec: Codec, pid: string): Option<Tree>
    requires n <= |order| && SourceOrder(order, source)
  {
    if n == 0 then Some(t)
    else
      var before := PutAll(t, order, n - 1, source, codec, pid);
      var p := order[n - 1];
      if before.None? then None else Put(before.value, p, Normal(p, source[p], codec), pid)
  }

  /** The directories there are when the file at position `j` is written. */
  function DirsAt(kept: set<Path>, order: seq<Path>, j: nat): set<Path>
    requires j <= |order|
  {
    DirsOf(kept) + DirsOf(Listed(order, j))
  }

  /** A directory stands in the way of the temporary at position `j`. */
  predicate Blocked(kept: set<Path>, order: seq<Path>, j: nat, pid: string)
    requires j < |order| && order[j] != []
  {
    Temp(order[j], pid) in DirsAt(kept, order, j)
  }

  lemma DirsOfAdd(files: set<Path>, p: Path)
    ensures DirsOf(files + {p}) == DirsOf(files) + Ancestors(p)
  {
  }

  lemma DirsAtNext(kept: set<Path>, order: seq<Path>, j: nat)
    requires j < |order|
    ensures DirsAt(kept, order, j + 1) == DirsAt(kept, order, j) + Ancestors(order[j])
  {
    assert Listed(order, j + 1) == Listed(order, j) + {order[j]};
    DirsOfAdd(Listed(order, j), order[j]);
  }

  /** Files of a well-formed tree have only directories above them. */
  lemma SourceDirs(source: Tree, files: set<Path>)
    requires WellFormed(source) && files <= source.files.Keys
    ensures DirsOf(files) <= source.dirs
  {
    forall d | d in DirsOf(files) ensures d in source.dirs {
      DirsOfContents(files, d);
    }
  }

  lemma ListedInSource(order: seq<Path>, n: nat, source: Files)
    requires n <= |order| && SourceOrder(order, source)
    ensures Listed(order, n) <= source.Keys
  {
  }

  /** Among source files and their directories only the temporary can be in the way. */
  lemma PutFailsOnlyOnTemporary(source: Tree, t: Tree, p: Path, content: Bytes, pid: string)
    requires WellFormed(source) && p in source.files && p != []
    requires t.files.Keys <= source.files.Keys && t.dirs <= source.dirs
    ensures Put(t, p, content, pid).None? <==> Temp(p, pid) in t.dirs
  {
    SourceDirs(source, {p});
    DirsOfAdd({}, p);
    assert {} + {p} == {p};
    assert Ancestors(p) <= source.dirs;
    TempBeside(p, pid);
  }

  /** Only source files, and the directories that have been needed so far. */
  predicate Shaped(t: Tree, source: Files, kept: set<Path>, order: seq<Path>, n: nat)
    requires n <= |order|
  {
    t.files.Keys <= source.Keys && t.dirs == DirsAt(kept, order, n)
  }

  lemma ShapeDirs(t: Tree, source: Tree, order: seq<Path>, n: nat, kept: set<Path>)
    requires WellFormed(source) && SourceOrder(order, source.files) && n <= |order|
    requires kept <= source.files.Keys && Shaped(t, source.files, kept, order, n)
    ensures t.dirs <= source.dirs
  {
    SourceDirs(source, kept);
    ListedInSource(order, n, source.files);
    SourceDirs(source, Listed(order, n));
  }

  lemma PutKeepsShape(t: Tree, source: Tree, order: seq<Path>, n: nat, kept: set<Path>, content: Bytes, pid: string)
    requires WellFormed(source) && SourceOrder(order, source.files) && n < |order|
    requires kept <= source.files.Keys && Shaped(t, source.files, kept, order, n)
    ensures Put(t, order[n], content, pid).Some? <==> !Blocked(kept, order, n, pid)
    ensures Put(t, order[n], content, pid).Some? ==>
      Shaped(Put(t, order[n], content, pid).value, source.files, kept, order, n + 1)
  {
    ShapeDirs(t, source, order, n, kept);
    PutFailsOnlyOnTemporary(source, t, order[n], content, pid);
    DirsAtNext(kept, order, n);
  }

  predicate NeverBlocked(kept: set<Path>, order: seq<Path>, n: nat, pid: string)
    requires n <= |order| && forall j :: 0 <= j < |order| ==> order[j] != []
  {
    forall j {:trigger Blocked(kept, order, j, pid)} :: 0 <= j < n ==> !Blocked(kept, order, j, pid)
  }

  /** The pass fails exactly when some temporary is blocked, and otherwise makes the directories it needs. */
  predicate PassSoFar(r: Option<Tree>, source: Files, kept: set<Path>, order: seq<Path>, n: nat, pid: string)
    requires n <= |order| && SourceOrder(order, source)
  {
    && (r.Some? <==> NeverBlocked(kept, order, n, pid))
    && (r.Some? ==> Shaped(r.value, source, kept, order, n))
  }

  lemma PassStep(
      before: Option<Tree>, after: Option<Tree>, source: Tree, order: seq<Path>, n: nat, kept: set<Path>, content: Bytes,
      pid: string)
    requires WellFormed(source) && SourceOrder(order, source.files) && n < |order| && kept <= source.files.Keys
    requires PassSoFar(before, source.files, kept, order, n, pid)
    requires after == if before.None? then None else Put(before.value, order[n], content, pid)
    ensures PassSoFar(after, source.files, kept, order, n + 1, pid)
  {
    if before.Some? {
      PutKeepsShape(before.value, source, order, n, kept, content, pid);
      if !Blocked(kept, order, n, pid) {
        assert NeverBlocked(kept, order, n + 1, pid);
      }
    }
  }

  lemma {:induction false} PutAllShape(
      t: Tree, source: Tree, order: seq<Path>, n: nat, kept: set<Path>, codec: Codec, pid: string)
    requires WellFormed(source) && SourceOrder(order, source.files) && n <= |order|
    requires kept <= source.files.Keys && Shaped(t, source.files, kept, order, 0)
    ensures PassSoFar(PutAll(t, order, n, source.files, codec, pid), source.files, kept, order, n, pid)
  {
    if n > 0 {
      PutAllShape(t, source, order, n - 1, kept, codec, pid);
      PassStep(
        PutAll(t, order, n - 1, source.files, codec, pid), PutAll(t, order, n, source.files, codec, pid),
        source, order, n - 1, kept, Normal(order[n - 1], source.files[order[n - 1]], codec), pid);
    }
  }

  /** The temporary of some file written later, before position `n`, took the place of the file at `i`. */
  predicate Overwritten(order: seq<Path>, i: nat, n: nat, pid: string)
    requires i < n <= |order| && forall j :: 0 <= j < |order| ==> order[j] != []
  {
    exists j :: i < j < n && Temp(order[j], pid) == order[i]
  }

  predicate NoRepeats(order: seq<Path>) { forall i, j :: 0 <= i < j < |order| ==> order[i] != order[j] }

  lemma PutAt(t: Tree, p: Path, content: Bytes, pid: string, q: Path)
    requires p != [] && Put(t, p, content, pid).Some?
    ensures var files := Put(t, p, content, pid).value.files;
      && (q in files <==> q == p || (q in t.files && q != Temp(p, pid)))
      && (q in files ==> files[q] == if q == p then content else t.files[q])
  {
    TempBeside(p, pid);
  }

  /** A written file is in place, normalised, unless a later temporary carried its name. */
  lemma {:induction false} WrittenInPlace(
      t: Tree, order: seq<Path>, n: nat, i: nat, source: Files, codec: Codec, pid: string)
    requires SourceOrder(order, source) && NoRepeats(order) && i < n <= |order|
    requires PutAll(t, order, n, source, codec, pid).Some?
    ensures var files := PutAll(t, order, n, source, codec, pid).value.files;
      && (order[i] in files <==> !Overwritten(order, i, n, pid))
      && (order[i] in files ==> files[order[i]] == Normal(order[i], source[order[i]], codec))
  {
    var before := PutAll(t, order, n - 1, source, codec, pid).value;
    var p := order[n - 1];
    PutAt(before, p, Normal(p, source[p], codec), pid, order[i]);
    if i < n - 1 {
      WrittenInPlace(t, order, n - 1, i, source, codec, pid);
      assert order[i] != p;
      assert Overwritten(order, i, n, pid) <==> Overwritten(order, i, n - 1, pid) || Temp(p, pid) == order[i];
    }
  }
}
