/**
 Synchronising a destination tree with a source: what the deepest-first deletion leaves, what the
 writing pass makes of it, and exactly when the result matches the source.
 */
module SkillSync {
  import opened SkillTree

  // ----- Deletion, deepest first -----

  predicate HasChild(t: Tree, d: Path) {
    || (exists p :: p in t.files && |p| == |d| + 1 && Above(d, p))
    || (exists e :: e in t.dirs && |e| == |d| + 1 && Above(d, e))
  }

  /** What happens to one listed path: a file the source lacks goes, and so does an empty directory. */
  function Prune(t: Tree, p: Path, keep: set<Path>): Tree {
    if p in t.files && p !in keep then t.(files := t.files - {p})
    else if p in t.dirs && !HasChild(t, p) then t.(dirs := t.dirs - {p})
    else t
  }

  function PruneAll(t: Tree, order: seq<Path>, n: nat, keep: set<Path>): Tree
    requires n <= |order|
  {
    if n == 0 then t else Prune(PruneAll(t, order, n - 1, keep), order[n - 1], keep)
  }

  /** Every path of the tree, deeper paths first. */
  ghost predicate DeepestFirst(order: seq<Path>, t: Tree) {
    && (forall p :: p in order <==> p in t.files || p in t.dirs)
    && (forall i, j :: 0 <= i < j < |order| ==> |order[i]| >= |order[j]| && order[i] != order[j])
  }

  function Kept(t: Tree, keep: set<Path>): set<Path> { t.files.Keys * keep }

  /** The tree once the paths in `done` had their turn; `needed` are the directories above kept files. */
  function PrunedTree(t: Tree, done: set<Path>, keep: set<Path>, needed: set<Path>): Tree {
    Tree(t.files - (done - keep), t.dirs - (done - needed))
  }

  /** It is `p`'s turn: everything deeper has had its own. */
  ghost predicate Turn(t: Tree, done: set<Path>, p: Path) {
    && (p in t.files || p in t.dirs) && p !in done
    && (forall q :: (q in t.files || q in t.dirs) && |q| > |p| ==> q in done)
  }

  lemma KeptBelowMeansChild(t: Tree, now: Tree, done: set<Path>, keep: set<Path>, needed: set<Path>, d: Path, p: Path)
    requires WellFormed(t) && Turn(t, done, d) && needed == DirsOf(Kept(t, keep))
    requires now == PrunedTree(t, done, keep, needed)
    requires d in t.dirs && p in Kept(t, keep) && Above(d, p)
    ensures HasChild(now, d)
  {
    if |p| > |d| + 1 {
      var e := p[..|d| + 1];
      assert Above(e, p);
      assert e[..|d|] == d;
      DirsOfContents(Kept(t, keep), e);
      assert e in now.dirs;
    } else {
      assert p in now.files;
    }
  }

  /** At its turn a directory is non-empty exactly when it has a kept file below. */
  lemma ChildMeansKept(t: Tree, now: Tree, done: set<Path>, keep: set<Path>, needed: set<Path>, d: Path)
    requires WellFormed(t) && Turn(t, done, d) && d in t.dirs && needed == DirsOf(Kept(t, keep))
    requires now == PrunedTree(t, done, keep, needed)
    ensures HasChild(now, d) <==> d in needed
  {
    DirsOfContents(Kept(t, keep), d);
    if e :| e in now.dirs && |e| == |d| + 1 && Above(d, e) {
      DirsOfContents(Kept(t, keep), e);
      var p :| p in Kept(t, keep) && Above(e, p);
      AboveTransitive(d, e, p);
    } else if p :| p in now.files && |p| == |d| + 1 && Above(d, p) {
      assert p in Kept(t, keep);
    }
    if p :| p in Kept(t, keep) && Above(d, p) {
      KeptBelowMeansChild(t, now, done, keep, needed, d, p);
    }
  }

  lemma PruneStep(t: Tree, done: set<Path>, keep: set<Path>, needed: set<Path>, p: Path)
    requires WellFormed(t) && Turn(t, done, p) && needed == DirsOf(Kept(t, keep))
    ensures Prune(PrunedTree(t, done, keep, needed), p, keep) == PrunedTree(t, done + {p}, keep, needed)
  {
    var now := PrunedTree(t, done, keep, needed);
    if p in t.dirs {
      ChildMeansKept(t, now, done, keep, needed, p);
      assert t.files - (done + {p} - keep) == t.files - (done - keep);
    } else {
      assert t.dirs - (done + {p} - needed) == t.dirs - (done - needed);
    }
  }

  function Listed(order: seq<Path>, n: nat): set<Path>
    requires n <= |order|
  {
    set i | 0 <= i < n :: order[i]
  }

  lemma ListedTurn(t: Tree, order: seq<Path>, n: nat)
    requires DeepestFirst(order, t) && n < |order|
    ensures Turn(t, Listed(order, n), order[n])
    ensures Listed(order, n + 1) == Listed(order, n) + {order[n]}
  {
    assert order[n] in order;
    forall q | (q in t.files || q in t.dirs) && |q| > |order[n]| ensures q in Listed(order, n) {
      var i :| 0 <= i < |order| && order[i] == q;
    }
  }

  /** The turn at position `k` does what the closed form says. */
  ghost predicate TurnIsClosed(t: Tree, order: seq<Path>, k: nat, keep: set<Path>, needed: set<Path>)
    requires k < |order|
  {
    Prune(PrunedTree(t, Listed(order, k), keep, needed), order[k], keep) ==
    PrunedTree(t, Listed(order, k + 1), keep, needed)
  }

  lemma EveryTurnIsClosed(t: Tree, order: seq<Path>, k: nat, keep: set<Path>, needed: set<Path>)
    requires WellFormed(t) && DeepestFirst(order, t) && k < |order| && needed == DirsOf(Kept(t, keep))
    ensures TurnIsClosed(t, order, k, keep, needed)
  {
    ListedTurn(t, order, k);
    PruneStep(t, Listed(order, k), keep, needed, order[k]);
  }

  lemma {:induction false} PruneAllMeaning(t: Tree, order: seq<Path>, n: nat, keep: set<Path>, needed: set<Path>)
    requires n <= |order|
    requires forall k {:trigger TurnIsClosed(t, order, k, keep, needed)} ::
      0 <= k < |order| ==> TurnIsClosed(t, order, k, keep, needed)
    ensures PruneAll(t, order, n, keep) == PrunedTree(t, Listed(order, n), keep, needed)
  {
    if n > 0 {
      PruneAllMeaning(t, order, n - 1, keep, needed);
      assert TurnIsClosed(t, order, n - 1, keep, needed);
    } else {
      assert t.files - ({} - keep) == t.files && t.dirs - ({} - needed) == t.dirs;
    }
  }

  lemma EverythingListed(t: Tree, order: seq<Path>)
    requires DeepestFirst(order, t)
    ensures forall p :: p in t.files || p in t.dirs ==> p in Listed(order, |order|)
  {
    forall p | p in t.files || p in t.dirs ensures p in Listed(order, |order|) {
      var i :| 0 <= i < |order| && order[i] == p;
    }
  }

  lemma NeededAreDirs(t: Tree, keep: set<Path>)
    requires WellFormed(t)
    ensures DirsOf(Kept(t, keep)) <= t.dirs
  {
    forall d | d in DirsOf(Kept(t, keep)) ensures d in t.dirs {
      DirsOfContents(Kept(t, keep), d);
    }
  }

  function KeptFiles(t: Tree, keep: set<Path>): Files { map p | p in t.files && p in keep :: t.files[p] }

  /** Deletion leaves exactly the files the source also has, and exactly the directories above them. */
  lemma PruningLeavesKept(t: Tree, order: seq<Path>, keep: set<Path>)
    requires WellFormed(t) && DeepestFirst(order, t)
    ensures PruneAll(t, order, |order|, keep) == Tree(KeptFiles(t, keep), DirsOf(Kept(t, keep)))
  {
    var needed := DirsOf(Kept(t, keep));
    forall k | 0 <= k < |order| ensures TurnIsClosed(t, order, k, keep, needed) {
      EveryTurnIsClosed(t, order, k, keep, needed);
    }
    PruneAllMeaning(t, order, |order|, keep, needed);
    EverythingListed(t, order);
    NeededAreDirs(t, keep);
    var done := Listed(order, |order|);
    assert t.files - (done - keep) == KeptFiles(t, keep);
    assert t.dirs - (done - needed) == needed;
  }
}
