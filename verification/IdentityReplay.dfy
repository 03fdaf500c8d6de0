/** The registry after an accepted log of corrections, read off the log by position. */
module IdentityReplay {
  import opened Wrappers
  import opened AliasForest
  import opened IdentityCorrections

  // ----- Library status -----

  predicate IsLifecycle(x: Correction, p: string) {
    (x.operation == LibraryArchive || x.operation == LibraryTombstone) && p in x.subjects
  }

  /** The last correction that archives or tombstones a paper. */
  ghost predicate LastLifecycle(log: seq<Correction>, p: string, i: nat) {
    && i < |log| && IsLifecycle(log[i], p)
    && forall j :: i < j < |log| ==> !IsLifecycle(log[j], p)
  }

  ghost predicate NoLifecycle(log: seq<Correction>, p: string) {
    forall j :: 0 <= j < |log| ==> !IsLifecycle(log[j], p)
  }

  /** What acceptance says about one correction, apart from its links. */
  ghost predicate Shaped(x: Correction, papers: set<string>) {
    && (x.operation == LibraryArchive || x.operation == LibraryTombstone ==> |x.subjects| == 1)
    && (x.operation == DuplicateMerge || x.operation == PaperAlias ==> x.retained.Some?)
    && (x.operation == DuplicateMerge ==> x.retained.value in x.subjects)
    && forall p :: p in x.subjects ==> p in papers
  }

  lemma AcceptedIsShaped(log: seq<Correction>, papers: set<string>, digest: Digest)
    requires Accepted(log, papers, digest)
    ensures forall i :: 0 <= i < |log| ==> Shaped(log[i], papers)
  {
    forall i | 0 <= i < |log| ensures Shaped(log[i], papers) {
      assert WellFormedAt(log, i, papers, digest);
    }
  }

  /** The status the log gives a paper: that of its last lifecycle correction, if there is one. */
  ghost predicate StatusByPosition(log: seq<Correction>, p: string, status: LibraryStatus) {
    && (status == Archived <==> exists i: nat :: LastLifecycle(log, p, i) && log[i].operation == LibraryArchive)
    && (status == Tombstoned <==> exists i: nat :: LastLifecycle(log, p, i) && log[i].operation == LibraryTombstone)
    && (status == Active <==> NoLifecycle(log, p))
  }

  lemma LastLifecycleOnce(log: seq<Correction>, p: string, i: nat, j: nat)
    requires LastLifecycle(log, p, i) && LastLifecycle(log, p, j)
    ensures i == j
  {
  }

  lemma StatusNow(log: seq<Correction>, p: string, status: LibraryStatus, i: nat)
    requires LastLifecycle(log, p, i)
    requires status == if log[i].operation == LibraryArchive then Archived else Tombstoned
    ensures StatusByPosition(log, p, status)
  {
    forall j: nat | LastLifecycle(log, p, j) ensures j == i {
      LastLifecycleOnce(log, p, i, j);
    }
  }

  /** A correction that leaves a paper's status alone leaves its last lifecycle correction what it was. */
  lemma StatusKept(log: seq<Correction>, x: Correction, p: string, status: LibraryStatus)
    requires StatusByPosition(log, p, status) && !IsLifecycle(x, p)
    ensures StatusByPosition(log + [x], p, status)
  {
    var longer := log + [x];
    forall i: nat ensures LastLifecycle(longer, p, i) <==> LastLifecycle(log, p, i) {
      if LastLifecycle(log, p, i) {
        assert longer[i] == log[i];
      }
      if LastLifecycle(longer, p, i) {
        assert i < |log| && forall j :: 0 <= j < |log| ==> longer[j] == log[j];
      }
    }
    forall i: nat | LastLifecycle(log, p, i) ensures longer[i] == log[i] {
    }
    if NoLifecycle(longer, p) {
      forall j | 0 <= j < |log| ensures !IsLifecycle(log[j], p) {
        assert longer[j] == log[j];
      }
    }
  }

  lemma {:induction false} StatusReplayed(log: seq<Correction>, papers: set<string>, p: string)
    requires p in papers && forall i :: 0 <= i < |log| ==> Shaped(log[i], papers)
    ensures p in StatusReplay(papers, log) && StatusByPosition(log, p, StatusReplay(papers, log)[p])
  {
    if log != [] {
      var init, x := log[..|log| - 1], log[|log| - 1];
      StatusReplayed(init, papers, p);
      assert log == init + [x];
      if IsLifecycle(x, p) {
        assert x.subjects == [p];
        assert LastLifecycle(log, p, |log| - 1);
        StatusNow(log, p, StatusReplay(papers, log)[p], |log| - 1);
      } else {
        StatusKept(init, x, p, StatusReplay(papers, init)[p]);
      }
    }
  }

  /**
   The library status in the registry: archived or tombstoned as the last lifecycle correction of the
   paper says, and active without one.
   */
  lemma LibraryStatusByPosition(log: seq<Correction>, papers: set<string>, digest: Digest, m: map<string, Projected>, p: string)
    requires Accepted(log, papers, digest) && p in papers
    ensures Forest(Replay(papers, log))
    ensures IsProjection(m, papers, log) ==> StatusByPosition(log, p, m[p].status)
  {
    ForestAfterEveryPrefix(log, papers, digest, |log|);
    assert log[..|log|] == log;
    AcceptedIsShaped(log, papers, digest);
    StatusReplayed(log, papers, p);
    if IsProjection(m, papers, log) {
      assert m[p] == ProjectedPaper(papers, log, p);
    }
  }

  // ----- Canonical id -----

  predicate IsMerge(x: Correction, p: string) {
    (x.operation == DuplicateMerge || x.operation == PaperAlias) && p in x.subjects
  }

  predicate IsSplit(x: Correction, p: string) { x.operation == MistakenMergeSplit && p in x.subjects }

  /** The last correction that joins a paper to another or takes it apart again. */
  ghost predicate LastJoin(log: seq<Correction>, p: string, i: nat) {
    && i < |log| && (IsMerge(log[i], p) || IsSplit(log[i], p))
    && forall j :: i < j < |log| ==> !IsMerge(log[j], p) && !IsSplit(log[j], p)
  }

  ghost predicate NeverJoined(log: seq<Correction>, p: string) {
    forall j :: 0 <= j < |log| ==> !IsMerge(log[j], p) && !IsSplit(log[j], p)
  }

  /** The paper the log points a paper at: where its last merge or alias says, and else itself. */
  ghost predicate PointsByPosition(log: seq<Correction>, p: string, q: string) {
    && (NeverJoined(log, p) ==> q == p)
    && (forall i: nat :: LastJoin(log, p, i) && IsSplit(log[i], p) ==> q == p)
    && (forall i: nat :: LastJoin(log, p, i) && IsMerge(log[i], p) ==> log[i].retained == Some(q))
  }

  lemma LastJoinLonger(log: seq<Correction>, x: Correction, p: string, i: nat)
    ensures LastJoin(log + [x], p, i) <==>
      if IsMerge(x, p) || IsSplit(x, p) then i == |log| else LastJoin(log, p, i)
    ensures i < |log| ==> (log + [x])[i] == log[i]
    ensures NeverJoined(log + [x], p) <==> NeverJoined(log, p) && !IsMerge(x, p) && !IsSplit(x, p)
  {
    var longer := log + [x];
    assert forall j :: 0 <= j < |log| ==> longer[j] == log[j];
    assert longer[|log|] == x;
  }

  /** Where one more correction points a paper. */
  function Pointed(x: Correction, p: string, q: string): string {
    if IsMerge(x, p) && x.retained.Some? then x.retained.value else if IsSplit(x, p) then p else q
  }

  lemma PointsLonger(log: seq<Correction>, x: Correction, papers: set<string>, p: string, q: string)
    requires PointsByPosition(log, p, q) && Shaped(x, papers)
    ensures PointsByPosition(log + [x], p, Pointed(x, p, q))
  {
    forall i: nat
      ensures LastJoin(log + [x], p, i) <==> if IsMerge(x, p) || IsSplit(x, p) then i == |log| else LastJoin(log, p, i)
      ensures i < |log| ==> (log + [x])[i] == log[i]
    {
      LastJoinLonger(log, x, p, i);
    }
    LastJoinLonger(log, x, p, 0);
    assert (log + [x])[|log|] == x;
  }

  lemma StepPoints(c: Aliases, x: Correction, papers: set<string>, p: string)
    requires p in c && Shaped(x, papers)
    ensures p in Step(c, x) && Step(c, x)[p] == Pointed(x, p, c[p])
  {
  }

  lemma {:induction false} AliasesReplayed(log: seq<Correction>, papers: set<string>, p: string)
    requires p in papers && forall i :: 0 <= i < |log| ==> Shaped(log[i], papers)
    ensures PointsByPosition(log, p, Replay(papers, log)[p])
  {
    if log != [] {
      var init, x := log[..|log| - 1], log[|log| - 1];
      AliasesReplayed(init, papers, p);
      assert log == init + [x];
      StepPoints(Replay(papers, init), x, papers, p);
      PointsLonger(init, x, papers, p, Replay(papers, init)[p]);
    }
  }

  /**
   The canonical id in the registry: the paper itself if it was never joined, was split off last, or was
   retained by its last merge; otherwise the canonical id of the paper its last merge or alias names.
   */
  lemma CanonicalIdByPosition(log: seq<Correction>, papers: set<string>, digest: Digest, m: map<string, Projected>, p: string)
    requires Accepted(log, papers, digest) && p in papers
    ensures Forest(Replay(papers, log))
    ensures IsProjection(m, papers, log) && (NeverJoined(log, p) || exists i: nat :: LastJoin(log, p, i) && IsSplit(log[i], p)) ==>
      m[p].canonicalId == p
    ensures IsProjection(m, papers, log) ==>
      forall i: nat :: LastJoin(log, p, i) && IsMerge(log[i], p) ==>
        log[i].retained.Some? && log[i].retained.value in papers
        && m[p].canonicalId == if log[i].retained.value == p then p else m[log[i].retained.value].canonicalId
  {
    ForestAfterEveryPrefix(log, papers, digest, |log|);
    assert log[..|log|] == log;
    AcceptedIsShaped(log, papers, digest);
    AliasesReplayed(log, papers, p);
    var c := Replay(papers, log);
    if IsProjection(m, papers, log) {
      CanonicalFollows(c, p);
      assert m[p] == ProjectedPaper(papers, log, p);
      assert m[Next(c, p)] == ProjectedPaper(papers, log, Next(c, p));
    }
  }

  /** The canonical paper of a paper is itself or that of the paper it points at. */
  lemma CanonicalFollows(c: Aliases, p: string)
    requires Forest(c) && p in c
    ensures Next(c, p) in c && ReachesRoot(c, p) && ReachesRoot(c, Next(c, p))
    ensures CanonicalOf(c, p) == CanonicalOf(c, Next(c, p))
    ensures Next(c, p) == p ==> CanonicalOf(c, p) == p
  {
    var q := Next(c, p);
    assert ReachesRoot(c, p) && ReachesRoot(c, q);
    var r := CanonicalOf(c, q);
    var n: nat :| Walk(c, q, n) == r;
    assert Walk(c, p, n + 1) == Walk(c, q, n);
    CanonicalIsTheRootReached(c, p, r);
    if q == p {
      RootIsItsOwnCanonical(c, p);
    }
  }
}
