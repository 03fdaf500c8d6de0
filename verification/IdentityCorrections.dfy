/**
 The append-only log of registry identity corrections: a hash-linked chain whose replay builds the
 alias forest of the paper registry (merge, alias, split) and the library status of every paper.
 */
module IdentityCorrections {
  import opened Wrappers
  import opened AliasForest
  import opened Deduplication
  import StringOrder
  import Sorting

  datatype Operation = DuplicateMerge | PaperAlias | MistakenMergeSplit | LibraryArchive | LibraryTombstone

  /** `rest` stands for the fields no rule looks at; they still take part in the digest. */
  datatype Correction = Correction(
    id: string,
    previousId: Option<string>,
    previousDigest: Option<string>,
    operation: Operation,
    subjects: seq<string>,
    retained: Option<string>,
    supersedes: Option<string>,
    rest: string)

  datatype Fault =
    | DuplicateCorrectionId | RootHasPredecessor | PredecessorIdMismatch | PredecessorDigestMismatch
    | SubjectsUnsorted | UnknownSubject | UnknownRetained
    | MergeShape | AliasShape | SplitTarget | SplitSubjects | LifecycleShape
    | AliasCycle

  datatype Diagnostic = Diagnostic(id: string, fault: Fault)

  datatype LibraryStatus = Active | Archived | Tombstoned

  datatype Projected = Projected(canonicalId: string, status: LibraryStatus)

  type Digest = Correction -> string

  // ----- What one record must satisfy -----

  predicate StringLeq(a: string, b: string) { StringOrder.Leq(a, b) }

  ghost predicate SubjectsSorted(x: Correction) {
    forall i, j :: 0 <= i < j < |x.subjects| ==> StringOrder.Leq(x.subjects[i], x.subjects[j])
  }

  ghost predicate LinkedAt(log: seq<Correction>, i: nat, digest: Digest)
    requires i < |log|
  {
    if i == 0 then log[0].previousId.None? && log[0].previousDigest.None?
    else log[i].previousId == Some(log[i - 1].id) && log[i].previousDigest == Some(digest(log[i - 1]))
  }

  /** A split names an earlier merge and takes back only subjects that merge did not retain. */
  ghost predicate SplitsEarlierMerge(log: seq<Correction>, i: nat, j: nat)
    requires j < i < |log|
  {
    && log[i].supersedes == Some(log[j].id)
    && log[j].operation.DuplicateMerge?
    && forall p :: p in log[i].subjects ==> p in log[j].subjects && log[j].retained != Some(p)
  }

  ghost predicate ShapedAt(log: seq<Correction>, i: nat)
    requires i < |log|
  {
    var x := log[i];
    match x.operation
    case DuplicateMerge =>
      |x.subjects| >= 2 && x.retained.Some? && x.retained.value in x.subjects && x.supersedes.None?
    case PaperAlias =>
      |x.subjects| == 1 && x.retained.Some? && x.retained.value !in x.subjects && x.supersedes.None?
    case MistakenMergeSplit =>
      x.retained.None? && exists j: nat :: j < i && SplitsEarlierMerge(log, i, j)
    case _ =>
      |x.subjects| == 1 && x.retained.None? && x.supersedes.None?
  }

  ghost predicate WellFormedAt(log: seq<Correction>, i: nat, papers: set<string>, digest: Digest)
    requires i < |log|
  {
    && (forall j :: 0 <= j < i ==> log[j].id != log[i].id)
    && LinkedAt(log, i, digest)
    && SubjectsSorted(log[i])
    && (forall p :: p in log[i].subjects ==> p in papers)
    && (log[i].retained.Some? ==> log[i].retained.value in papers)
    && ShapedAt(log, i)
  }

  // ----- Replay of the log -----

  /** The alias map after one correction. */
  function Step(c: Aliases, x: Correction): Aliases {
    match x.operation
    case DuplicateMerge =>
      if x.retained.Some? then
        map p | p in c :: if p in x.subjects || p == x.retained.value then x.retained.value else c[p]
      else c
    case PaperAlias =>
      if x.retained.Some? then
        map p | p in c :: if p in x.subjects then x.retained.value else c[p]
      else c
    case MistakenMergeSplit =>
      map p | p in c :: if p in x.subjects then p else c[p]
    case _ => c
  }

  function StatusStep(s: map<string, LibraryStatus>, x: Correction): map<string, LibraryStatus> {
    if x.subjects == [] then s
    else match x.operation
      case LibraryArchive => s[x.subjects[0] := Archived]
      case LibraryTombstone => s[x.subjects[0] := Tombstoned]
      case _ => s
  }

  function Replay(papers: set<string>, log: seq<Correction>): (c: Aliases)
    ensures c.Keys == papers
  {
    if log == [] then map p | p in papers :: p
    else Step(Replay(papers, log[..|log| - 1]), log[|log| - 1])
  }

  function StatusReplay(papers: set<string>, log: seq<Correction>): map<string, LibraryStatus> {
    if log == [] then map p | p in papers :: Active
    else StatusStep(StatusReplay(papers, log[..|log| - 1]), log[|log| - 1])
  }

  /** One paper after the log: its canonical paper and its library status. */
  ghost function ProjectedPaper(papers: set<string>, log: seq<Correction>, p: string): Projected
    requires Forest(Replay(papers, log)) && p in papers
  {
    var c, s := Replay(papers, log), StatusReplay(papers, log);
    assert ReachesRoot(c, p);
    Projected(CanonicalOf(c, p), if p in s then s[p] else Active)
  }

  /** `m` is the registry after the log. */
  ghost predicate IsProjection(m: map<string, Projected>, papers: set<string>, log: seq<Correction>)
    requires Forest(Replay(papers, log))
  {
    && m.Keys == papers
    && forall p {:trigger ProjectedPaper(papers, log, p)} :: p in papers ==> m[p] == ProjectedPaper(papers, log, p)
  }

  /** The one way a correction closes a cycle: an alias whose target already leads to its subject. */
  ghost predicate ClosesCycle(c: Aliases, x: Correction) {
    && x.operation.PaperAlias? && |x.subjects| == 1 && x.retained.Some?
    && Closed(c) && x.retained.value in c
    && Reaches(c, x.retained.value, x.subjects[0])
  }

  ghost predicate Accepted(log: seq<Correction>, papers: set<string>, digest: Digest) {
    forall i: nat :: i < |log| ==>
      WellFormedAt(log, i, papers, digest) && !ClosesCycle(Replay(papers, log[..i]), log[i])
  }

  /** What replaying relies on; every well-formed record has it. */
  ghost predicate Replayable(x: Correction, papers: set<string>) {
    && (forall p :: p in x.subjects ==> p in papers)
    && (x.retained.Some? ==> x.retained.value in papers)
    && (x.operation.DuplicateMerge? ==> x.retained.Some?)
    && (x.operation.PaperAlias? ==>
          |x.subjects| == 1 && x.retained.Some? && x.retained.value != x.subjects[0])
    && (x.operation.LibraryArchive? || x.operation.LibraryTombstone? ==> |x.subjects| == 1)
  }

  lemma WellFormedIsReplayable(log: seq<Correction>, i: nat, papers: set<string>, digest: Digest)
    requires i < |log| && WellFormedAt(log, i, papers, digest)
    ensures Replayable(log[i], papers)
  {
  }

  /**
   One correction keeps the alias forest unless it is an alias whose target already leads to its
   subject; merges and splits never close a cycle.
   */
  lemma StepKeepsForest(c: Aliases, x: Correction)
    requires Forest(c) && Replayable(x, c.Keys)
    ensures Closed(Step(c, x)) && Step(c, x).Keys == c.Keys
    ensures Forest(Step(c, x)) <==> !ClosesCycle(c, x)
    ensures x.operation.DuplicateMerge? || x.operation.MistakenMergeSplit? ==> Forest(Step(c, x))
  {
    var d := Step(c, x);
    assert d.Keys == c.Keys;
    assert forall p :: p in c ==> Next(c, p) in c;
    match x.operation
    case DuplicateMerge =>
      CollapseKeepsForest(c, d, (set p | p in x.subjects), x.retained.value);
    case PaperAlias =>
      AliasKeepsForest(c, d, x.subjects[0], x.retained.value);
    case MistakenMergeSplit =>
      DetachKeepsForest(c, d, set p | p in x.subjects);
    case _ =>
  }

  lemma InitialForest(papers: set<string>)
    ensures Forest(Replay(papers, []))
  {
    var c := Replay(papers, []);
    forall p | p in c ensures ReachesRoot(c, p) {
      assert IsRoot(c, Walk(c, p, 0));
    }
  }

  /** An accepted log leaves an alias forest over the known papers after every prefix. */
  lemma {:induction false} ForestAfterEveryPrefix(log: seq<Correction>, papers: set<string>, digest: Digest, k: nat)
    requires Accepted(log, papers, digest) && k <= |log|
    ensures Forest(Replay(papers, log[..k]))
  {
    if k == 0 {
      InitialForest(papers);
    } else {
      ForestAfterEveryPrefix(log, papers, digest, k - 1);
      assert log[..k][..k - 1] == log[..k - 1];
      WellFormedIsReplayable(log, k - 1, papers, digest);
      StepKeepsForest(Replay(papers, log[..k - 1]), log[k - 1]);
    }
  }

  /** After every prefix the canonical id of a paper is a known paper, and its own canonical id. */
  lemma CanonicalIdsAreKnownRoots(log: seq<Correction>, papers: set<string>, digest: Digest, k: nat,
                                  m: map<string, Projected>, p: string)
    requires Accepted(log, papers, digest) && k <= |log| && p in papers
    ensures Forest(Replay(papers, log[..k]))
    ensures IsProjection(m, papers, log[..k]) ==>
      && m[p].canonicalId in papers
      && m[m[p].canonicalId].canonicalId == m[p].canonicalId
  {
    ForestAfterEveryPrefix(log, papers, digest, k);
    var c := Replay(papers, log[..k]);
    assert ReachesRoot(c, p);
    var q := CanonicalOf(c, p);
    assert ReachesRoot(c, q);
    CanonicalIdempotent(c, p);
    if IsProjection(m, papers, log[..k]) {
      assert ProjectedPaper(papers, log[..k], p).canonicalId == q;
      assert ProjectedPaper(papers, log[..k], q).canonicalId == q;
    }
  }

  lemma AcceptedPrefix(log: seq<Correction>, papers: set<string>, digest: Digest, k: nat)
    requires Accepted(log, papers, digest) && k <= |log|
    ensures Accepted(log[..k], papers, digest)
  {
    var prefix := log[..k];
    forall i: nat | i < |prefix|
      ensures WellFormedAt(prefix, i, papers, digest) && !ClosesCycle(Replay(papers, prefix[..i]), prefix[i])
    {
      assert prefix[..i] == log[..i];
      assert WellFormedAt(log, i, papers, digest);
      if log[i].operation.MistakenMergeSplit? {
        var j: nat :| j < i && SplitsEarlierMerge(log, i, j);
        assert SplitsEarlierMerge(prefix, i, j);
      }
    }
  }

  ghost predicate Chained(log: seq<Correction>, digest: Digest) {
    forall i: nat :: i < |log| ==> LinkedAt(log, i, digest)
  }

  lemma AcceptedIsChained(log: seq<Correction>, papers: set<string>, digest: Digest)
    requires Accepted(log, papers, digest)
    ensures Chained(log, digest)
  {
    forall i: nat | i < |log| ensures LinkedAt(log, i, digest) {
      assert WellFormedAt(log, i, papers, digest);
    }
  }

  lemma {:induction false} ChainsWithOneHead(a: seq<Correction>, b: seq<Correction>, digest: Digest)
    requires Injective(digest) && Chained(a, digest) && Chained(b, digest)
    requires a != [] && b != [] && a[|a| - 1] == b[|b| - 1]
    ensures a == b
    decreases |a|
  {
    var m, n := |a| - 1, |b| - 1;
    assert LinkedAt(a, m, digest) && LinkedAt(b, n, digest);
    if m > 0 && n > 0 {
      assert digest(a[m - 1]) == digest(b[n - 1]);
      assert a[m - 1] == b[n - 1];
      assert Chained(a[..m], digest) by {
        forall i: nat | i < m ensures LinkedAt(a[..m], i, digest) {
          assert LinkedAt(a, i, digest);
        }
      }
      assert Chained(b[..n], digest) by {
        forall i: nat | i < n ensures LinkedAt(b[..n], i, digest) {
          assert LinkedAt(b, i, digest);
        }
      }
      ChainsWithOneHead(a[..m], b[..n], digest);
    }
    assert a == a[..m] + [a[m]] && b == b[..n] + [b[n]];
  }

  /** With a collision-free digest the newest record of an accepted log fixes the whole log. */
  lemma HeadDeterminesHistory(a: seq<Correction>, b: seq<Correction>,
                              papers: set<string>, papers': set<string>, digest: Digest)
    requires Injective(digest)
    requires a != [] && b != [] && Accepted(a, papers, digest) && Accepted(b, papers', digest)
    requires a[|a| - 1] == b[|b| - 1]
    ensures a == b
  {
    AcceptedIsChained(a, papers, digest);
    AcceptedIsChained(b, papers', digest);
    ChainsWithOneHead(a, b, digest);
  }

  // ----- Merging and splitting again -----

  /** A merge followed by the split of everything it did not retain. */
  ghost predicate UndoesMerge(merge: Correction, split: Correction) {
    && merge.operation.DuplicateMerge? && merge.retained.Some? && merge.retained.value in merge.subjects
    && split.operation.MistakenMergeSplit?
    && forall p :: p in split.subjects <==> p in merge.subjects && p != merge.retained.value
  }

  lemma MergeThenSplitAliases(c: Aliases, merge: Correction, split: Correction)
    requires UndoesMerge(merge, split)
    ensures forall p :: p in c ==>
      p in Step(Step(c, merge), split) &&
      Step(Step(c, merge), split)[p] == if p in merge.subjects then p else c[p]
  {
  }

  ghost predicate SameCanonicalIds(c: Aliases, d: Aliases)
    requires Forest(c) && Forest(d) && c.Keys == d.Keys
  {
    forall p {:trigger ReachesRoot(c, p)} | p in c && ReachesRoot(c, p) && ReachesRoot(d, p) ::
      CanonicalOf(c, p) == CanonicalOf(d, p)
  }

  /** Projections with equal statuses agree exactly where the papers' canonical ids agree. */
  lemma ProjectionsAgree(papers: set<string>, a: seq<Correction>, b: seq<Correction>,
                         x: map<string, Projected>, y: map<string, Projected>)
    requires Forest(Replay(papers, a)) && Forest(Replay(papers, b))
    requires IsProjection(x, papers, a) && IsProjection(y, papers, b)
    requires StatusReplay(papers, a) == StatusReplay(papers, b)
    ensures x == y <==> SameCanonicalIds(Replay(papers, a), Replay(papers, b))
  {
    var c, d := Replay(papers, a), Replay(papers, b);
    if x == y {
      forall p {:trigger ReachesRoot(c, p)} | p in c && ReachesRoot(c, p) && ReachesRoot(d, p)
        ensures CanonicalOf(c, p) == CanonicalOf(d, p)
      {
        assert x[p] == ProjectedPaper(papers, a, p) && y[p] == ProjectedPaper(papers, b, p);
      }
    }
    if SameCanonicalIds(c, d) {
      forall p | p in papers ensures x[p] == y[p] {
        assert ReachesRoot(c, p) && ReachesRoot(d, p);
        assert x[p] == ProjectedPaper(papers, a, p) && y[p] == ProjectedPaper(papers, b, p);
      }
    }
  }

  /** Restoring roots restores the canonical ids exactly when they were roots before. */
  lemma RestoredRoots(c: Aliases, d: Aliases, restored: set<string>)
    requires Forest(c) && Forest(d) && c.Keys == d.Keys && restored <= c.Keys
    requires forall p {:trigger Next(d, p)} :: p in c ==> Next(d, p) == if p in restored then p else Next(c, p)
    ensures SameCanonicalIds(d, c) <==> forall p :: p in restored ==> IsRoot(c, p)
  {
    if forall p :: p in restored ==> IsRoot(c, p) {
      forall p | p in c ensures d[p] == c[p] {
        assert Next(d, p) == Next(c, p);
      }
      assert c == d;
    }
    if SameCanonicalIds(d, c) {
      forall p | p in restored ensures IsRoot(c, p) {
        assert Next(d, p) == p;
        assert ReachesRoot(c, p) && ReachesRoot(d, p);
        RootIsItsOwnCanonical(d, p);
        RootIsItsOwnCanonical(c, p);
      }
    }
  }

  lemma ReplayOfTwo(papers: set<string>, log: seq<Correction>, x: Correction, y: Correction)
    ensures Replay(papers, log + [x, y]) == Step(Step(Replay(papers, log), x), y)
    ensures StatusReplay(papers, log + [x, y]) == StatusStep(StatusStep(StatusReplay(papers, log), x), y)
  {
    assert (log + [x, y])[..|log| + 1] == log + [x];
    assert (log + [x])[..|log|] == log;
  }

  /**
   Splitting off every non-retained subject restores the registry exactly when the merge joined
   papers that were all canonical.
   */
  lemma MergeThenSplitRestores(log: seq<Correction>, merge: Correction, split: Correction,
                               papers: set<string>, digest: Digest,
                               before: map<string, Projected>, after: map<string, Projected>)
    requires Accepted(log, papers, digest)
    requires Accepted(log + [merge, split], papers, digest)
    requires UndoesMerge(merge, split)
    ensures Forest(Replay(papers, log)) && Forest(Replay(papers, log + [merge, split]))
    ensures IsProjection(before, papers, log) && IsProjection(after, papers, log + [merge, split]) ==>
      (after == before <==> forall p :: p in merge.subjects ==> IsRootIn(papers, log, p))
  {
    var long := log + [merge, split];
    assert log[..|log|] == log && long[..|long|] == long;
    ForestAfterEveryPrefix(log, papers, digest, |log|);
    ForestAfterEveryPrefix(long, papers, digest, |long|);
    assert WellFormedAt(long, |log|, papers, digest) && long[|log|] == merge;
    if IsProjection(before, papers, log) && IsProjection(after, papers, long) {
      MergeThenSplitRestoresReplay(papers, log, merge, split, before, after);
    }
  }

  lemma MergeThenSplitRestoresReplay(papers: set<string>, log: seq<Correction>, merge: Correction, split: Correction,
                                     before: map<string, Projected>, after: map<string, Projected>)
    requires UndoesMerge(merge, split)
    requires forall p :: p in merge.subjects ==> p in papers
    requires Forest(Replay(papers, log)) && Forest(Replay(papers, log + [merge, split]))
    requires IsProjection(before, papers, log) && IsProjection(after, papers, log + [merge, split])
    ensures after == before <==> forall p :: p in merge.subjects ==> IsRootIn(papers, log, p)
  {
    ReplayOfTwo(papers, log, merge, split);
    ProjectionsAgree(papers, log + [merge, split], log, after, before);
    var c, d := Replay(papers, log), Replay(papers, log + [merge, split]);
    MergeThenSplitAliases(c, merge, split);
    RestoredRoots(c, d, set p | p in merge.subjects);
  }

  predicate IsRootIn(papers: set<string>, log: seq<Correction>, p: string) {
    p in papers && IsRoot(Replay(papers, log), p)
  }

  // ----- The validator -----

  /** The last record filed under each id. */
  function Registered(log: seq<Correction>): map<string, Correction> {
    if log == [] then map[]
    else var x := log[|log| - 1]; Registered(log[..|log| - 1])[x.id := x]
  }

  function When(faulty: bool, x: Correction, fault: Fault): seq<Diagnostic> {
    if faulty then [Diagnostic(x.id, fault)] else []
  }

  function UnknownSubjects(x: Correction, n: nat, papers: set<string>): seq<Diagnostic>
    requires n <= |x.subjects|
  {
    if n == 0 then []
    else UnknownSubjects(x, n - 1, papers) + When(x.subjects[n - 1] !in papers, x, UnknownSubject)
  }

  function LinkFaults(log: seq<Correction>, i: nat, digest: Digest): seq<Diagnostic>
    requires i < |log|
  {
    var x := log[i];
    if i == 0 then When(x.previousId.Some? || x.previousDigest.Some?, x, RootHasPredecessor)
    else
      When(x.previousId != Some(log[i - 1].id), x, PredecessorIdMismatch) +
      When(x.previousDigest != Some(digest(log[i - 1])), x, PredecessorDigestMismatch)
  }

  function ShapeFaults(x: Correction, registered: map<string, Correction>): seq<Diagnostic> {
    match x.operation
    case DuplicateMerge =>
      When(|x.subjects| < 2 || x.retained.None? || x.retained.value !in x.subjects || x.supersedes.Some?,
           x, MergeShape)
    case PaperAlias =>
      When(|x.subjects| != 1 || x.retained.None? || x.retained.value in x.subjects || x.supersedes.Some?,
           x, AliasShape)
    case MistakenMergeSplit =>
      if x.retained.Some? || x.supersedes.None? || x.supersedes.value !in registered
         || !registered[x.supersedes.value].operation.DuplicateMerge?
      then [Diagnostic(x.id, SplitTarget)]
      else
        var target := registered[x.supersedes.value];
        When(exists p :: p in x.subjects && (p !in target.subjects || target.retained == Some(p)), x, SplitSubjects)
    case _ =>
      When(|x.subjects| != 1 || x.retained.Some? || x.supersedes.Some?, x, LifecycleShape)
  }

  /** Everything the record-by-record pass reports about one record. */
  function RecordFaults(log: seq<Correction>, i: nat, papers: set<string>, digest: Digest): seq<Diagnostic>
    requires i < |log|
  {
    var x := log[i];
    When(x.id in Registered(log[..i]), x, DuplicateCorrectionId) +
    LinkFaults(log, i, digest) +
    When(!Sorting.IsSorted(x.subjects, StringLeq), x, SubjectsUnsorted) +
    UnknownSubjects(x, |x.subjects|, papers) +
    When(x.retained.Some? && x.retained.value !in papers, x, UnknownRetained) +
    ShapeFaults(x, Registered(log[..i + 1]))
  }

  function LogFaults(log: seq<Correction>, n: nat, papers: set<string>, digest: Digest): seq<Diagnostic>
    requires n <= |log|
  {
    if n == 0 then [] else LogFaults(log, n - 1, papers, digest) + RecordFaults(log, n - 1, papers, digest)
  }

  lemma {:induction false} RegisteredIds(log: seq<Correction>)
    ensures forall id :: id in Registered(log) <==> exists j :: 0 <= j < |log| && log[j].id == id
    ensures forall id :: id in Registered(log) ==> Registered(log)[id] in log && Registered(log)[id].id == id
  {
    if log != [] {
      var init := log[..|log| - 1];
      RegisteredIds(init);
      assert log == init + [log[|log| - 1]];
      forall id ensures id in Registered(log) <==> exists j :: 0 <= j < |log| && log[j].id == id {
        if id in Registered(init) {
          var j :| 0 <= j < |init| && init[j].id == id;
          assert log[j].id == id;
        }
      }
    }
  }

  lemma {:induction false} UnknownSubjectsEmpty(x: Correction, n: nat, papers: set<string>)
    requires n <= |x.subjects|
    ensures UnknownSubjects(x, n, papers) == [] <==> forall k :: 0 <= k < n ==> x.subjects[k] in papers
  {
    if n > 0 {
      UnknownSubjectsEmpty(x, n - 1, papers);
    }
  }

  lemma SortedStrings()
    ensures Sorting.TotalPreorder(StringLeq)
  {
    forall x, y ensures StringLeq(x, y) || StringLeq(y, x) {
      StringOrder.LeqTotal(x, y);
    }
    forall x, y, z | StringLeq(x, y) && StringLeq(y, z) ensures StringLeq(x, z) {
      StringOrder.LeqTransitive(x, y, z);
    }
  }

  /** The split rule on the id table is the split rule on the log, once ids do not repeat. */
  lemma SplitRule(log: seq<Correction>, i: nat)
    requires i < |log| && log[i].operation.MistakenMergeSplit?
    requires forall j, k :: 0 <= j < k <= i ==> log[j].id != log[k].id
    ensures ShapeFaults(log[i], Registered(log[..i + 1])) == [] <==> ShapedAt(log, i)
  {
    var x, known := log[i], Registered(log[..i + 1]);
    RegisteredIds(log[..i + 1]);
    if ShapedAt(log, i) {
      var j: nat :| j < i && SplitsEarlierMerge(log, i, j);
      assert log[..i + 1][j].id == log[j].id;
      var k :| 0 <= k < |log[..i + 1]| && log[..i + 1][k] == known[log[j].id];
      assert k == j;
    }
    if ShapeFaults(x, known) == [] {
      var target := known[x.supersedes.value];
      var j :| 0 <= j < |log[..i + 1]| && log[..i + 1][j] == target;
      assert log[j] == target && j != i;
      assert SplitsEarlierMerge(log, i, j);
    }
  }

  lemma RecordFaultsEmpty(log: seq<Correction>, i: nat, papers: set<string>, digest: Digest)
    requires i < |log|
    requires forall j, k :: 0 <= j < k < i ==> log[j].id != log[k].id
    ensures RecordFaults(log, i, papers, digest) == [] <==> WellFormedAt(log, i, papers, digest)
  {
    var x := log[i];
    RegisteredIds(log[..i]);
    UnknownSubjectsEmpty(x, |x.subjects|, papers);
    assert x.id in Registered(log[..i]) <==> exists j :: 0 <= j < i && log[j].id == x.id by {
      if j :| 0 <= j < i && log[j].id == x.id {
        assert log[..i][j].id == x.id;
      }
    }
    assert SubjectsSorted(x) <==> Sorting.IsSorted(x.subjects, StringLeq);
    if x.operation.MistakenMergeSplit? && forall j :: 0 <= j < i ==> log[j].id != x.id {
      SplitRule(log, i);
    }
  }

  ghost predicate WellFormedUpTo(log: seq<Correction>, n: nat, papers: set<string>, digest: Digest)
    requires n <= |log|
  {
    n > 0 ==> WellFormedUpTo(log, n - 1, papers, digest) && WellFormedAt(log, n - 1, papers, digest)
  }

  lemma {:induction false} WellFormedUpToMeans(log: seq<Correction>, n: nat, papers: set<string>, digest: Digest)
    requires n <= |log|
    ensures WellFormedUpTo(log, n, papers, digest) <==>
      forall i: nat {:trigger WellFormedAt(log, i, papers, digest)} :: i < n ==> WellFormedAt(log, i, papers, digest)
  {
    if n > 0 {
      WellFormedUpToMeans(log, n - 1, papers, digest);
    }
  }

  lemma {:induction false} WellFormedIdsDiffer(log: seq<Correction>, n: nat, papers: set<string>, digest: Digest)
    requires n <= |log| && WellFormedUpTo(log, n, papers, digest)
    ensures forall j, k :: 0 <= j < k < n ==> log[j].id != log[k].id
  {
    if n > 0 {
      WellFormedIdsDiffer(log, n - 1, papers, digest);
    }
  }

  lemma {:induction false} LogFaultsEmptyUpTo(log: seq<Correction>, n: nat, papers: set<string>, digest: Digest)
    requires n <= |log|
    ensures LogFaults(log, n, papers, digest) == [] <==> WellFormedUpTo(log, n, papers, digest)
  {
    if n > 0 {
      LogFaultsEmptyUpTo(log, n - 1, papers, digest);
      if WellFormedUpTo(log, n - 1, papers, digest) {
        WellFormedIdsDiffer(log, n - 1, papers, digest);
        RecordFaultsEmpty(log, n - 1, papers, digest);
      }
    }
  }

  /** The record-by-record pass is silent exactly on well-formed logs. */
  lemma LogFaultsEmpty(log: seq<Correction>, n: nat, papers: set<string>, digest: Digest)
    requires n <= |log|
    ensures LogFaults(log, n, papers, digest) == [] <==>
      forall i: nat {:trigger WellFormedAt(log, i, papers, digest)} :: i < n ==> WellFormedAt(log, i, papers, digest)
  {
    LogFaultsEmptyUpTo(log, n, papers, digest);
    WellFormedUpToMeans(log, n, papers, digest);
  }

  /** Whether a list of subjects equals its sorted copy. */
  lemma SortedFixpoint(s: seq<string>)
    ensures Sorting.Sorted(s, StringLeq) == s <==> Sorting.IsSorted(s, StringLeq)
  {
    SortedStrings();
    Sorting.SortedOrders(s, StringLeq);
    Sorting.SortedContents(s, StringLeq);
    if Sorting.IsSorted(s, StringLeq) {
      forall x, y | StringLeq(x, y) && StringLeq(y, x) ensures x == y {
        StringOrder.LeqAntisymmetric(x, y);
      }
      Sorting.SortedUnique(s, Sorting.Sorted(s, StringLeq), StringLeq);
    }
  }

  method LinkPass(log: seq<Correction>, i: nat, digest: Digest) returns (faults: seq<Diagnostic>)
    requires i < |log|
    ensures faults == LinkFaults(log, i, digest)
  {
    var x := log[i];
    faults := [];
    if i == 0 {
      if x.previousId.Some? || x.previousDigest.Some? {
        faults := [Diagnostic(x.id, RootHasPredecessor)];
      }
    } else {
      var previous := log[i - 1];
      if x.previousId != Some(previous.id) {
        faults := faults + [Diagnostic(x.id, PredecessorIdMismatch)];
      }
      if x.previousDigest != Some(digest(previous)) {
        faults := faults + [Diagnostic(x.id, PredecessorDigestMismatch)];
      }
    }
  }

  method SubjectPass(x: Correction, papers: set<string>) returns (faults: seq<Diagnostic>)
    ensures faults == UnknownSubjects(x, |x.subjects|, papers)
  {
    faults := [];
    for k := 0 to |x.subjects|
      invariant faults == UnknownSubjects(x, k, papers)
    {
      if x.subjects[k] !in papers {
        faults := faults + [Diagnostic(x.id, UnknownSubject)];
      }
    }
  }

  /** One pass of the validator's loop: the faults of record `i`, given the id table before it. */
  method RecordPass(log: seq<Correction>, i: nat, papers: set<string>, digest: Digest,
                    byId: map<string, Correction>) returns (faults: seq<Diagnostic>, byId': map<string, Correction>)
    requires i < |log| && byId == Registered(log[..i])
    ensures byId' == Registered(log[..i + 1])
    ensures faults == RecordFaults(log, i, papers, digest)
  {
    var x := log[i];
    faults := When(x.id in byId, x, DuplicateCorrectionId);
    byId' := byId[x.id := x];
    assert byId' == Registered(log[..i + 1]) by {
      assert log[..i + 1][..i] == log[..i];
    }
    var links := LinkPass(log, i, digest);
    SortedFixpoint(x.subjects);
    var unsorted := When(x.subjects != Sorting.Sorted(x.subjects, StringLeq), x, SubjectsUnsorted);
    var unknown := SubjectPass(x, papers);
    var retained := When(x.retained.Some? && x.retained.value !in papers, x, UnknownRetained);
    faults := faults + links + unsorted + unknown + retained + ShapeFaults(x, byId');
  }

  /** `canonical[p] = target` for each subject, in order. */
  method PointSubjectsAt(c: Aliases, subjects: seq<string>, target: string) returns (d: Aliases)
    requires forall p :: p in subjects ==> p in c
    ensures d == map p | p in c :: if p in subjects then target else c[p]
  {
    d := c;
    for k := 0 to |subjects|
      invariant d == map p | p in c :: if p in subjects[..k] then target else c[p]
    {
      assert subjects[..k + 1] == subjects[..k] + [subjects[k]];
      d := d[subjects[k] := target];
    }
    assert subjects[..|subjects|] == subjects;
  }

  /** `canonical[p] = p` for each subject, in order. */
  method DetachSubjects(c: Aliases, subjects: seq<string>) returns (d: Aliases)
    requires forall p :: p in subjects ==> p in c
    ensures d == map p | p in c :: if p in subjects then p else c[p]
  {
    d := c;
    for k := 0 to |subjects|
      invariant d == map p | p in c :: if p in subjects[..k] then p else c[p]
    {
      assert subjects[..k + 1] == subjects[..k] + [subjects[k]];
      d := d[subjects[k] := subjects[k]];
    }
    assert subjects[..|subjects|] == subjects;
  }

  /** One correction's writes to the alias map, in the order the replay makes them. */
  method Apply(canonical: Aliases, x: Correction) returns (c: Aliases)
    requires Replayable(x, canonical.Keys)
    ensures c == Step(canonical, x)
  {
    c := canonical;
    if x.operation.DuplicateMerge? || x.operation.PaperAlias? {
      c := PointSubjectsAt(c, x.subjects, x.retained.value);
      if x.operation.DuplicateMerge? {
        c := c[x.retained.value := x.retained.value];
      }
    } else if x.operation.MistakenMergeSplit? {
      c := DetachSubjects(c, x.subjects);
    }
  }

  /** The first correction of the log that closes a cycle. */
  ghost predicate FirstCycleAt(papers: set<string>, log: seq<Correction>, i: nat)
    requires i < |log|
  {
    ClosesCycle(Replay(papers, log[..i]), log[i]) && NoCycleBefore(papers, log, i)
  }

  ghost predicate NoCycleBefore(papers: set<string>, log: seq<Correction>, n: nat)
    requires n <= |log|
  {
    forall j: nat :: j < n ==> !ClosesCycle(Replay(papers, log[..j]), log[j])
  }

  /** Resolves every paper once the aliases are known to be a forest. */
  method ResolveAll(papers: set<string>, log: seq<Correction>, canonical: Aliases,
                    library: map<string, LibraryStatus>) returns (m: map<string, Projected>)
    requires canonical == Replay(papers, log) && library == StatusReplay(papers, log) && Forest(canonical)
    ensures IsProjection(m, papers, log)
  {
    var todo := papers;
    m := map[];
    while todo != {}
      invariant todo <= papers && m.Keys == papers - todo
      invariant forall p {:trigger ProjectedPaper(papers, log, p)} :: p in m ==> m[p] == ProjectedPaper(papers, log, p)
    {
      var p :| p in todo;
      assert ReachesRoot(canonical, p);
      var q := Resolve(canonical, p);
      m := m[p := Projected(q, if p in library then library[p] else Active)];
      todo := todo - {p};
    }
  }

  /** The replay: raises on the first correction that closes a cycle, else returns the registry. */
  method Project(papers: set<string>, log: seq<Correction>) returns (r: Result<map<string, Projected>, Diagnostic>)
    requires forall i :: 0 <= i < |log| ==> Replayable(log[i], papers)
    ensures r.Ok? ==> Forest(Replay(papers, log)) && IsProjection(r.value, papers, log)
    ensures r.Ok? <==> NoCycleBefore(papers, log, |log|)
    ensures r.Err? ==>
      exists i: nat :: i < |log| && FirstCycleAt(papers, log, i) && r.error == Diagnostic(log[i].id, AliasCycle)
  {
    var canonical: Aliases := map p | p in papers :: p;
    var library := map p | p in papers :: Active;
    InitialForest(papers);
    for i := 0 to |log|
      invariant canonical == Replay(papers, log[..i]) && library == StatusReplay(papers, log[..i])
      invariant Forest(canonical)
      invariant NoCycleBefore(papers, log, i)
    {
      var x := log[i];
      assert log[..i + 1][..i] == log[..i];
      StepKeepsForest(canonical, x);
      canonical := Apply(canonical, x);
      if x.operation.LibraryArchive? {
        library := library[x.subjects[0] := Archived];
      } else if x.operation.LibraryTombstone? {
        library := library[x.subjects[0] := Tombstoned];
      }
      var acyclic := RequireAcyclic(canonical);
      if !acyclic {
        assert FirstCycleAt(papers, log, i);
        return Err(Diagnostic(x.id, AliasCycle));
      }
    }
    assert log[..|log|] == log;
    var m := ResolveAll(papers, log, canonical, library);
    return Ok(m);
  }

  lemma AcceptedMeans(log: seq<Correction>, papers: set<string>, digest: Digest)
    ensures Accepted(log, papers, digest) <==>
      LogFaults(log, |log|, papers, digest) == [] && NoCycleBefore(papers, log, |log|)
  {
    LogFaultsEmpty(log, |log|, papers, digest);
  }

  lemma SilentLogIsReplayable(log: seq<Correction>, papers: set<string>, digest: Digest)
    requires LogFaults(log, |log|, papers, digest) == []
    ensures forall i :: 0 <= i < |log| ==> Replayable(log[i], papers)
  {
    LogFaultsEmpty(log, |log|, papers, digest);
    forall i | 0 <= i < |log| ensures Replayable(log[i], papers) {
      WellFormedIsReplayable(log, i, papers, digest);
    }
  }

  /**
   The log validator. It is silent exactly on accepted logs; it reports every record fault once, and
   only a log without record faults is replayed and reports its first alias cycle.
   */
  method IdentityCorrectionDiagnostics(log: seq<Correction>, papers: set<string>, digest: Digest)
    returns (diagnostics: seq<Diagnostic>)
    ensures diagnostics == [] <==> Accepted(log, papers, digest)
    ensures LogFaults(log, |log|, papers, digest) != [] ==>
      diagnostics == FirstOccurrences(LogFaults(log, |log|, papers, digest))
    ensures LogFaults(log, |log|, papers, digest) == [] && diagnostics != [] ==>
      exists i: nat :: i < |log| && FirstCycleAt(papers, log, i) && diagnostics == [Diagnostic(log[i].id, AliasCycle)]
  {
    var faults := [];
    var byId := map[];
    for i := 0 to |log|
      invariant byId == Registered(log[..i])
      invariant faults == LogFaults(log, i, papers, digest)
    {
      var found;
      found, byId := RecordPass(log, i, papers, digest, byId);
      faults := faults + found;
    }
    AcceptedMeans(log, papers, digest);
    FirstOccurrencesContents(faults);
    if faults != [] {
      diagnostics := Deduplicate(faults);
    } else {
      SilentLogIsReplayable(log, papers, digest);
      var projected := Project(papers, log);
      diagnostics := if projected.Err? then [projected.error] else [];
    }
  }

  /** The registry projection: refuses a log with diagnostics, else resolves every paper. */
  method ProjectRegistryIdentity(papers: set<string>, log: seq<Correction>, digest: Digest)
    returns (r: Result<map<string, Projected>, Diagnostic>)
    ensures r.Ok? <==> Accepted(log, papers, digest)
    ensures r.Ok? ==> Forest(Replay(papers, log)) && IsProjection(r.value, papers, log)
  {
    var diagnostics := IdentityCorrectionDiagnostics(log, papers, digest);
    if diagnostics != [] {
      return Err(diagnostics[0]);
    }
    AcceptedMeans(log, papers, digest);
    SilentLogIsReplayable(log, papers, digest);
    r := Project(papers, log);
  }
}
