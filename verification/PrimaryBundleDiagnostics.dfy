/** The passes over Primary bundles: what they report, and what their silence means. */
module PrimaryBundleDiagnostics {
  import opened Wrappers
  import opened Records
  import opened Concatenation
  import opened Selection
  import opened PrimaryBundles

  datatype Fault =
    | NotContiguous | ActiveNotLast | DuplicateRevision | UnexpectedPredecessor | PredecessorMismatch
    | ForeignChild | ReusedChild | ReusedUnit

  datatype Diagnostic = Diagnostic(index: nat, fault: Fault)

  // ----- What is reported -----

  function ChildFault(c: Child, seen: seq<string>, paperId: string, index: nat): seq<Diagnostic> {
    (if c.paperId != paperId then [Diagnostic(index, ForeignChild)] else []) +
    (if c.id.Some? && c.id.value in seen then [Diagnostic(index, ReusedChild)] else [])
  }

  function ChildFaults(children: seq<Child>, n: nat, seen: seq<string>, paperId: string, index: nat): seq<Diagnostic>
    requires n <= |children|
  {
    if n == 0 then []
    else
      ChildFaults(children, n - 1, seen, paperId, index) +
      ChildFault(children[n - 1], seen + ChildIds(children, n - 1), paperId, index)
  }

  function UnitFaults(ids: seq<string>, seen: seq<string>, index: nat): seq<Diagnostic> {
    if ids == [] then []
    else
      var init, last := ids[..|ids| - 1], ids[|ids| - 1];
      UnitFaults(init, seen, index) + if last in seen + init then [Diagnostic(index, ReusedUnit)] else []
  }

  function LinkFaults(revisions: seq<Revision>, i: nat, digest: RevisionDigest): seq<Diagnostic>
    requires i < |revisions|
  {
    if LinkOk(revisions, i, digest) then []
    else [Diagnostic(i, if i == 0 then UnexpectedPredecessor else PredecessorMismatch)]
  }

  predicate RepeatsRevision(revisions: seq<Revision>, i: nat)
    requires i < |revisions|
  {
    exists j :: 0 <= j < i && revisions[j].revisionId == revisions[i].revisionId
  }

  function HeaderFaults(revisions: seq<Revision>, i: nat, digest: RevisionDigest): seq<Diagnostic>
    requires i < |revisions|
  {
    (if RepeatsRevision(revisions, i) then [Diagnostic(i, DuplicateRevision)] else []) + LinkFaults(revisions, i, digest)
  }

  function ContentFaults(r: Revision, seen: seq<string>, paperId: string, i: nat): seq<Diagnostic> {
    var children := ChildrenOf(r);
    ChildFaults(children, |children|, seen, paperId, i) +
    UnitFaults(UnitIdsOf(r), seen + ChildIds(children, |children|), i)
  }

  function RevisionFaults(b: Bundle, i: nat, digest: RevisionDigest): seq<Diagnostic>
    requires i < |b.revisions|
  {
    HeaderFaults(b.revisions, i, digest) + ContentFaults(b.revisions[i], IdsBefore(b.revisions, i), b.paperId, i)
  }

  function RevisionReports(b: Bundle, digest: RevisionDigest): seq<seq<Diagnostic>> {
    seq(|b.revisions|, i requires 0 <= i < |b.revisions| => RevisionFaults(b, i, digest))
  }

  function ActiveFaults(b: Bundle): seq<Diagnostic> {
    if b.revisions != [] && b.activeId != b.revisions[|b.revisions| - 1].revisionId then [Diagnostic(0, ActiveNotLast)]
    else []
  }

  function BundleFaults(b: Bundle, digest: RevisionDigest): seq<Diagnostic> {
    if !Numbered(b.revisions) then [Diagnostic(0, NotContiguous)]
    else ActiveFaults(b) + Flatten(RevisionReports(b, digest), |b.revisions|)
  }

  // ----- What silence means -----

  /** None of `ids` occurs in `seen` or earlier among themselves. */
  ghost predicate Fresh(seen: seq<string>, ids: seq<string>) {
    forall j :: 0 <= j < |ids| ==> ids[j] !in seen && ids[j] !in ids[..j]
  }

  lemma FreshAppend(seen: seq<string>, ids: seq<string>, x: string)
    ensures Fresh(seen, ids + [x]) <==> Fresh(seen, ids) && x !in seen + ids
  {
    var longer := ids + [x];
    assert longer[|ids|] == x && longer[..|ids|] == ids;
    assert forall j :: 0 <= j < |ids| ==> longer[j] == ids[j] && longer[..j] == ids[..j];
    if Fresh(seen, longer) {
      forall j | 0 <= j < |ids| ensures ids[j] !in seen && ids[j] !in ids[..j] {
        assert longer[j] !in seen;
      }
    }
  }

  lemma {:induction false} FreshConcat(seen: seq<string>, a: seq<string>, b: seq<string>)
    ensures Fresh(seen, a + b) <==> Fresh(seen, a) && Fresh(seen + a, b)
  {
    if b == [] {
      assert a + b == a;
    } else {
      var init, last := b[..|b| - 1], b[|b| - 1];
      assert a + b == (a + init) + [last] && b == init + [last];
      FreshConcat(seen, a, init);
      FreshAppend(seen, a + init, last);
      FreshAppend(seen + a, init, last);
    }
  }

  lemma {:induction false} NoRepeatsIsFresh(ids: seq<string>)
    ensures NoRepeats(ids) <==> Fresh([], ids)
  {
    forall i, j | 0 <= i < j < |ids| && Fresh([], ids) ensures ids[i] != ids[j] {
      assert ids[i] == ids[..j][i];
    }
  }

  lemma ChildFaultEmpty(c: Child, seen: seq<string>, paperId: string, index: nat)
    ensures ChildFault(c, seen, paperId, index) == [] <==>
      c.paperId == paperId && (c.id.Some? ==> c.id.value !in seen)
  {
  }

  lemma {:induction false} ChildFaultsEmpty(
      children: seq<Child>, n: nat, seen: seq<string>, paperId: string, index: nat)
    requires n <= |children|
    ensures ChildFaults(children, n, seen, paperId, index) == [] <==>
      (forall k :: 0 <= k < n ==> children[k].paperId == paperId) && Fresh(seen, ChildIds(children, n))
  {
    if n > 0 {
      var last, before := children[n - 1], ChildIds(children, n - 1);
      ChildFaultsEmpty(children, n - 1, seen, paperId, index);
      ChildFaultEmpty(last, seen + before, paperId, index);
      if last.id.Some? {
        FreshAppend(seen, before, last.id.value);
      } else {
        assert ChildIds(children, n) == before;
      }
    }
  }

  lemma {:induction false} UnitFaultsEmpty(ids: seq<string>, seen: seq<string>, index: nat)
    ensures UnitFaults(ids, seen, index) == [] <==> Fresh(seen, ids)
  {
    if ids != [] {
      var init, last := ids[..|ids| - 1], ids[|ids| - 1];
      UnitFaultsEmpty(init, seen, index);
      FreshAppend(seen, init, last);
      assert ids == init + [last];
    }
  }

  lemma ChildrenBelongPointwise(r: Revision, paperId: string)
    ensures ChildrenBelong(r, paperId) <==>
      forall k :: 0 <= k < |ChildrenOf(r)| ==> ChildrenOf(r)[k].paperId == paperId
  {
    var children := ChildrenOf(r);
    assert children[0].paperId == r.card.paperId;
    assert forall i :: 0 <= i < |r.evidence| ==> children[1 + i].paperId == r.evidence[i].paperId;
    assert forall i :: 0 <= i < |r.queue| ==> children[1 + |r.evidence| + i].paperId == r.queue[i].paperId;
  }

  lemma ContentFaultsEmpty(r: Revision, seen: seq<string>, paperId: string, i: nat)
    ensures ContentFaults(r, seen, paperId, i) == [] <==> ChildrenBelong(r, paperId) && Fresh(seen, IdsOf(r))
  {
    var children := ChildrenOf(r);
    ChildFaultsEmpty(children, |children|, seen, paperId, i);
    UnitFaultsEmpty(UnitIdsOf(r), seen + ChildIds(children, |children|), i);
    FreshConcat(seen, ChildIds(children, |children|), UnitIdsOf(r));
    ChildrenBelongPointwise(r, paperId);
  }

  lemma NothingRepeats(revisions: seq<Revision>)
    ensures DistinctBy(revisions, RevisionIdOf) <==>
      forall i {:trigger RepeatsRevision(revisions, i)} :: 0 <= i < |revisions| ==> !RepeatsRevision(revisions, i)
  {
    forall i, j | 0 <= i < j < |revisions| && !RepeatsRevision(revisions, j)
      ensures RevisionIdOf(revisions[i]) != RevisionIdOf(revisions[j])
    {
    }
  }

  ghost predicate FreshPart(parts: seq<seq<string>>, i: nat)
    requires i < |parts|
  {
    Fresh(Flatten(parts, i), parts[i])
  }

  lemma {:induction false} FreshStepwise(parts: seq<seq<string>>, n: nat)
    requires n <= |parts|
    ensures Fresh([], Flatten(parts, n)) <==>
      forall i {:trigger FreshPart(parts, i)} :: 0 <= i < n ==> FreshPart(parts, i)
  {
    if n > 0 {
      FreshStepwise(parts, n - 1);
      FreshConcat([], Flatten(parts, n - 1), parts[n - 1]);
      assert [] + Flatten(parts, n - 1) == Flatten(parts, n - 1);
      assert FreshPart(parts, n - 1) <==> Fresh(Flatten(parts, n - 1), parts[n - 1]);
    }
  }

  ghost predicate RevisionSound(b: Bundle, parts: seq<seq<string>>, i: nat, digest: RevisionDigest)
    requires i < |b.revisions| == |parts|
  {
    && !RepeatsRevision(b.revisions, i)
    && LinkOk(b.revisions, i, digest)
    && ChildrenBelong(b.revisions[i], b.paperId)
    && FreshPart(parts, i)
  }

  lemma RevisionFaultsEmpty(b: Bundle, i: nat, digest: RevisionDigest)
    requires i < |b.revisions|
    ensures RevisionFaults(b, i, digest) == [] <==> RevisionSound(b, IdParts(b.revisions), i, digest)
  {
    ContentFaultsEmpty(b.revisions[i], IdsBefore(b.revisions, i), b.paperId, i);
  }

  lemma SoundRevisions(b: Bundle, parts: seq<seq<string>>, digest: RevisionDigest)
    requires |b.revisions| == |parts|
    ensures
      && DistinctBy(b.revisions, RevisionIdOf)
      && (forall i {:trigger LinkOk(b.revisions, i, digest)} :: 0 <= i < |b.revisions| ==> LinkOk(b.revisions, i, digest))
      && (forall r :: r in b.revisions ==> ChildrenBelong(r, b.paperId))
      && NoRepeats(Flatten(parts, |parts|))
      <==> forall i {:trigger RevisionSound(b, parts, i, digest)} :: 0 <= i < |parts| ==> RevisionSound(b, parts, i, digest)
  {
    NothingRepeats(b.revisions);
    FreshStepwise(parts, |parts|);
    NoRepeatsIsFresh(Flatten(parts, |parts|));
    assert forall i :: 0 <= i < |b.revisions| ==> b.revisions[i] in b.revisions;
    if forall i {:trigger RevisionSound(b, parts, i, digest)} :: 0 <= i < |parts| ==> RevisionSound(b, parts, i, digest) {
      forall i | 0 <= i < |parts|
        ensures !RepeatsRevision(b.revisions, i) && LinkOk(b.revisions, i, digest)
        ensures ChildrenBelong(b.revisions[i], b.paperId) && FreshPart(parts, i)
      {
        assert RevisionSound(b, parts, i, digest);
      }
    }
  }

  /** Nothing is reported exactly when the bundle is accepted. */
  lemma BundleFaultsEmpty(b: Bundle, digest: RevisionDigest)
    ensures BundleFaults(b, digest) == [] <==> Accepted(b, digest)
  {
    if Numbered(b.revisions) && ActiveFaults(b) == [] {
      var reports := RevisionReports(b, digest);
      FlattenEmpty(reports, |reports|);
      forall i | 0 <= i < |reports| ensures reports[i] == [] <==> RevisionSound(b, IdParts(b.revisions), i, digest) {
        RevisionFaultsEmpty(b, i, digest);
      }
      SoundRevisions(b, IdParts(b.revisions), digest);
    }
  }

  // ----- The pass over one bundle -----

  ghost predicate Tracks(seen: set<string>, ids: seq<string>) {
    forall x :: x in seen <==> x in ids
  }

  method CheckChildren(r: Revision, seen: set<string>, ghost ids: seq<string>, paperId: string, index: nat)
      returns (faults: seq<Diagnostic>, seen': set<string>)
    requires Tracks(seen, ids)
    ensures var children := ChildrenOf(r);
      && faults == ChildFaults(children, |children|, ids, paperId, index)
      && Tracks(seen', ids + ChildIds(children, |children|))
  {
    var children := ChildrenOf(r);
    faults, seen' := [], seen;
    for k := 0 to |children|
      invariant faults == ChildFaults(children, k, ids, paperId, index)
      invariant Tracks(seen', ids + ChildIds(children, k))
    {
      var c := children[k];
      ghost var before := ids + ChildIds(children, k);
      faults := faults + ((if c.paperId != paperId then [Diagnostic(index, ForeignChild)] else []) +
        (if c.id.Some? && c.id.value in seen' then [Diagnostic(index, ReusedChild)] else []));
      if c.id.Some? {
        seen' := seen' + {c.id.value};
        assert ids + ChildIds(children, k + 1) == before + [c.id.value];
      }
    }
  }

  method CheckUnits(units: seq<Unit>, seen: set<string>, ghost ids: seq<string>, index: nat)
      returns (faults: seq<Diagnostic>, seen': set<string>)
    requires Tracks(seen, ids)
    ensures faults == UnitFaults(UnitIds(units), ids, index)
    ensures Tracks(seen', ids + UnitIds(units))
  {
    faults, seen' := [], seen;
    ghost var all := UnitIds(units);
    for k := 0 to |units|
      invariant faults == UnitFaults(all[..k], ids, index)
      invariant Tracks(seen', ids + all[..k])
    {
      var id := units[k].id;
      assert all[..k + 1] == all[..k] + [id] && all[..k + 1][..k] == all[..k];
      assert ids + all[..k + 1] == (ids + all[..k]) + [id];
      if id in seen' {
        faults := faults + [Diagnostic(index, ReusedUnit)];
      }
      seen' := seen' + {id};
    }
    assert all[..|units|] == all;
  }

  lemma {:induction false} UnitFaultsConcat(a: seq<string>, b: seq<string>, seen: seq<string>, index: nat)
    ensures UnitFaults(a + b, seen, index) == UnitFaults(a, seen, index) + UnitFaults(b, seen + a, index)
  {
    if b == [] {
      assert a + b == a;
    } else {
      var init := b[..|b| - 1];
      assert (a + b)[..|a + b| - 1] == a + init;
      assert seen + (a + init) == (seen + a) + init;
      UnitFaultsConcat(a, init, seen, index);
    }
  }

  method CheckSections(r: Revision, seen: set<string>, ghost ids: seq<string>, index: nat)
      returns (faults: seq<Diagnostic>, seen': set<string>)
    requires Tracks(seen, ids)
    ensures faults == UnitFaults(UnitIdsOf(r), ids, index)
    ensures Tracks(seen', ids + UnitIdsOf(r))
  {
    var sections := r.card.sections;
    faults, seen' := [], seen;
    for k := 0 to |sections|
      invariant faults == UnitFaults(SectionUnitIds(sections, k), ids, index)
      invariant Tracks(seen', ids + SectionUnitIds(sections, k))
    {
      ghost var before, next := SectionUnitIds(sections, k), UnitIds(sections[k].units);
      var found;
      found, seen' := CheckUnits(sections[k].units, seen', ids + before, index);
      UnitFaultsConcat(before, next, ids, index);
      assert ids + (before + next) == (ids + before) + next;
      faults := faults + found;
    }
  }

  method CheckHeader(revisions: seq<Revision>, i: nat, seen: set<string>, digest: RevisionDigest)
      returns (faults: seq<Diagnostic>)
    requires i < |revisions|
    requires revisions[i].revisionId in seen <==> RepeatsRevision(revisions, i)
    ensures faults == HeaderFaults(revisions, i, digest)
  {
    faults := if revisions[i].revisionId in seen then [Diagnostic(i, DuplicateRevision)] else [];
    if i == 0 {
      if revisions[0].predecessor.Some? {
        faults := faults + [Diagnostic(0, UnexpectedPredecessor)];
      }
    } else {
      var expected := RevisionLink(revisions[i - 1].revisionId, digest(revisions[i - 1]));
      if revisions[i].predecessor != Some(expected) {
        faults := faults + [Diagnostic(i, PredecessorMismatch)];
      }
    }
  }

  method CheckContent(r: Revision, seen: set<string>, ghost ids: seq<string>, paperId: string, i: nat)
      returns (faults: seq<Diagnostic>, seen': set<string>)
    requires Tracks(seen, ids)
    ensures faults == ContentFaults(r, ids, paperId, i)
    ensures Tracks(seen', ids + IdsOf(r))
  {
    ghost var childIds := ChildIds(ChildrenOf(r), |ChildrenOf(r)|);
    var found, afterChildren := CheckChildren(r, seen, ids, paperId, i);
    faults, seen' := CheckSections(r, afterChildren, ids + childIds, i);
    assert ids + IdsOf(r) == (ids + childIds) + UnitIdsOf(r);
    faults := found + faults;
  }

  function RevisionIdsBefore(revisions: seq<Revision>, n: nat): set<string>
    requires n <= |revisions|
  {
    if n == 0 then {} else RevisionIdsBefore(revisions, n - 1) + {revisions[n - 1].revisionId}
  }

  lemma {:induction false} RevisionIdsBeforeContents(revisions: seq<Revision>, n: nat)
    requires n <= |revisions|
    ensures forall x :: x in RevisionIdsBefore(revisions, n) <==> exists j :: 0 <= j < n && revisions[j].revisionId == x
  {
    if n > 0 {
      RevisionIdsBeforeContents(revisions, n - 1);
    }
  }

  datatype Seen = Seen(revisions: set<string>, ids: set<string>)

  /** What has been seen once the first `i` revisions are checked. */
  ghost predicate SeenUpTo(seen: Seen, b: Bundle, i: nat)
    requires i <= |b.revisions|
  {
    seen.revisions == RevisionIdsBefore(b.revisions, i) && Tracks(seen.ids, IdsBefore(b.revisions, i))
  }

  method CheckRevision(b: Bundle, i: nat, seen: Seen, digest: RevisionDigest)
      returns (faults: seq<Diagnostic>, seen': Seen)
    requires i < |b.revisions| && SeenUpTo(seen, b, i)
    ensures faults == RevisionFaults(b, i, digest)
    ensures SeenUpTo(seen', b, i + 1)
  {
    RevisionIdsBeforeContents(b.revisions, i);
    var header := CheckHeader(b.revisions, i, seen.revisions, digest);
    var content, ids := CheckContent(b.revisions[i], seen.ids, IdsBefore(b.revisions, i), b.paperId, i);
    faults, seen' := header + content, Seen(seen.revisions + {b.revisions[i].revisionId}, ids);
  }

  method CheckRevisions(b: Bundle, digest: RevisionDigest) returns (faults: seq<Diagnostic>)
    ensures faults == Flatten(RevisionReports(b, digest), |b.revisions|)
  {
    var seen := Seen({}, {});
    faults := [];
    ghost var reports := RevisionReports(b, digest);
    for i := 0 to |b.revisions|
      invariant SeenUpTo(seen, b, i)
      invariant faults == Flatten(reports, i)
    {
      var found;
      found, seen := CheckRevision(b, i, seen, digest);
      assert reports[i] == found;
      faults := faults + found;
    }
  }

  /** Silent exactly when the bundle is one linked log of this paper with fresh identifiers. */
  method PrimaryBundleDiagnostics(b: Bundle, digest: RevisionDigest) returns (diagnostics: seq<Diagnostic>)
    ensures diagnostics == BundleFaults(b, digest)
    ensures diagnostics == [] <==> Accepted(b, digest)
  {
    BundleFaultsEmpty(b, digest);
    if !Numbered(b.revisions) {
      return [Diagnostic(0, NotContiguous)];
    }
    var revisions := CheckRevisions(b, digest);
    diagnostics := ActiveFaults(b) + revisions;
  }

  // ----- Expansion and mixed authority -----

  method AdoptChildren(entries: seq<Entry>, existing: set<Identity>, children: seq<Entry>)
      returns (result: seq<Entry>, existing': set<Identity>)
    requires forall e :: e in children ==> IsChild(e)
    requires existing == Identities(entries)
    ensures result == Adopt(entries, children, |children|)
    ensures existing' == Identities(result)
  {
    result, existing' := entries, existing;
    for k := 0 to |children|
      invariant result == Adopt(entries, children, k)
      invariant existing' == Identities(result)
    {
      assert children[k] in children;
      var identity := ChildIdentity(children[k]).value;
      if identity !in existing' {
        IdentitiesAdd(result, children[k]);
        result := result + [children[k]];
        existing' := existing' + {identity};
      }
    }
  }

  method ExpandActivePrimaryEntries(entries: seq<Entry>) returns (result: seq<Entry>)
    ensures result == Expanded(entries)
  {
    result := entries;
    var existing := Identities(entries);
    for k := 0 to |entries|
      invariant result == ExpandFrom(entries, k)
      invariant existing == Identities(result)
    {
      if entries[k].BundleEntry? {
        EntriesAreChildren(entries[k].bundle);
        result, existing := AdoptChildren(result, existing, ActiveEntries(entries[k].bundle));
      }
    }
  }

  /** The paper a card, evidence or queue record belongs to. */
  function ChildPaper(e: Entry): Option<string> {
    match e
    case CardEntry(card) => Some(card.paperId)
    case EvidenceEntry(evidence) => Some(evidence.paperId)
    case QueueEntry(item) => Some(item.paperId)
    case _ => None
  }

  function BundledPapers(entries: seq<Entry>): set<string> {
    set e | e in entries && e.BundleEntry? :: e.bundle.paperId
  }

  /** No paper has both a bundle and standalone Primary records. */
  ghost predicate SingleAuthority(entries: seq<Entry>) {
    forall e, b :: e in entries && BundleEntry(b) in entries ==> ChildPaper(e) != Some(b.paperId)
  }

  function MixedEntries(entries: seq<Entry>): seq<Entry> {
    Filter(entries, (e: Entry) => ChildPaper(e).Some? && ChildPaper(e).value in BundledPapers(entries))
  }

  lemma MixedEntriesEmpty(entries: seq<Entry>)
    ensures MixedEntries(entries) == [] <==> SingleAuthority(entries)
  {
    var bundled := BundledPapers(entries);
    var keep := (e: Entry) => ChildPaper(e).Some? && ChildPaper(e).value in BundledPapers(entries);
    FilterContents(entries, keep);
    if MixedEntries(entries) == [] {
      forall e, b | e in entries && BundleEntry(b) in entries ensures ChildPaper(e) != Some(b.paperId) {
        assert b.paperId in bundled;
        assert e !in MixedEntries(entries);
      }
    } else {
      var e := MixedEntries(entries)[0];
      assert e in MixedEntries(entries);
      var x :| x in entries && x.BundleEntry? && x.bundle.paperId == ChildPaper(e).value;
      assert BundleEntry(x.bundle) in entries;
    }
  }

  /** Reports every standalone record of a bundled paper; silent exactly under single authority. */
  method MixedPrimaryAuthorityDiagnostics(entries: seq<Entry>) returns (mixed: seq<Entry>)
    ensures mixed == MixedEntries(entries)
    ensures mixed == [] <==> SingleAuthority(entries)
  {
    var bundled := BundledPapers(entries);
    ghost var keep := (e: Entry) => ChildPaper(e).Some? && ChildPaper(e).value in BundledPapers(entries);
    mixed := [];
    for k := 0 to |entries|
      invariant mixed == Filter(entries[..k], keep)
    {
      assert entries[..k + 1][..k] == entries[..k];
      if ChildPaper(entries[k]).Some? && ChildPaper(entries[k]).value in bundled {
        mixed := mixed + [entries[k]];
      }
    }
    assert entries[..|entries|] == entries;
    MixedEntriesEmpty(entries);
  }
}
