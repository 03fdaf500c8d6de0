/**
 Primary bundles: one paper's revisions as a digest-linked log, whose last revision is the active
 one.
 */
module PrimaryBundles {
  import opened Wrappers
  import opened Records
  import opened Concatenation
  import opened Selection

  // ----- Identifiers used inside a bundle -----

  function SectionUnitIds(sections: seq<Section>, n: nat): seq<string>
    requires n <= |sections|
  {
    if n == 0 then [] else SectionUnitIds(sections, n - 1) + UnitIds(sections[n - 1].units)
  }

  function UnitIds(units: seq<Unit>): seq<string> {
    seq(|units|, i requires 0 <= i < |units| => units[i].id)
  }

  /** A child of a revision, in the order card, evidence, review queue. */
  datatype Child = Child(paperId: string, id: Option<string>)

  function ChildrenOf(r: Revision): seq<Child> {
    [Child(r.card.paperId, None)] +
    seq(|r.evidence|, i requires 0 <= i < |r.evidence| => Child(r.evidence[i].paperId, Some(r.evidence[i].id))) +
    seq(|r.queue|, i requires 0 <= i < |r.queue| => Child(r.queue[i].paperId, Some(r.queue[i].id)))
  }

  /** The identifiers a revision introduces: its evidence, its queue items, then its card units. */
  function ChildIds(children: seq<Child>, n: nat): seq<string>
    requires n <= |children|
  {
    if n == 0 then []
    else ChildIds(children, n - 1) + if children[n - 1].id.Some? then [children[n - 1].id.value] else []
  }

  function UnitIdsOf(r: Revision): seq<string> { SectionUnitIds(r.card.sections, |r.card.sections|) }

  function IdsOf(r: Revision): seq<string> {
    ChildIds(ChildrenOf(r), |ChildrenOf(r)|) + UnitIdsOf(r)
  }

  function IdParts(revisions: seq<Revision>): seq<seq<string>> {
    seq(|revisions|, i requires 0 <= i < |revisions| => IdsOf(revisions[i]))
  }

  function IdsBefore(revisions: seq<Revision>, n: nat): seq<string>
    requires n <= |revisions|
  {
    Flatten(IdParts(revisions), n)
  }

  ghost predicate NoRepeats(ids: seq<string>) {
    forall i, j :: 0 <= i < j < |ids| ==> ids[i] != ids[j]
  }

  // ----- Acceptance -----

  type RevisionDigest = Revision -> string

  predicate Numbered(revisions: seq<Revision>) {
    forall i :: 0 <= i < |revisions| ==> revisions[i].number == i + 1
  }

  predicate LinkOk(revisions: seq<Revision>, i: nat, digest: RevisionDigest)
    requires i < |revisions|
  {
    if i == 0 then revisions[0].predecessor.None?
    else revisions[i].predecessor == Some(RevisionLink(revisions[i - 1].revisionId, digest(revisions[i - 1])))
  }

  function RevisionIdOf(r: Revision): string { r.revisionId }

  predicate ChildrenBelong(r: Revision, paperId: string) {
    && r.card.paperId == paperId
    && (forall e :: e in r.evidence ==> e.paperId == paperId)
    && (forall q :: q in r.queue ==> q.paperId == paperId)
  }

  ghost predicate Accepted(b: Bundle, digest: RevisionDigest) {
    && Numbered(b.revisions)
    && (b.revisions != [] ==> b.activeId == b.revisions[|b.revisions| - 1].revisionId)
    && DistinctBy(b.revisions, RevisionIdOf)
    && (forall i {:trigger LinkOk(b.revisions, i, digest)} :: 0 <= i < |b.revisions| ==> LinkOk(b.revisions, i, digest))
    && (forall r :: r in b.revisions ==> ChildrenBelong(r, b.paperId))
    && NoRepeats(IdsBefore(b.revisions, |b.revisions|))
  }

  // ----- The head determines the history -----

  lemma {:induction false} LastDeterminesRevisions(a: seq<Revision>, b: seq<Revision>, digest: RevisionDigest)
    requires Injective(digest)
    requires a != [] && b != [] && a[|a| - 1] == b[|b| - 1]
    requires forall i :: 0 <= i < |a| ==> LinkOk(a, i, digest)
    requires forall i :: 0 <= i < |b| ==> LinkOk(b, i, digest)
    ensures a == b
  {
    assert LinkOk(a, |a| - 1, digest) && LinkOk(b, |b| - 1, digest);
    if |a| > 1 && |b| > 1 {
      var c, d := a[..|a| - 1], b[..|b| - 1];
      forall i | 0 <= i < |c| ensures LinkOk(c, i, digest) {
        assert LinkOk(a, i, digest);
      }
      forall i | 0 <= i < |d| ensures LinkOk(d, i, digest) {
        assert LinkOk(b, i, digest);
      }
      LastDeterminesRevisions(c, d, digest);
    }
    assert a == a[..|a| - 1] + [a[|a| - 1]] && b == b[..|b| - 1] + [b[|b| - 1]];
  }

  /** Two accepted bundles with the same last revision have the same revisions and the same active one. */
  lemma HeadDeterminesHistory(a: Bundle, b: Bundle, digest: RevisionDigest)
    requires Injective(digest)
    requires Accepted(a, digest) && Accepted(b, digest)
    requires a.revisions != [] && b.revisions != []
    requires a.revisions[|a.revisions| - 1] == b.revisions[|b.revisions| - 1]
    ensures a.revisions == b.revisions && a.activeId == b.activeId && a.paperId == b.paperId
  {
    LastDeterminesRevisions(a.revisions, b.revisions, digest);
    assert a.revisions[0] in a.revisions && a.revisions[0] in b.revisions;
    assert ChildrenBelong(a.revisions[0], a.paperId) && ChildrenBelong(a.revisions[0], b.paperId);
  }

  // ----- Prefixes -----

  lemma {:induction false} FlattenPrefix(parts: seq<seq<string>>, k: nat, n: nat)
    requires n <= k <= |parts|
    ensures Flatten(parts[..k], n) == Flatten(parts, n) <= Flatten(parts, k)
    decreases k, n
  {
    if n > 0 {
      FlattenPrefix(parts, k, n - 1);
    }
    if n < k {
      assert parts[..k][..k - 1] == parts[..k - 1];
      FlattenPrefix(parts, k - 1, n);
    }
  }

  function Rewound(b: Bundle, k: nat): Bundle
    requires 0 < k <= |b.revisions|
  {
    b.(revisions := b.revisions[..k], activeId := b.revisions[k - 1].revisionId)
  }

  lemma PrefixLinks(revisions: seq<Revision>, k: nat, i: nat, digest: RevisionDigest)
    requires i < k <= |revisions|
    ensures LinkOk(revisions[..k], i, digest) <==> LinkOk(revisions, i, digest)
  {
  }

  lemma PrefixIds(revisions: seq<Revision>, k: nat)
    requires k <= |revisions| && NoRepeats(IdsBefore(revisions, |revisions|))
    ensures NoRepeats(IdsBefore(revisions[..k], k))
  {
    assert IdParts(revisions[..k]) == IdParts(revisions)[..k];
    FlattenPrefix(IdParts(revisions), k, k);
    FlattenPrefix(IdParts(revisions), |revisions|, k);
  }

  /** Dropping the latest revisions and making the last remaining one active keeps acceptance. */
  lemma PrefixAccepted(b: Bundle, k: nat, digest: RevisionDigest)
    requires Accepted(b, digest) && 0 < k <= |b.revisions|
    ensures Accepted(Rewound(b, k), digest)
  {
    var kept := b.revisions[..k];
    PrefixIds(b.revisions, k);
    forall i | 0 <= i < k ensures LinkOk(kept, i, digest) {
      assert LinkOk(b.revisions, i, digest);
      PrefixLinks(b.revisions, k, i, digest);
    }
    forall r | r in kept ensures ChildrenBelong(r, b.paperId) {
      assert r in b.revisions;
    }
    assert DistinctBy(kept, RevisionIdOf);
  }

  /** Without resetting the active revision a proper prefix is refused. */
  lemma PrefixNeedsReset(b: Bundle, k: nat, digest: RevisionDigest)
    requires Accepted(b, digest) && 0 < k < |b.revisions|
    ensures !Accepted(b.(revisions := b.revisions[..k]), digest)
  {
    var kept := b.revisions[..k];
    assert kept[k - 1] == b.revisions[k - 1];
    assert RevisionIdOf(b.revisions[k - 1]) != RevisionIdOf(b.revisions[|b.revisions| - 1]);
  }

  // ----- The active revision -----

  /** The first revision that carries the active id. */
  function ActiveRevision(revisions: seq<Revision>, activeId: string): (r: Option<Revision>)
    ensures r.Some? ==> r.value in revisions && r.value.revisionId == activeId
    ensures r.None? ==> forall x :: x in revisions ==> x.revisionId != activeId
  {
    if revisions == [] then None
    else if revisions[0].revisionId == activeId then Some(revisions[0])
    else ActiveRevision(revisions[1..], activeId)
  }

  function EntriesOf(r: Revision): seq<Entry> {
    [CardEntry(r.card)] +
    seq(|r.evidence|, i requires 0 <= i < |r.evidence| => EvidenceEntry(r.evidence[i])) +
    seq(|r.queue|, i requires 0 <= i < |r.queue| => QueueEntry(r.queue[i]))
  }

  function ActiveEntries(b: Bundle): seq<Entry> {
    var r := ActiveRevision(b.revisions, b.activeId);
    if r.None? then [] else EntriesOf(r.value)
  }

  /** The active revision of an accepted bundle is its last one. */
  lemma ActiveIsLast(b: Bundle, digest: RevisionDigest)
    requires Accepted(b, digest) && b.revisions != []
    ensures ActiveRevision(b.revisions, b.activeId) == Some(b.revisions[|b.revisions| - 1])
    ensures ActiveEntries(b) == EntriesOf(b.revisions[|b.revisions| - 1])
  {
    var last := b.revisions[|b.revisions| - 1];
    var r := ActiveRevision(b.revisions, b.activeId);
    assert last in b.revisions && last.revisionId == b.activeId;
    KeyIdentifiesElement(b.revisions, RevisionIdOf, r.value, last);
  }

  // ----- Expansion of a bundle of entries -----

  datatype Identity = Identity(kind: string, id: string)

  /** Kind and id of a card, evidence or review-queue record; nothing for other entries. */
  function ChildIdentity(e: Entry): Option<Identity> {
    match e
    case CardEntry(card) => Some(Identity("paper-card", card.paperId))
    case EvidenceEntry(evidence) => Some(Identity("evidence", evidence.id))
    case QueueEntry(item) => Some(Identity("review-queue", item.id))
    case _ => None
  }

  predicate IsChild(e: Entry) { ChildIdentity(e).Some? }

  function Identities(entries: seq<Entry>): set<Identity> {
    set e | e in entries && ChildIdentity(e).Some? :: ChildIdentity(e).value
  }

  /** Appends the children whose identity is not there yet. */
  function Adopt(entries: seq<Entry>, children: seq<Entry>, n: nat): seq<Entry>
    requires n <= |children| && forall e :: e in children ==> IsChild(e)
  {
    if n == 0 then entries
    else
      var before := Adopt(entries, children, n - 1);
      assert children[n - 1] in children;
      if ChildIdentity(children[n - 1]).value in Identities(before) then before else before + [children[n - 1]]
  }

  lemma EntriesAreChildren(b: Bundle)
    ensures forall e :: e in ActiveEntries(b) ==> IsChild(e)
  {
  }

  function AdoptFrom(entries: seq<Entry>, source: Entry): seq<Entry> {
    if source.BundleEntry? then
      EntriesAreChildren(source.bundle);
      Adopt(entries, ActiveEntries(source.bundle), |ActiveEntries(source.bundle)|)
    else entries
  }

  function ExpandFrom(entries: seq<Entry>, n: nat): seq<Entry>
    requires n <= |entries|
  {
    if n == 0 then entries else AdoptFrom(ExpandFrom(entries, n - 1), entries[n - 1])
  }

  /** The entries followed by the active children of their bundles that are not among them. */
  function Expanded(entries: seq<Entry>): seq<Entry> { ExpandFrom(entries, |entries|) }

  /** `result` extends `entries` by children with new, distinct identities. */
  ghost predicate Extends(result: seq<Entry>, entries: seq<Entry>) {
    && entries <= result
    && (forall k :: |entries| <= k < |result| ==> IsNew(result, k))
  }

  ghost predicate IsNew(result: seq<Entry>, k: nat)
    requires k < |result|
  {
    IsChild(result[k]) && ChildIdentity(result[k]).value !in Identities(result[..k])
  }

  lemma {:induction false} AdoptExtends(entries: seq<Entry>, base: seq<Entry>, children: seq<Entry>, n: nat)
    requires n <= |children| && (forall e :: e in children ==> IsChild(e)) && Extends(base, entries)
    ensures Extends(Adopt(base, children, n), entries)
  {
    if n > 0 {
      AdoptExtends(entries, base, children, n - 1);
      var before := Adopt(base, children, n - 1);
      var after := Adopt(base, children, n);
      forall k | |entries| <= k < |after| ensures IsNew(after, k) {
        if k < |before| {
          assert IsNew(before, k) && before[..k] == after[..k];
        } else {
          assert after[..k] == before;
        }
      }
    }
  }

  lemma {:induction false} AdoptCovers(base: seq<Entry>, children: seq<Entry>, n: nat)
    requires n <= |children| && forall e :: e in children ==> IsChild(e)
    ensures Identities(Adopt(base, children, n)) == Identities(base) + Identities(children[..n])
    ensures forall e :: e in Adopt(base, children, n) ==> e in base || e in children
  {
    if n > 0 {
      AdoptCovers(base, children, n - 1);
      assert children[..n] == children[..n - 1] + [children[n - 1]];
      assert children[n - 1] in children;
      IdentitiesAdd(Adopt(base, children, n - 1), children[n - 1]);
      IdentitiesAdd(children[..n - 1], children[n - 1]);
    }
  }

  lemma IdentitiesAdd(entries: seq<Entry>, e: Entry)
    requires IsChild(e)
    ensures Identities(entries + [e]) == Identities(entries) + {ChildIdentity(e).value}
  {
    forall i | i in Identities(entries) + {ChildIdentity(e).value} ensures i in Identities(entries + [e]) {
      assert e in entries + [e];
      if x :| x in entries && ChildIdentity(x) == Some(i) {
        assert x in entries + [e];
      }
    }
  }

  lemma {:induction false} ExpandExtends(entries: seq<Entry>, n: nat)
    requires n <= |entries|
    ensures Extends(ExpandFrom(entries, n), entries)
  {
    if n > 0 {
      ExpandExtends(entries, n - 1);
      if entries[n - 1].BundleEntry? {
        var children := ActiveEntries(entries[n - 1].bundle);
        EntriesAreChildren(entries[n - 1].bundle);
        AdoptExtends(entries, ExpandFrom(entries, n - 1), children, |children|);
      }
    }
  }

  lemma AdoptFromCovers(base: seq<Entry>, b: Bundle)
    ensures Identities(AdoptFrom(base, BundleEntry(b))) == Identities(base) + Identities(ActiveEntries(b))
    ensures forall e :: e in AdoptFrom(base, BundleEntry(b)) ==> e in base || e in ActiveEntries(b)
  {
    EntriesAreChildren(b);
    AdoptCovers(base, ActiveEntries(b), |ActiveEntries(b)|);
    assert ActiveEntries(b)[..|ActiveEntries(b)|] == ActiveEntries(b);
  }

  ghost predicate Provided(entries: seq<Entry>, e: Entry) {
    exists b :: BundleEntry(b) in entries && e in ActiveEntries(b)
  }

  ghost predicate Offers(expanded: seq<Entry>, b: Bundle) { Identities(ActiveEntries(b)) <= Identities(expanded) }

  /** What expanding the first `n` entries has come to. */
  ghost predicate Covered(entries: seq<Entry>, n: nat, expanded: seq<Entry>)
    requires n <= |entries|
  {
    && (forall k :: 0 <= k < n && entries[k].BundleEntry? ==> Offers(expanded, entries[k].bundle))
    && (forall e :: e in expanded ==> e in entries || Provided(entries, e))
  }

  lemma NothingCovered(entries: seq<Entry>)
    ensures Covered(entries, 0, entries)
  {
  }

  lemma CoversOther(entries: seq<Entry>, n: nat, expanded: seq<Entry>)
    requires n < |entries| && !entries[n].BundleEntry? && Covered(entries, n, expanded)
    ensures Covered(entries, n + 1, expanded)
  {
  }

  lemma CoversMore(entries: seq<Entry>, n: nat, before: seq<Entry>, b: Bundle)
    requires n < |entries| && entries[n] == BundleEntry(b) && Covered(entries, n, before)
    ensures Covered(entries, n + 1, AdoptFrom(before, BundleEntry(b)))
  {
    var after := AdoptFrom(before, BundleEntry(b));
    AdoptFromCovers(before, b);
    forall k | 0 <= k < n + 1 && entries[k].BundleEntry? ensures Offers(after, entries[k].bundle) {
      assert k < n ==> Offers(before, entries[k].bundle);
    }
    forall e | e in after ensures e in entries || Provided(entries, e) {
      assert entries[n] in entries;
    }
  }

  lemma {:induction false} ExpandCovers(entries: seq<Entry>, n: nat)
    requires n <= |entries|
    ensures Covered(entries, n, ExpandFrom(entries, n))
  {
    if n == 0 {
      NothingCovered(entries);
    } else {
      ExpandCovers(entries, n - 1);
      if entries[n - 1].BundleEntry? {
        CoversMore(entries, n - 1, ExpandFrom(entries, n - 1), entries[n - 1].bundle);
      } else {
        CoversOther(entries, n - 1, ExpandFrom(entries, n - 1));
      }
    }
  }

  /**
   What expansion yields: the entries themselves, then only active children of their bundles,
   every active child's identity present, and no identity appended twice.
   */
  lemma ExpandedMeaning(entries: seq<Entry>)
    ensures Extends(Expanded(entries), entries)
    ensures forall b :: BundleEntry(b) in entries ==> Identities(ActiveEntries(b)) <= Identities(Expanded(entries))
    ensures forall e :: e in Expanded(entries) ==> e in entries || Provided(entries, e)
  {
    ExpandExtends(entries, |entries|);
    ExpandCovers(entries, |entries|);
    forall b | BundleEntry(b) in entries ensures Offers(Expanded(entries), b) {
      var k :| 0 <= k < |entries| && entries[k] == BundleEntry(b);
    }
  }

  lemma {:induction false} NothingToAdopt(base: seq<Entry>, children: seq<Entry>, n: nat)
    requires n <= |children| && forall e :: e in children ==> IsChild(e)
    requires Identities(children) <= Identities(base)
    ensures Adopt(base, children, n) == base
  {
    if n > 0 {
      NothingToAdopt(base, children, n - 1);
      assert children[n - 1] in children;
      assert ChildIdentity(children[n - 1]).value in Identities(children);
    }
  }

  lemma {:induction false} NothingToExpand(entries: seq<Entry>, n: nat)
    requires n <= |entries|
    requires forall b :: BundleEntry(b) in entries ==> Identities(ActiveEntries(b)) <= Identities(entries)
    ensures ExpandFrom(entries, n) == entries
  {
    if n > 0 {
      NothingToExpand(entries, n - 1);
      if entries[n - 1].BundleEntry? {
        var b := entries[n - 1].bundle;
        assert BundleEntry(b) in entries;
        EntriesAreChildren(b);
        NothingToAdopt(entries, ActiveEntries(b), |ActiveEntries(b)|);
      }
    }
  }

  /** Expanding twice adds nothing. */
  lemma ExpansionIsIdempotent(entries: seq<Entry>)
    ensures Expanded(Expanded(entries)) == Expanded(entries)
  {
    ExpandedMeaning(entries);
    var expanded := Expanded(entries);
    forall b | BundleEntry(b) in expanded ensures Identities(ActiveEntries(b)) <= Identities(expanded) {
      assert !IsChild(BundleEntry(b));
      if BundleEntry(b) !in entries {
        assert Provided(entries, BundleEntry(b));
        var c :| BundleEntry(c) in entries && BundleEntry(b) in ActiveEntries(c);
        EntriesAreChildren(c);
      }
    }
    NothingToExpand(expanded, |expanded|);
  }
}
