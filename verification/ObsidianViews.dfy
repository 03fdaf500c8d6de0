/**
 Paper views and the Papers index: the records a view reads, the dependencies it declares, and why
 equal declarations mean equal views.
 */
module ObsidianViews {
  import opened Wrappers
  import opened Records
  import opened Deduplication
  import opened Selection
  import opened PrimaryBundles
  import opened PrimaryBundleDiagnostics
  import Listing
  import Sorting
  import StringOrder

  // ----- Keys and dependencies -----

  datatype Kind =
    | ProfileKind | ProfileVersionKind | PaperKind | CardKind | UnitKind | EvidenceKind | QueueKind
    | BundleKind | TagKind | TagLinkKind | OtherKind(name: string)

  datatype Key = Key(kind: Kind, id: string)

  datatype Dependency = Dependency(kind: Kind, id: string, digest: string, revision: Option<string>)

  datatype Digests = Digests(
    entry: Entry -> string,
    unit: Unit -> string,
    version: string -> string,
    watermark: (string, seq<Dependency>, seq<string>) -> string)

  /** Among records of one kind the digest identifies the record. */
  ghost predicate RecordInjective(digests: Digests) {
    forall a: Entry, b: Entry ::
      KeyOf(a).kind == KeyOf(b).kind && digests.entry(a) == digests.entry(b) ==> a == b
  }

  function KeyOf(e: Entry): Key {
    match e
    case ProfileEntry(profile) => Key(ProfileKind, profile.id)
    case PaperEntry(paper) => Key(PaperKind, paper.paperId)
    case CardEntry(card) => Key(CardKind, card.paperId)
    case EvidenceEntry(evidence) => Key(EvidenceKind, evidence.id)
    case QueueEntry(item) => Key(QueueKind, item.id)
    case BundleEntry(bundle) => Key(BundleKind, bundle.paperId)
    case TagEntry(tag) => Key(TagKind, tag.tagId)
    case TagLinkEntry(link) => Key(TagLinkKind, link.linkId)
    case OtherEntry(kind, id, _) => Key(OtherKind(kind), id)
  }

  function RevisionOf(e: Entry): Option<string> {
    match e
    case BundleEntry(bundle) => Some(bundle.activeId)
    case TagEntry(tag) => Some(tag.activeId)
    case TagLinkEntry(link) => Some(link.activeId)
    case _ => None
  }

  type Index = map<Key, Dependency>

  // ----- The dependency index -----

  function UnitsOf(card: Card, n: nat): seq<Unit>
    requires n <= |card.sections|
  {
    if n == 0 then [] else UnitsOf(card, n - 1) + card.sections[n - 1].units
  }

  function WithUnits(m: Index, units: seq<Unit>, n: nat, revision: Option<string>, digests: Digests): Index
    requires n <= |units|
  {
    if n == 0 then m
    else
      var before := WithUnits(m, units, n - 1, revision, digests);
      var u := units[n - 1];
      if u.id == "" then before else before[Key(UnitKind, u.id) := Dependency(UnitKind, u.id, digests.unit(u), revision)]
  }

  function WithCardUnits(m: Index, card: Card, revision: Option<string>, digests: Digests): Index {
    var units := UnitsOf(card, |card.sections|);
    WithUnits(m, units, |units|, revision, digests)
  }

  /** One record indexed under its kind and id; records without an id are not indexed. */
  function WithRecord(m: Index, e: Entry, revision: Option<string>, digests: Digests): Index {
    var key := KeyOf(e);
    if key.id == "" then m else m[key := Dependency(key.kind, key.id, digests.entry(e), revision)]
  }

  /** A standalone entry, unless its paper is under a Primary bundle. */
  function WithEntry(m: Index, e: Entry, bundled: set<string>, digests: Digests): Index {
    if (ChildPaper(e).Some? && ChildPaper(e).value in bundled) || KeyOf(e).id == "" then m
    else
      var indexed := WithRecord(m, e, RevisionOf(e), digests);
      match e
      case ProfileEntry(profile) =>
        indexed[Key(ProfileVersionKind, profile.id) :=
          Dependency(ProfileVersionKind, profile.id, digests.version(profile.version), None)]
      case CardEntry(card) => WithCardUnits(indexed, card, None, digests)
      case _ => indexed
  }

  function WithChild(m: Index, child: Entry, activeId: string, digests: Digests): Index {
    var indexed := WithRecord(m, child, Some(activeId), digests);
    if child.CardEntry? then WithCardUnits(indexed, child.card, Some(activeId), digests) else indexed
  }

  function WithChildren(m: Index, children: seq<Entry>, n: nat, activeId: string, digests: Digests): Index
    requires n <= |children|
  {
    if n == 0 then m else WithChild(WithChildren(m, children, n - 1, activeId, digests), children[n - 1], activeId, digests)
  }

  function WithBundle(m: Index, e: Entry, digests: Digests): Index {
    if e.BundleEntry? then
      var children := ActiveEntries(e.bundle);
      WithChildren(m, children, |children|, e.bundle.activeId, digests)
    else m
  }

  function EntryPass(w: seq<Entry>, n: nat, bundled: set<string>, digests: Digests): Index
    requires n <= |w|
  {
    if n == 0 then map[] else WithEntry(EntryPass(w, n - 1, bundled, digests), w[n - 1], bundled, digests)
  }

  function BundlePass(m: Index, w: seq<Entry>, n: nat, digests: Digests): Index
    requires n <= |w|
  {
    if n == 0 then m else WithBundle(BundlePass(m, w, n - 1, digests), w[n - 1], digests)
  }

  function IndexOf(w: seq<Entry>, digests: Digests): Index {
    BundlePass(EntryPass(w, |w|, BundledPapers(w), digests), w, |w|, digests)
  }

  // ----- Tags -----

  /** The tag revision that is active, when exactly one revision carries the active id. */
  function ActiveTag(tag: TagBundle): Option<TagRevision> {
    var matches := Filter(tag.revisions, (r: TagRevision) => r.revisionId == tag.activeId);
    if |matches| == 1 then Some(matches[0]) else None
  }

  predicate Assigned(link: TagLinkBundle) {
    var matches := Filter(link.revisions, (r: LinkRevision) => r.revisionId == link.activeId);
    |matches| == 1 && matches[0].isAssigned
  }

  /** The active revision of the last tag bundle with this id that has one. */
  function TagOf(w: seq<Entry>, tagId: string): Option<TagRevision> {
    if w == [] then None
    else
      var last := w[|w| - 1];
      if last.TagEntry? && last.tag.tagId == tagId && ActiveTag(last.tag).Some? then ActiveTag(last.tag)
      else TagOf(w[..|w| - 1], tagId)
  }

  datatype Target = Target(kind: string, id: string)

  function TargetOf(link: TagLinkBundle): Target { Target(link.targetKind, link.targetId) }

  /** The link puts an active tag on its target. */
  predicate Tags(w: seq<Entry>, e: Entry) {
    && e.TagLinkEntry? && Assigned(e.link)
    && TagOf(w, e.link.tagId).Some? && TagOf(w, e.link.tagId).value.active
  }

  predicate TagsTarget(w: seq<Entry>, e: Entry, target: Target) {
    Tags(w, e) && TargetOf(e.link) == target
  }

  function TagName(w: seq<Entry>, e: Entry): string
    requires Tags(w, e)
  {
    TagOf(w, e.link.tagId).value.name
  }

  function TagNames(w: seq<Entry>, target: Target): set<string> {
    set e | e in w && TagsTarget(w, e, target) :: TagName(w, e)
  }

  /** The tag and the link behind every tag of a target, link by link. */
  function TagKeys(w: seq<Entry>, target: Target, n: nat): seq<Key>
    requires n <= |w|
  {
    if n == 0 then []
    else TagKeys(w, target, n - 1) + if TagsTarget(w, w[n - 1], target) then LinkKeys(w[n - 1].link) else []
  }

  function LinkKeys(link: TagLinkBundle): seq<Key> {
    [Key(TagKind, link.tagId), Key(TagLinkKind, link.linkId)]
  }

  // ----- What a paper view reads and declares -----

  function ActiveChildren(w: seq<Entry>, n: nat): seq<Entry>
    requires n <= |w|
  {
    if n == 0 then [] else ActiveChildren(w, n - 1) + ActivePart(w[n - 1])
  }

  function ActivePart(e: Entry): seq<Entry> {
    if e.BundleEntry? then ActiveEntries(e.bundle) else []
  }

  /** The standalone entries, then the active children of every bundle. */
  function Materialised(w: seq<Entry>): seq<Entry> { w + ActiveChildren(w, |w|) }

  function ProfileOf(w: seq<Entry>): Option<Profile> {
    if w == [] then None else if w[0].ProfileEntry? then Some(w[0].profile) else ProfileOf(w[1..])
  }

  function PaperOf(w: seq<Entry>, paperId: string): Option<Paper> {
    if w == [] then None
    else
      var last := w[|w| - 1];
      if last.PaperEntry? && last.paper.paperId == paperId then Some(last.paper)
      else PaperOf(w[..|w| - 1], paperId)
  }

  function CardIn(records: seq<Entry>, paperId: string): Option<Card> {
    if records == [] then None
    else
      var last := records[|records| - 1];
      if last.CardEntry? && last.card.paperId == paperId then Some(last.card)
      else CardIn(records[..|records| - 1], paperId)
  }

  function CardOf(w: seq<Entry>, paperId: string): Option<Card> { CardIn(Materialised(w), paperId) }

  predicate IsEvidenceOf(e: Entry, paperId: string) { e.EvidenceEntry? && e.evidence.paperId == paperId }

  function EvidenceOf(w: seq<Entry>, paperId: string): seq<Entry> {
    Filter(Materialised(w), (e: Entry) => IsEvidenceOf(e, paperId))
  }

  predicate IdLeq(a: Entry, b: Entry) { StringOrder.Leq(KeyOf(a).id, KeyOf(b).id) }

  /** Everything the body of a paper view is rendered from. */
  datatype Facts = Facts(profile: Profile, paper: Paper, card: Card, tags: seq<string>, evidence: seq<Entry>)

  /** Nothing when a record the view needs is missing. */
  ghost function FactsOf(w: seq<Entry>, paperId: string): Option<Facts> {
    if ProfileOf(w).None? || PaperOf(w, paperId).None? || CardOf(w, paperId).None? then None
    else Some(Facts(
      ProfileOf(w).value,
      PaperOf(w, paperId).value,
      CardOf(w, paperId).value,
      Listing.Sorted(TagNames(w, Target("paper", paperId))),
      Sorting.Sorted(EvidenceOf(w, paperId), IdLeq)))
  }

  function KeysOf(records: seq<Entry>): seq<Key> {
    seq(|records|, i requires 0 <= i < |records| => KeyOf(records[i]))
  }

  /** The bundle when there is one, else the card and the evidence. */
  function ContentKeys(w: seq<Entry>, paperId: string, index: Index): seq<Key> {
    if Key(BundleKind, paperId) in index then [Key(BundleKind, paperId)]
    else [Key(CardKind, paperId)] + KeysOf(EvidenceOf(w, paperId))
  }

  /** Keys in ascending order without repetitions. */
  function Normalised(keys: seq<Key>): seq<Key> { Sorting.Sorted(FirstOccurrences(keys), KeyLeq) }

  function PaperKeys(w: seq<Entry>, profileId: string, paperId: string, index: Index): seq<Key> {
    [Key(ProfileKind, profileId), Key(PaperKind, paperId)] + ContentKeys(w, paperId, index) +
    Normalised(TagKeys(w, Target("paper", paperId), |w|))
  }

  function Resolve(keys: seq<Key>, index: Index): seq<Dependency> {
    var found := Normalised(Filter(keys, (key: Key) => key in index));
    ResolvedKeys(keys, index);
    seq(|found|, i requires 0 <= i < |found| => assert found[i] in found; index[found[i]])
  }

  lemma ResolvedKeys(keys: seq<Key>, index: Index)
    ensures forall key :: key in Normalised(Filter(keys, (key: Key) => key in index)) <==> key in keys && key in index
  {
    FilterContents(keys, (key: Key) => key in index);
    NormalisedContents(Filter(keys, (key: Key) => key in index));
  }

  lemma NormalisedContents(keys: seq<Key>)
    ensures forall key :: key in Normalised(keys) <==> key in keys
  {
    FirstOccurrencesContents(keys);
    Sorting.SortedContents(FirstOccurrences(keys), KeyLeq);
  }

  predicate KeyLeq(a: Key, b: Key) {
    if KindName(a.kind) == KindName(b.kind) then StringOrder.Leq(a.id, b.id)
    else StringOrder.Leq(KindName(a.kind), KindName(b.kind))
  }

  function KindName(kind: Kind): string {
    match kind
    case ProfileKind => "domain-profile"
    case ProfileVersionKind => "domain-profile-version"
    case PaperKind => "registry-paper"
    case CardKind => "paper-card"
    case UnitKind => "paper-card-unit"
    case EvidenceKind => "evidence"
    case QueueKind => "review-queue"
    case BundleKind => "primary-semantic-bundle"
    case TagKind => "tag-bundle"
    case TagLinkKind => "tag-link-bundle"
    case OtherKind(name) => name
  }

  // ----- Well-formed workspaces -----

  /** Every record has its own kind and id, and every active child belongs to its bundle's paper. */
  ghost predicate WellFormed(w: seq<Entry>) {
    && DistinctBy(Materialised(w), KeyOf)
    && (forall e :: e in Materialised(w) ==> KeyOf(e).id != "")
    && (forall b, e :: BundleEntry(b) in w && e in ActiveEntries(b) ==> ChildPaper(e) == Some(b.paperId))
    && SingleAuthority(w)
  }

  // ----- The index and the records behind it -----

  predicate RecordKind(kind: Kind) { !kind.UnitKind? && !kind.ProfileVersionKind? }

  /** The dependency under `key` carries the digest of one of the given records. */
  ghost predicate Backed(records: set<Entry>, m: Index, key: Key, digests: Digests)
    requires key in m
  {
    && m[key].kind == key.kind && m[key].id == key.id
    && (RecordKind(key.kind) ==> HasRecord(records, key, m[key].digest, digests))
  }

  ghost predicate HasRecord(records: set<Entry>, key: Key, digest: string, digests: Digests) {
    exists e :: e in records && KeyOf(e) == key && digests.entry(e) == digest
  }

  ghost predicate AllBacked(records: set<Entry>, m: Index, digests: Digests) {
    forall key {:trigger m[key]} :: key in m ==> Backed(records, m, key, digests)
  }

  lemma {:induction false} UnitsKeepRecords(
      m: Index, units: seq<Unit>, n: nat, revision: Option<string>, records: set<Entry>, digests: Digests)
    requires n <= |units| && AllBacked(records, m, digests)
    ensures AllBacked(records, WithUnits(m, units, n, revision, digests), digests)
    ensures m.Keys <= WithUnits(m, units, n, revision, digests).Keys
  {
    if n > 0 {
      UnitsKeepRecords(m, units, n - 1, revision, records, digests);
    }
  }

  lemma RecordIndexed(m: Index, e: Entry, revision: Option<string>, records: set<Entry>, digests: Digests)
    requires AllBacked(records, m, digests) && e in records
    ensures AllBacked(records, WithRecord(m, e, revision, digests), digests)
    ensures m.Keys <= WithRecord(m, e, revision, digests).Keys
    ensures KeyOf(e).id != "" ==> KeyOf(e) in WithRecord(m, e, revision, digests)
  {
  }

  lemma EntryIndexed(m: Index, e: Entry, bundled: set<string>, records: set<Entry>, digests: Digests)
    requires AllBacked(records, m, digests) && e in records
    ensures AllBacked(records, WithEntry(m, e, bundled, digests), digests)
    ensures m.Keys <= WithEntry(m, e, bundled, digests).Keys
    ensures KeyOf(e).id != "" && (ChildPaper(e).Some? ==> ChildPaper(e).value !in bundled) ==>
      KeyOf(e) in WithEntry(m, e, bundled, digests)
  {
    RecordIndexed(m, e, RevisionOf(e), records, digests);
    if e.CardEntry? {
      var units := UnitsOf(e.card, |e.card.sections|);
      UnitsKeepRecords(WithRecord(m, e, RevisionOf(e), digests), units, |units|, None, records, digests);
    }
  }

  lemma ChildIndexed(m: Index, child: Entry, activeId: string, records: set<Entry>, digests: Digests)
    requires AllBacked(records, m, digests) && child in records
    ensures AllBacked(records, WithChild(m, child, activeId, digests), digests)
    ensures m.Keys <= WithChild(m, child, activeId, digests).Keys
    ensures KeyOf(child).id != "" ==> KeyOf(child) in WithChild(m, child, activeId, digests)
  {
    RecordIndexed(m, child, Some(activeId), records, digests);
    if child.CardEntry? {
      var units := UnitsOf(child.card, |child.card.sections|);
      UnitsKeepRecords(WithRecord(m, child, Some(activeId), digests), units, |units|, Some(activeId), records, digests);
    }
  }

  ghost predicate Present(m: Index, records: seq<Entry>) {
    forall e :: e in records && KeyOf(e).id != "" ==> KeyOf(e) in m
  }

  lemma {:induction false} ChildrenIndexed(
      m: Index, children: seq<Entry>, n: nat, activeId: string, records: set<Entry>, digests: Digests)
    requires n <= |children| && AllBacked(records, m, digests) && forall e :: e in children ==> e in records
    ensures AllBacked(records, WithChildren(m, children, n, activeId, digests), digests)
    ensures m.Keys <= WithChildren(m, children, n, activeId, digests).Keys
    ensures Present(WithChildren(m, children, n, activeId, digests), children[..n])
  {
    if n > 0 {
      ChildrenIndexed(m, children, n - 1, activeId, records, digests);
      assert children[n - 1] in children;
      ChildIndexed(WithChildren(m, children, n - 1, activeId, digests), children[n - 1], activeId, records, digests);
      assert children[..n] == children[..n - 1] + [children[n - 1]];
    }
  }

  lemma BundleIndexed(m: Index, e: Entry, records: set<Entry>, digests: Digests)
    requires AllBacked(records, m, digests)
    requires e.BundleEntry? ==> forall c :: c in ActiveEntries(e.bundle) ==> c in records
    ensures AllBacked(records, WithBundle(m, e, digests), digests)
    ensures m.Keys <= WithBundle(m, e, digests).Keys
    ensures e.BundleEntry? ==> Present(WithBundle(m, e, digests), ActiveEntries(e.bundle))
  {
    if e.BundleEntry? {
      var children := ActiveEntries(e.bundle);
      ChildrenIndexed(m, children, |children|, e.bundle.activeId, records, digests);
      assert children[..|children|] == children;
    }
  }

  /** Standalone entries that are not hidden by a bundle of their paper. */
  ghost predicate Visible(e: Entry, bundled: set<string>) {
    ChildPaper(e).Some? ==> ChildPaper(e).value !in bundled
  }

  lemma {:induction false} EntryPassIndexes(
      w: seq<Entry>, n: nat, bundled: set<string>, records: set<Entry>, digests: Digests)
    requires n <= |w| && forall e :: e in w ==> e in records && Visible(e, bundled)
    ensures AllBacked(records, EntryPass(w, n, bundled, digests), digests)
    ensures Present(EntryPass(w, n, bundled, digests), w[..n])
  {
    if n > 0 {
      EntryPassIndexes(w, n - 1, bundled, records, digests);
      assert w[n - 1] in w;
      EntryIndexed(EntryPass(w, n - 1, bundled, digests), w[n - 1], bundled, records, digests);
      assert w[..n] == w[..n - 1] + [w[n - 1]];
    }
  }

  lemma {:induction false} BundlePassIndexes(m: Index, w: seq<Entry>, n: nat, records: set<Entry>, digests: Digests)
    requires n <= |w| && AllBacked(records, m, digests)
    requires forall c :: c in ActiveChildren(w, n) ==> c in records
    ensures AllBacked(records, BundlePass(m, w, n, digests), digests)
    ensures m.Keys <= BundlePass(m, w, n, digests).Keys
    ensures Present(BundlePass(m, w, n, digests), ActiveChildren(w, n))
  {
    if n > 0 {
      BundlePassIndexes(m, w, n - 1, records, digests);
      BundleIndexed(BundlePass(m, w, n - 1, digests), w[n - 1], records, digests);
    }
  }

  ghost function RecordSet(w: seq<Entry>): set<Entry> { set e | e in Materialised(w) }

  lemma UnderSingleAuthority(w: seq<Entry>)
    requires SingleAuthority(w)
    ensures forall e :: e in w ==> Visible(e, BundledPapers(w))
  {
    forall e | e in w ensures Visible(e, BundledPapers(w)) {
      assert forall x :: x in w && x.BundleEntry? ==> x == BundleEntry(x.bundle);
    }
  }

  /** In a well-formed workspace the index holds exactly the digests of the materialised records. */
  lemma IndexMeaning(w: seq<Entry>, digests: Digests)
    requires WellFormed(w)
    ensures AllBacked(RecordSet(w), IndexOf(w, digests), digests)
    ensures forall e :: e in Materialised(w) ==>
      KeyOf(e) in IndexOf(w, digests) && IndexOf(w, digests)[KeyOf(e)].digest == digests.entry(e)
  {
    var records := RecordSet(w);
    var index := IndexOf(w, digests);
    UnderSingleAuthority(w);
    EntryPassIndexes(w, |w|, BundledPapers(w), records, digests);
    assert w[..|w|] == w;
    BundlePassIndexes(EntryPass(w, |w|, BundledPapers(w), digests), w, |w|, records, digests);
    forall e | e in Materialised(w) ensures KeyOf(e) in index && index[KeyOf(e)].digest == digests.entry(e) {
      assert e in w || e in ActiveChildren(w, |w|);
      assert KeyOf(e) in index;
      RecordBehind(records, index, e, digests);
      var x :| x in records && KeyOf(x) == KeyOf(e) && digests.entry(x) == index[KeyOf(e)].digest;
      KeyIdentifiesElement(Materialised(w), KeyOf, x, e);
    }
  }

  lemma RecordBehind(records: set<Entry>, m: Index, e: Entry, digests: Digests)
    requires AllBacked(records, m, digests) && KeyOf(e) in m
    ensures HasRecord(records, KeyOf(e), m[KeyOf(e)].digest, digests)
  {
    assert Backed(records, m, KeyOf(e), digests);
  }
}
