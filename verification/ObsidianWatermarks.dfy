/** Watermarks of paper views and of the Papers index as cache keys: equal watermarks, equal views. */
module ObsidianWatermarks {
  import opened Wrappers
  import opened Records
  import opened Concatenation
  import opened Selection
  import opened PrimaryBundles
  import opened PrimaryBundleDiagnostics
  import opened ObsidianViews
  import Sorting
  import StringOrder

  const RendererVersion := "1.0"

  /** How bodies and titles are written; only what they are written from is modelled. */
  datatype Renderer = Renderer(
    body: (string, Facts) -> string,
    title: Paper -> string,
    index: seq<(string, string)> -> string)

  datatype Draft = Draft(
    path: string,
    kind: string,
    id: string,
    dependencies: seq<Dependency>,
    body: string,
    options: seq<string>,
    title: Option<string>)

  function Watermark(d: Draft, digests: Digests): string {
    digests.watermark(RendererVersion, d.dependencies, d.options)
  }

  ghost predicate WatermarkInjective(digests: Digests) {
    forall a: seq<Dependency>, b: seq<Dependency>, s: seq<string>, t: seq<string> ::
      digests.watermark(RendererVersion, a, s) == digests.watermark(RendererVersion, b, t) ==> a == b && s == t
  }

  // ----- Paper views -----

  /** Nothing when the registry record, the card or the profile is missing. */
  ghost function PaperView(w: seq<Entry>, paperId: string, digests: Digests, renderer: Renderer): Option<Draft> {
    var facts := FactsOf(w, paperId);
    if facts.None? then None
    else Some(Draft(
      "Papers/" + paperId + ".md", "paper", paperId,
      PaperDependencies(w, facts.value.profile.id, paperId, digests),
      renderer.body(paperId, facts.value), [], Some(renderer.title(facts.value.paper))))
  }

  function PaperDependencies(w: seq<Entry>, profileId: string, paperId: string, digests: Digests): seq<Dependency> {
    var index := IndexOf(w, digests);
    Resolve(PaperKeys(w, profileId, paperId, index), index)
  }

  lemma ResolveContents(keys: seq<Key>, index: Index)
    ensures forall key :: key in keys && key in index ==> index[key] in Resolve(keys, index)
    ensures forall d :: d in Resolve(keys, index) ==> exists key :: key in keys && key in index && index[key] == d
  {
    ResolvedKeys(keys, index);
    var found := Normalised(Filter(keys, (key: Key) => key in index));
    forall key | key in keys && key in index ensures index[key] in Resolve(keys, index) {
      assert key in found;
      var i :| 0 <= i < |found| && found[i] == key;
      assert Resolve(keys, index)[i] == index[key];
    }
    forall d | d in Resolve(keys, index) ensures exists key :: key in keys && key in index && index[key] == d {
      var i :| 0 <= i < |found| && Resolve(keys, index)[i] == d;
      assert found[i] in found;
    }
  }

  // ----- Where records live -----

  function ActiveParts(w: seq<Entry>): seq<seq<Entry>> {
    seq(|w|, i requires 0 <= i < |w| => ActivePart(w[i]))
  }

  lemma {:induction false} ActiveChildrenFlatten(w: seq<Entry>, parts: seq<seq<Entry>>, n: nat)
    requires n <= |w| == |parts| && forall i :: 0 <= i < |w| ==> parts[i] == ActivePart(w[i])
    ensures ActiveChildren(w, n) == Flatten(parts, n)
  {
    if n > 0 {
      ActiveChildrenFlatten(w, parts, n - 1);
    }
  }

  lemma ActiveChildrenContents(w: seq<Entry>, e: Entry)
    ensures e in ActiveChildren(w, |w|) <==> exists k :: 0 <= k < |w| && e in ActivePart(w[k])
  {
    ActiveChildrenFlatten(w, ActiveParts(w), |w|);
    FlattenContents(ActiveParts(w), |w|, e);
  }

  lemma ActiveChildIsProvided(w: seq<Entry>, e: Entry)
    requires e in ActiveChildren(w, |w|)
    ensures Provided(w, e)
  {
    ActiveChildrenContents(w, e);
    var k :| 0 <= k < |w| && e in ActivePart(w[k]);
    assert BundleEntry(w[k].bundle) in w;
  }

  lemma ProvidedIsActiveChild(w: seq<Entry>, b: Bundle, e: Entry)
    requires BundleEntry(b) in w && e in ActiveEntries(b)
    ensures e in ActiveChildren(w, |w|)
  {
    ActiveChildrenContents(w, e);
    var k :| 0 <= k < |w| && w[k] == BundleEntry(b);
    assert e in ActivePart(w[k]);
  }

  /** A card or evidence record of a paper is standalone or an active child of that paper's bundle. */
  lemma WhereChildrenLive(w: seq<Entry>, e: Entry, paperId: string)
    requires WellFormed(w) && e in Materialised(w) && ChildPaper(e) == Some(paperId)
    ensures e in w || exists b :: BundleEntry(b) in w && b.paperId == paperId && e in ActiveEntries(b)
  {
    if e !in w {
      ActiveChildIsProvided(w, e);
    }
  }

  lemma ActiveEntriesHavePapers(b: Bundle)
    ensures forall e :: e in ActiveEntries(b) ==> ChildPaper(e).Some?
  {
  }

  lemma NonRecordOfPaper(w: seq<Entry>, e: Entry)
    requires e in Materialised(w) && ChildPaper(e).None?
    ensures e in w
  {
    if e !in w {
      ActiveChildIsProvided(w, e);
      var b :| BundleEntry(b) in w && e in ActiveEntries(b);
      ActiveEntriesHavePapers(b);
    }
  }

  lemma OnlyBundle(w: seq<Entry>, b: Bundle, c: Bundle)
    requires WellFormed(w) && BundleEntry(b) in w && BundleEntry(c) in w && b.paperId == c.paperId
    ensures b == c
  {
    KeyIdentifiesElement(Materialised(w), KeyOf, BundleEntry(b), BundleEntry(c));
  }

  lemma {:induction false} CardInMember(records: seq<Entry>, paperId: string)
    ensures CardIn(records, paperId).Some? ==>
      CardEntry(CardIn(records, paperId).value) in records && CardIn(records, paperId).value.paperId == paperId
    ensures CardIn(records, paperId).None? ==> forall c :: CardEntry(c) in records ==> c.paperId != paperId
  {
    if records != [] {
      CardInMember(records[..|records| - 1], paperId);
      assert records == records[..|records| - 1] + [records[|records| - 1]];
    }
  }

  lemma {:induction false} PaperOfMember(w: seq<Entry>, paperId: string)
    ensures PaperOf(w, paperId).Some? ==>
      PaperEntry(PaperOf(w, paperId).value) in w && PaperOf(w, paperId).value.paperId == paperId
    ensures PaperOf(w, paperId).None? ==> forall p :: PaperEntry(p) in w ==> p.paperId != paperId
  {
    if w != [] {
      PaperOfMember(w[..|w| - 1], paperId);
      assert w == w[..|w| - 1] + [w[|w| - 1]];
    }
  }

  lemma {:induction false} ProfileOfMember(w: seq<Entry>)
    requires ProfileOf(w).Some?
    ensures ProfileEntry(ProfileOf(w).value) in w
  {
    if !w[0].ProfileEntry? {
      ProfileOfMember(w[1..]);
    }
  }

  lemma {:induction false} TagOfMember(w: seq<Entry>, tagId: string)
    ensures TagOf(w, tagId).Some? ==> exists t :: TagEntry(t) in w && t.tagId == tagId && ActiveTag(t) == TagOf(w, tagId)
    ensures TagOf(w, tagId).None? ==> forall t :: TagEntry(t) in w && t.tagId == tagId ==> ActiveTag(t).None?
  {
    if w != [] {
      var last := w[|w| - 1];
      TagOfMember(w[..|w| - 1], tagId);
      assert w == w[..|w| - 1] + [last];
      assert last.TagEntry? ==> TagEntry(last.tag) in w;
    }
  }

  lemma SameTag(w: seq<Entry>, t: TagBundle, u: TagBundle)
    requires WellFormed(w) && TagEntry(t) in w && TagEntry(u) in w && t.tagId == u.tagId
    ensures t == u
  {
    KeyIdentifiesElement(Materialised(w), KeyOf, TagEntry(t), TagEntry(u));
  }

  ghost predicate TagsUnique(w: seq<Entry>) {
    forall t, u :: TagEntry(t) in w && TagEntry(u) in w && t.tagId == u.tagId ==> t == u
  }

  lemma UniqueTag(w: seq<Entry>, t: TagBundle)
    requires TagsUnique(w) && TagEntry(t) in w && ActiveTag(t).Some?
    ensures TagOf(w, t.tagId) == ActiveTag(t)
  {
    TagOfMember(w, t.tagId);
  }

  // ----- Dependencies shared by two workspaces -----

  /** A workspace, its records, its dependency index, and the keys a view asks for. */
  datatype Projection = Projection(w: seq<Entry>, records: set<Entry>, index: Index, keys: set<Key>)

  ghost predicate Faithful(p: Projection, digests: Digests) {
    && WellFormed(p.w) && ProfileOf(p.w).Some?
    && p.records == RecordSet(p.w)
    && AllBacked(p.records, p.index, digests)
    && (forall e :: e in p.records ==> KeyOf(e) in p.index && p.index[KeyOf(e)].digest == digests.entry(e))
  }

  ghost predicate Own(d: Dependency, index: Index) {
    Key(d.kind, d.id) in index && index[Key(d.kind, d.id)] == d
  }

  /** The shared dependencies are this workspace's own and include all it asks for; one profile is among them. */
  ghost predicate Shares(p: Projection, shared: set<Dependency>) {
    && (forall d :: d in shared ==> Own(d, p.index))
    && (forall key :: key in p.keys && key in p.index ==> p.index[key] in shared)
    && (forall d :: d in shared && d.kind.ProfileKind? ==> ProfileOf(p.w).Some? && d.id == ProfileOf(p.w).value.id)
  }

  predicate IsContentOf(e: Entry, paperId: string) {
    ChildPaper(e) == Some(paperId) && (e.CardEntry? || e.EvidenceEntry?)
  }

  /** The keys a paper view asks for. */
  ghost predicate Demands(p: Projection, paperId: string) {
    && ProfileOf(p.w).Some? && Key(ProfileKind, ProfileOf(p.w).value.id) in p.keys
    && Key(PaperKind, paperId) in p.keys
    && (Key(BundleKind, paperId) in p.index ==> Key(BundleKind, paperId) in p.keys)
    && (Key(BundleKind, paperId) !in p.index ==>
          forall e :: e in p.records && IsContentOf(e, paperId) ==> KeyOf(e) in p.keys)
    && (forall e :: e in p.w && TagsTarget(p.w, e, Target("paper", paperId)) ==>
          Key(TagKind, e.link.tagId) in p.keys && Key(TagLinkKind, e.link.linkId) in p.keys)
  }

  /** A record whose dependency is shared is a record of both workspaces. */
  lemma RecordTransfers(a: Projection, b: Projection, shared: set<Dependency>, e: Entry, digests: Digests)
    requires RecordInjective(digests) && Faithful(a, digests) && Faithful(b, digests)
    requires Shares(a, shared) && Shares(b, shared)
    requires e in a.records && KeyOf(e) in a.keys
    ensures e in b.records
    ensures ChildPaper(e).None? ==> e in b.w
  {
    var key := KeyOf(e);
    var d := a.index[key];
    assert Backed(a.records, a.index, key, digests);
    assert Own(d, b.index);
    RecordBehind(b.records, b.index, e, digests);
    var x :| x in b.records && KeyOf(x) == key && digests.entry(x) == d.digest;
    assert x == e;
    if ChildPaper(e).None? {
      NonRecordOfPaper(b.w, e);
    }
  }

  // ----- Cards and evidence -----

  lemma BundledContentTransfers(
      a: seq<Entry>, b: seq<Entry>, bundle: Bundle, paperId: string, e: Entry)
    requires WellFormed(a) && WellFormed(b)
    requires BundleEntry(bundle) in a && BundleEntry(bundle) in b && bundle.paperId == paperId
    requires e in Materialised(a) && ChildPaper(e) == Some(paperId)
    ensures e in Materialised(b)
  {
    WhereChildrenLive(a, e, paperId);
    var c :| BundleEntry(c) in a && c.paperId == paperId && e in ActiveEntries(c);
    OnlyBundle(a, bundle, c);
    ProvidedIsActiveChild(b, bundle, e);
  }

  lemma BundleBehind(p: Projection, paperId: string, digests: Digests) returns (bundle: Bundle)
    requires p.records == RecordSet(p.w) && AllBacked(p.records, p.index, digests)
    requires Key(BundleKind, paperId) in p.index
    ensures BundleEntry(bundle) in p.w && BundleEntry(bundle) in p.records && bundle.paperId == paperId
  {
    var key := Key(BundleKind, paperId);
    assert Backed(p.records, p.index, key, digests);
    var e :| e in p.records && KeyOf(e) == key;
    NonRecordOfPaper(p.w, e);
    bundle := e.bundle;
  }

  /** Cards and evidence of a paper whose dependencies are shared exist in both workspaces. */
  lemma ContentTransfers(
      a: Projection, b: Projection, shared: set<Dependency>, paperId: string, e: Entry, digests: Digests)
    requires RecordInjective(digests) && Faithful(a, digests) && Faithful(b, digests)
    requires Shares(a, shared) && Shares(b, shared) && Demands(a, paperId)
    requires e in a.records && IsContentOf(e, paperId)
    ensures e in b.records
  {
    if Key(BundleKind, paperId) in a.index {
      var bundle := BundleBehind(a, paperId, digests);
      RecordTransfers(a, b, shared, BundleEntry(bundle), digests);
      BundledContentTransfers(a.w, b.w, bundle, paperId, e);
    } else {
      RecordTransfers(a, b, shared, e, digests);
    }
  }

  lemma CardTransfers(a: Projection, b: Projection, shared: set<Dependency>, paperId: string, digests: Digests)
    requires RecordInjective(digests) && Faithful(a, digests) && Faithful(b, digests)
    requires Shares(a, shared) && Shares(b, shared) && Demands(a, paperId)
    requires CardOf(a.w, paperId).Some?
    ensures CardOf(b.w, paperId) == CardOf(a.w, paperId)
  {
    CardInMember(Materialised(a.w), paperId);
    CardInMember(Materialised(b.w), paperId);
    var card := CardOf(a.w, paperId).value;
    ContentTransfers(a, b, shared, paperId, CardEntry(card), digests);
    KeyIdentifiesElement(Materialised(b.w), KeyOf, CardEntry(card), CardEntry(CardOf(b.w, paperId).value));
  }

  lemma EvidenceContents(w: seq<Entry>, paperId: string)
    ensures forall e :: e in EvidenceOf(w, paperId) <==> e in Materialised(w) && IsEvidenceOf(e, paperId)
  {
    FilterContents(Materialised(w), (e: Entry) => IsEvidenceOf(e, paperId));
  }

  lemma IdOrder()
    ensures Sorting.TotalPreorder(IdLeq)
  {
    forall x, y ensures IdLeq(x, y) || IdLeq(y, x) {
      StringOrder.LeqTotal(KeyOf(x).id, KeyOf(y).id);
    }
    forall x, y, z | IdLeq(x, y) && IdLeq(y, z) ensures IdLeq(x, z) {
      StringOrder.LeqTransitive(KeyOf(x).id, KeyOf(y).id, KeyOf(z).id);
    }
  }

  lemma EvidenceAgrees(a: seq<Entry>, b: seq<Entry>, paperId: string)
    requires WellFormed(a) && WellFormed(b)
    requires forall e :: e in EvidenceOf(a, paperId) <==> e in EvidenceOf(b, paperId)
    ensures Sorting.Sorted(EvidenceOf(a, paperId), IdLeq) == Sorting.Sorted(EvidenceOf(b, paperId), IdLeq)
  {
    var keep := (e: Entry) => IsEvidenceOf(e, paperId);
    FilterDistinct(Materialised(a), keep, KeyOf);
    FilterDistinct(Materialised(b), keep, KeyOf);
    SameMembersSameContents(EvidenceOf(a, paperId), EvidenceOf(b, paperId), KeyOf);
    IdOrder();
    EvidenceContents(a, paperId);
    forall x, y | x in EvidenceOf(a, paperId) && y in EvidenceOf(a, paperId) && IdLeq(x, y) && IdLeq(y, x)
      ensures x == y
    {
      StringOrder.LeqAntisymmetric(KeyOf(x).id, KeyOf(y).id);
      KeyIdentifiesElement(Materialised(a), KeyOf, x, y);
    }
    Sorting.SortedOrderIndependent(EvidenceOf(a, paperId), EvidenceOf(b, paperId), IdLeq);
  }

  lemma EvidenceTransfers(a: Projection, b: Projection, shared: set<Dependency>, paperId: string, digests: Digests)
    requires RecordInjective(digests) && Faithful(a, digests) && Faithful(b, digests)
    requires Shares(a, shared) && Shares(b, shared) && Demands(a, paperId)
    ensures forall e :: e in EvidenceOf(a.w, paperId) ==> e in EvidenceOf(b.w, paperId)
  {
    EvidenceContents(a.w, paperId);
    EvidenceContents(b.w, paperId);
    forall e | e in EvidenceOf(a.w, paperId) ensures e in EvidenceOf(b.w, paperId) {
      ContentTransfers(a, b, shared, paperId, e, digests);
    }
  }

  // ----- The registry record and the profile -----

  lemma PaperTransfers(a: Projection, b: Projection, shared: set<Dependency>, paperId: string, digests: Digests)
    requires RecordInjective(digests) && Faithful(a, digests) && Faithful(b, digests)
    requires Shares(a, shared) && Shares(b, shared) && Demands(a, paperId)
    requires PaperOf(a.w, paperId).Some?
    ensures PaperOf(b.w, paperId) == PaperOf(a.w, paperId)
  {
    PaperOfMember(a.w, paperId);
    PaperOfMember(b.w, paperId);
    var e := PaperEntry(PaperOf(a.w, paperId).value);
    RecordTransfers(a, b, shared, e, digests);
    KeyIdentifiesElement(Materialised(b.w), KeyOf, e, PaperEntry(PaperOf(b.w, paperId).value));
  }

  lemma SameRecord(p: Projection, x: Entry, y: Entry, digests: Digests)
    requires Faithful(p, digests) && x in p.w && y in p.w && KeyOf(x) == KeyOf(y)
    ensures x == y
  {
    KeyIdentifiesElement(Materialised(p.w), KeyOf, x, y);
  }

  lemma ProfileDependency(a: Projection, b: Projection, shared: set<Dependency>, paperId: string, digests: Digests)
    requires Faithful(a, digests) && Faithful(b, digests)
    requires Shares(a, shared) && Shares(b, shared) && Demands(a, paperId)
    ensures ProfileEntry(ProfileOf(a.w).value) in a.w
    ensures ProfileOf(a.w).value.id == ProfileOf(b.w).value.id
  {
    var p := ProfileOf(a.w).value;
    ProfileOfMember(a.w);
    var key := KeyOf(ProfileEntry(p));
    assert Backed(a.records, a.index, key, digests);
    assert a.index[key] in shared;
  }

  lemma ProfileTransfers(a: Projection, b: Projection, shared: set<Dependency>, paperId: string, digests: Digests)
    requires RecordInjective(digests) && Faithful(a, digests) && Faithful(b, digests)
    requires Shares(a, shared) && Shares(b, shared) && Demands(a, paperId)
    ensures ProfileOf(b.w) == ProfileOf(a.w)
  {
    var p, q := ProfileEntry(ProfileOf(a.w).value), ProfileEntry(ProfileOf(b.w).value);
    ProfileDependency(a, b, shared, paperId, digests);
    ProfileOfMember(b.w);
    RecordTransfers(a, b, shared, p, digests);
    SameRecord(b, p, q, digests);
  }

  // ----- Tags -----

  lemma TagTransfers(a: Projection, b: Projection, shared: set<Dependency>, tagId: string, digests: Digests)
    requires RecordInjective(digests) && Faithful(a, digests) && Faithful(b, digests)
    requires Shares(a, shared) && Shares(b, shared)
    requires Key(TagKind, tagId) in a.keys && TagOf(a.w, tagId).Some?
    ensures TagOf(b.w, tagId) == TagOf(a.w, tagId)
  {
    TagOfMember(a.w, tagId);
    var t :| TagEntry(t) in a.w && t.tagId == tagId && ActiveTag(t) == TagOf(a.w, tagId);
    RecordTransfers(a, b, shared, TagEntry(t), digests);
    forall x, y | TagEntry(x) in b.w && TagEntry(y) in b.w && x.tagId == y.tagId ensures x == y {
      SameTag(b.w, x, y);
    }
    UniqueTag(b.w, t);
  }

  lemma LinkRecordTransfers(
      a: Projection, b: Projection, shared: set<Dependency>, paperId: string, e: Entry, digests: Digests)
    requires RecordInjective(digests) && Faithful(a, digests) && Faithful(b, digests)
    requires Shares(a, shared) && Shares(b, shared) && Demands(a, paperId)
    requires e in a.w && TagsTarget(a.w, e, Target("paper", paperId))
    ensures e in b.w && Key(TagKind, e.link.tagId) in a.keys
  {
    RecordTransfers(a, b, shared, e, digests);
  }

  lemma SameTagging(v: seq<Entry>, w: seq<Entry>, e: Entry, target: Target)
    requires TagsTarget(v, e, target) && TagOf(w, e.link.tagId) == TagOf(v, e.link.tagId)
    ensures TagsTarget(w, e, target) && TagName(w, e) == TagName(v, e)
  {
  }

  lemma LinkTransfers(a: Projection, b: Projection, shared: set<Dependency>, paperId: string, e: Entry, digests: Digests)
    requires RecordInjective(digests) && Faithful(a, digests) && Faithful(b, digests)
    requires Shares(a, shared) && Shares(b, shared) && Demands(a, paperId)
    requires e in a.w && TagsTarget(a.w, e, Target("paper", paperId))
    ensures e in b.w && TagsTarget(b.w, e, Target("paper", paperId)) && TagName(b.w, e) == TagName(a.w, e)
  {
    LinkRecordTransfers(a, b, shared, paperId, e, digests);
    TagTransfers(a, b, shared, e.link.tagId, digests);
    SameTagging(a.w, b.w, e, Target("paper", paperId));
  }

  lemma TagNamesTransfer(a: Projection, b: Projection, shared: set<Dependency>, paperId: string, digests: Digests)
    requires RecordInjective(digests) && Faithful(a, digests) && Faithful(b, digests)
    requires Shares(a, shared) && Shares(b, shared) && Demands(a, paperId)
    ensures TagNames(a.w, Target("paper", paperId)) <= TagNames(b.w, Target("paper", paperId))
  {
    var target := Target("paper", paperId);
    forall name | name in TagNames(a.w, target) ensures name in TagNames(b.w, target) {
      var e :| e in a.w && TagsTarget(a.w, e, target) && TagName(a.w, e) == name;
      LinkTransfers(a, b, shared, paperId, e, digests);
    }
  }

  // ----- Everything a view is rendered from -----

  /** Whoever shares the dependencies a paper view asks for shares everything the view is rendered from. */
  lemma SharedDependenciesShareFacts(
      a: Projection, b: Projection, shared: set<Dependency>, paperId: string, digests: Digests)
    requires RecordInjective(digests) && Faithful(a, digests) && Faithful(b, digests)
    requires Shares(a, shared) && Shares(b, shared) && Demands(a, paperId) && Demands(b, paperId)
    requires FactsOf(a.w, paperId).Some?
    ensures FactsOf(b.w, paperId) == FactsOf(a.w, paperId)
  {
    ProfileTransfers(a, b, shared, paperId, digests);
    PaperTransfers(a, b, shared, paperId, digests);
    CardTransfers(a, b, shared, paperId, digests);
    EvidenceTransfers(a, b, shared, paperId, digests);
    EvidenceTransfers(b, a, shared, paperId, digests);
    EvidenceAgrees(a.w, b.w, paperId);
    TagNamesTransfer(a, b, shared, paperId, digests);
    TagNamesTransfer(b, a, shared, paperId, digests);
    assert TagNames(a.w, Target("paper", paperId)) == TagNames(b.w, Target("paper", paperId));
  }

  lemma {:induction false} TagKeysContain(w: seq<Entry>, target: Target, n: nat, e: Entry)
    requires n <= |w| && e in w[..n] && TagsTarget(w, e, target)
    ensures Key(TagKind, e.link.tagId) in TagKeys(w, target, n)
    ensures Key(TagLinkKind, e.link.linkId) in TagKeys(w, target, n)
  {
    if e in w[..n - 1] {
      TagKeysContain(w, target, n - 1, e);
    } else {
      assert w[..n] == w[..n - 1] + [w[n - 1]];
      assert LinkKeys(e.link)[0] in LinkKeys(e.link) && LinkKeys(e.link)[1] in LinkKeys(e.link);
    }
  }


  lemma KeysContain(w: seq<Entry>, profileId: string, paperId: string, index: Index)
    ensures Key(ProfileKind, profileId) in PaperKeys(w, profileId, paperId, index)
    ensures Key(PaperKind, paperId) in PaperKeys(w, profileId, paperId, index)
    ensures forall key :: key in ContentKeys(w, paperId, index) ==> key in PaperKeys(w, profileId, paperId, index)
    ensures forall key :: key in TagKeys(w, Target("paper", paperId), |w|) ==>
      key in PaperKeys(w, profileId, paperId, index)
  {
    NormalisedContents(TagKeys(w, Target("paper", paperId), |w|));
  }

  lemma ContentKeysContain(w: seq<Entry>, e: Entry, paperId: string, index: Index)
    requires e in Materialised(w) && IsContentOf(e, paperId) && Key(BundleKind, paperId) !in index
    ensures KeyOf(e) in ContentKeys(w, paperId, index)
  {
    if e.EvidenceEntry? {
      EvidenceContents(w, paperId);
      var evidence := EvidenceOf(w, paperId);
      var i :| 0 <= i < |evidence| && evidence[i] == e;
      assert KeysOf(evidence)[i] == KeyOf(e);
    }
  }

  /** The key list of a paper view asks for what the view reads. */
  lemma PaperKeysDemand(p: Projection, paperId: string)
    requires ProfileOf(p.w).Some? && p.records == RecordSet(p.w)
    requires forall key :: key in PaperKeys(p.w, ProfileOf(p.w).value.id, paperId, p.index) ==> key in p.keys
    ensures Demands(p, paperId)
  {
    KeysContain(p.w, ProfileOf(p.w).value.id, paperId, p.index);
    forall e | e in p.records && IsContentOf(e, paperId) && Key(BundleKind, paperId) !in p.index
      ensures KeyOf(e) in p.keys
    {
      ContentKeysContain(p.w, e, paperId, p.index);
    }
    forall e | e in p.w && TagsTarget(p.w, e, Target("paper", paperId))
      ensures Key(TagKind, e.link.tagId) in p.keys && Key(TagLinkKind, e.link.linkId) in p.keys
    {
      assert p.w[..|p.w|] == p.w;
      TagKeysContain(p.w, Target("paper", paperId), |p.w|, e);
    }
  }
}
