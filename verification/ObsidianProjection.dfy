/** The loops that build the dependency index, the tag projection, the paper views and the Papers index. */
module ObsidianProjection {
  import opened Wrappers
  import opened Records
  import opened Selection
  import opened Deduplication
  import opened PrimaryBundles
  import opened PrimaryBundleDiagnostics
  import opened ObsidianViews
  import opened ObsidianWatermarks
  import opened ObsidianSoundness
  import Listing
  import Sorting
  import StringOrder

  // ----- The dependency index -----

  method IndexCardUnits(m: Index, card: Card, revision: Option<string>, digests: Digests) returns (index: Index)
    ensures index == WithCardUnits(m, card, revision, digests)
  {
    index := m;
    var sections := card.sections;
    ghost var all := UnitsOf(card, |sections|);
    for i := 0 to |sections|
      invariant index == WithUnits(m, UnitsOf(card, i), |UnitsOf(card, i)|, revision, digests)
    {
      index := IndexUnits(m, index, UnitsOf(card, i), sections[i].units, revision, digests);
    }
  }

  method IndexUnits(
      ghost m: Index, current: Index, ghost before: seq<Unit>, units: seq<Unit>, revision: Option<string>, digests: Digests)
      returns (index: Index)
    requires current == WithUnits(m, before, |before|, revision, digests)
    ensures index == WithUnits(m, before + units, |before + units|, revision, digests)
  {
    index := current;
    ghost var all := before + units;
    UnitsPrefix(m, before, all, |before|, revision, digests);
    for k := 0 to |units|
      invariant index == WithUnits(m, all, |before| + k, revision, digests)
    {
      assert all[|before| + k] == units[k];
      if units[k].id != "" {
        index := index[Key(UnitKind, units[k].id) :=
          Dependency(UnitKind, units[k].id, digests.unit(units[k]), revision)];
      }
    }
  }

  lemma {:induction false} UnitsPrefix(
      m: Index, before: seq<Unit>, all: seq<Unit>, n: nat, revision: Option<string>, digests: Digests)
    requires n <= |before| && before <= all
    ensures WithUnits(m, before, n, revision, digests) == WithUnits(m, all, n, revision, digests)
  {
    if n > 0 {
      UnitsPrefix(m, before, all, n - 1, revision, digests);
    }
  }

  method IndexStandalone(m: Index, e: Entry, bundled: set<string>, digests: Digests) returns (index: Index)
    ensures index == WithEntry(m, e, bundled, digests)
  {
    index := m;
    if (ChildPaper(e).Some? && ChildPaper(e).value in bundled) || KeyOf(e).id == "" {
      return;
    }
    index := index[KeyOf(e) := Dependency(KeyOf(e).kind, KeyOf(e).id, digests.entry(e), RevisionOf(e))];
    if e.ProfileEntry? {
      index := index[Key(ProfileVersionKind, e.profile.id) :=
        Dependency(ProfileVersionKind, e.profile.id, digests.version(e.profile.version), None)];
    } else if e.CardEntry? {
      index := IndexCardUnits(index, e.card, None, digests);
    }
  }

  method IndexChild(m: Index, child: Entry, activeId: string, digests: Digests) returns (index: Index)
    ensures index == WithChild(m, child, activeId, digests)
  {
    index := m;
    var key := KeyOf(child);
    if key.id != "" {
      index := index[key := Dependency(key.kind, key.id, digests.entry(child), Some(activeId))];
    }
    if child.CardEntry? {
      index := IndexCardUnits(index, child.card, Some(activeId), digests);
    }
  }

  method IndexBundle(m: Index, bundle: Bundle, digests: Digests) returns (index: Index)
    ensures index == WithBundle(m, BundleEntry(bundle), digests)
  {
    index := m;
    var children := ActiveEntries(bundle);
    for k := 0 to |children|
      invariant index == WithChildren(m, children, k, bundle.activeId, digests)
    {
      index := IndexChild(index, children[k], bundle.activeId, digests);
    }
  }

  method DependencyIndex(w: seq<Entry>, digests: Digests) returns (index: Index)
    ensures index == IndexOf(w, digests)
  {
    var bundled := BundledPapers(w);
    index := map[];
    for k := 0 to |w|
      invariant index == EntryPass(w, k, bundled, digests)
    {
      index := IndexStandalone(index, w[k], bundled, digests);
    }
    ghost var first := index;
    for k := 0 to |w|
      invariant index == BundlePass(first, w, k, digests)
    {
      if w[k].BundleEntry? {
        index := IndexBundle(index, w[k].bundle, digests);
      }
    }
  }

  // ----- Tags -----

  function Found(tags: map<string, TagRevision>, tagId: string): Option<TagRevision> {
    if tagId in tags then Some(tags[tagId]) else None
  }

  method ActiveTags(w: seq<Entry>) returns (tags: map<string, TagRevision>)
    ensures forall tagId :: Found(tags, tagId) == TagOf(w, tagId)
  {
    tags := map[];
    for k := 0 to |w|
      invariant forall tagId :: Found(tags, tagId) == TagOf(w[..k], tagId)
    {
      assert w[..k + 1][..k] == w[..k];
      if w[k].TagEntry? {
        var active := ActiveTag(w[k].tag);
        if active.Some? {
          tags := tags[w[k].tag.tagId := active.value];
        }
      }
    }
    assert w[..|w|] == w;
  }

  datatype Projected = Projected(names: map<Target, seq<string>>, keys: map<Target, seq<Key>>)

  function NamesUnder(p: Projected, target: Target): seq<string> {
    if target in p.names then p.names[target] else []
  }

  function KeysUnder(p: Projected, target: Target): seq<Key> {
    if target in p.keys then p.keys[target] else []
  }

  function LinkNames(w: seq<Entry>, target: Target, n: nat): seq<string>
    requires n <= |w|
  {
    if n == 0 then []
    else LinkNames(w, target, n - 1) + if TagsTarget(w, w[n - 1], target) then [TagName(w, w[n - 1])] else []
  }

  lemma {:induction false} LinkNamesContents(w: seq<Entry>, target: Target, n: nat, name: string)
    requires n <= |w|
    ensures name in LinkNames(w, target, n) <==> exists i :: 0 <= i < n && NamesAt(w, target, i, name)
  {
    if n > 0 {
      LinkNamesContents(w, target, n - 1, name);
      assert NamesAt(w, target, n - 1, name) <==> TagsTarget(w, w[n - 1], target) && TagName(w, w[n - 1]) == name;
    }
  }

  predicate NamesAt(w: seq<Entry>, target: Target, i: nat, name: string)
    requires i < |w|
  {
    TagsTarget(w, w[i], target) && TagName(w, w[i]) == name
  }

  lemma LinkNamesAreTagNames(w: seq<Entry>, target: Target)
    ensures (set name | name in LinkNames(w, target, |w|)) == TagNames(w, target)
  {
    forall name ensures name in LinkNames(w, target, |w|) <==> name in TagNames(w, target) {
      LinkNamesContents(w, target, |w|, name);
      if name in TagNames(w, target) {
        var e :| e in w && TagsTarget(w, e, target) && TagName(w, e) == name;
        var i :| 0 <= i < |w| && w[i] == e;
        assert NamesAt(w, target, i, name);
      }
    }
  }

  method ProjectLink(p: Projected, w: seq<Entry>, k: nat, tags: map<string, TagRevision>) returns (p': Projected)
    requires k < |w| && forall tagId :: Found(tags, tagId) == TagOf(w, tagId)
    ensures forall target ::
      (NamesUnder(p', target) == NamesUnder(p, target) + if TagsTarget(w, w[k], target) then [TagName(w, w[k])] else [])
    ensures forall target ::
      (KeysUnder(p', target) == KeysUnder(p, target) + if TagsTarget(w, w[k], target) then LinkKeys(w[k].link) else [])
  {
    p' := p;
    if w[k].TagLinkEntry? && Assigned(w[k].link) {
      var link := w[k].link;
      assert Found(tags, link.tagId) == TagOf(w, link.tagId);
      if link.tagId in tags && tags[link.tagId].active {
        var target := TargetOf(link);
        p' := Projected(
          p.names[target := NamesUnder(p, target) + [tags[link.tagId].name]],
          p.keys[target := KeysUnder(p, target) + LinkKeys(link)]);
      }
    }
  }

  /** Names and dependency keys of the tags on every target. */
  method TagProjection(w: seq<Entry>) returns (p: Projected)
    ensures forall target :: (set name | name in NamesUnder(p, target)) == TagNames(w, target)
    ensures forall target :: KeysUnder(p, target) == TagKeys(w, target, |w|)
  {
    var tags := ActiveTags(w);
    p := Projected(map[], map[]);
    for k := 0 to |w|
      invariant forall target :: NamesUnder(p, target) == LinkNames(w, target, k)
      invariant forall target :: KeysUnder(p, target) == TagKeys(w, target, k)
    {
      p := ProjectLink(p, w, k, tags);
    }
    forall target ensures (set name | name in NamesUnder(p, target)) == TagNames(w, target) {
      LinkNamesAreTagNames(w, target);
    }
  }

  // ----- The projection context -----

  datatype Context = Context(
    profile: Profile,
    papers: map<string, Paper>,
    cards: map<string, Card>,
    evidence: map<string, seq<Entry>>,
    index: Index,
    tags: Projected)

  function EvidenceUnder(evidence: map<string, seq<Entry>>, paperId: string): seq<Entry> {
    if paperId in evidence then evidence[paperId] else []
  }

  ghost predicate Reflects(c: Context, w: seq<Entry>, digests: Digests) {
    && ProfileOf(w) == Some(c.profile)
    && (forall id :: PaperOf(w, id) == if id in c.papers then Some(c.papers[id]) else None)
    && (forall id :: CardOf(w, id) == if id in c.cards then Some(c.cards[id]) else None)
    && (forall id :: EvidenceOf(w, id) == EvidenceUnder(c.evidence, id))
    && c.index == IndexOf(w, digests)
    && (forall target :: (set name | name in NamesUnder(c.tags, target)) == TagNames(w, target))
    && (forall target :: KeysUnder(c.tags, target) == TagKeys(w, target, |w|))
  }

  method PapersById(w: seq<Entry>) returns (papers: map<string, Paper>)
    ensures forall id :: PaperOf(w, id) == if id in papers then Some(papers[id]) else None
  {
    papers := map[];
    for k := 0 to |w|
      invariant forall id :: PaperOf(w[..k], id) == if id in papers then Some(papers[id]) else None
    {
      assert w[..k + 1][..k] == w[..k];
      if w[k].PaperEntry? {
        papers := papers[w[k].paper.paperId := w[k].paper];
      }
    }
    assert w[..|w|] == w;
  }

  method CardsByPaper(records: seq<Entry>) returns (cards: map<string, Card>)
    ensures forall id :: CardIn(records, id) == if id in cards then Some(cards[id]) else None
  {
    cards := map[];
    for k := 0 to |records|
      invariant forall id :: CardIn(records[..k], id) == if id in cards then Some(cards[id]) else None
    {
      assert records[..k + 1][..k] == records[..k];
      if records[k].CardEntry? {
        cards := cards[records[k].card.paperId := records[k].card];
      }
    }
    assert records[..|records|] == records;
  }

  function OfPaper(records: seq<Entry>, id: string): seq<Entry> {
    Filter(records, (e: Entry) => IsEvidenceOf(e, id))
  }

  lemma OfPaperStep(records: seq<Entry>, k: nat, id: string)
    requires k < |records|
    ensures OfPaper(records[..k + 1], id) ==
      OfPaper(records[..k], id) + if IsEvidenceOf(records[k], id) then [records[k]] else []
  {
    assert records[..k + 1][..k] == records[..k];
  }

  method EvidenceByPaper(records: seq<Entry>) returns (evidence: map<string, seq<Entry>>)
    ensures forall id :: OfPaper(records, id) == EvidenceUnder(evidence, id)
  {
    evidence := map[];
    for k := 0 to |records|
      invariant forall id :: OfPaper(records[..k], id) == EvidenceUnder(evidence, id)
    {
      ghost var before := evidence;
      if records[k].EvidenceEntry? {
        var paperId := records[k].evidence.paperId;
        evidence := evidence[paperId := EvidenceUnder(evidence, paperId) + [records[k]]];
      }
      forall id ensures OfPaper(records[..k + 1], id) == EvidenceUnder(evidence, id) {
        OfPaperStep(records, k, id);
        assert OfPaper(records[..k], id) == EvidenceUnder(before, id);
      }
    }
    assert records[..|records|] == records;
  }

  method BuildContext(w: seq<Entry>, digests: Digests) returns (c: Option<Context>)
    ensures c.None? <==> ProfileOf(w).None?
    ensures c.Some? ==> Reflects(c.value, w, digests)
  {
    if ProfileOf(w).None? {
      return None;
    }
    var papers := PapersById(w);
    var cards := CardsByPaper(Materialised(w));
    var evidence := EvidenceByPaper(Materialised(w));
    var index := DependencyIndex(w, digests);
    var tags := TagProjection(w);
    assert forall id :: OfPaper(Materialised(w), id) == EvidenceOf(w, id);
    c := Some(Context(ProfileOf(w).value, papers, cards, evidence, index, tags));
  }

  // ----- Views -----

  function SortedNames(names: seq<string>): seq<string> {
    Sorting.Sorted(FirstOccurrences(names), StringOrder.Leq)
  }

  lemma LeqOrders()
    ensures Sorting.TotalPreorder(StringOrder.Leq)
  {
    forall x: string, y: string ensures StringOrder.Leq(x, y) || StringOrder.Leq(y, x) {
      StringOrder.LeqTotal(x, y);
    }
    forall x: string, y: string, z: string | StringOrder.Leq(x, y) && StringOrder.Leq(y, z) ensures StringOrder.Leq(x, z) {
      StringOrder.LeqTransitive(x, y, z);
    }
  }

  /** Sorting the distinct names lists the set of names. */
  lemma SortedNamesListSet(names: seq<string>)
    ensures SortedNames(names) == Listing.Sorted(set name | name in names)
  {
    var distinct := FirstOccurrences(names);
    var itself := (name: string) => name;
    FirstOccurrencesContents(names);
    LeqOrders();
    Sorting.SortedContents(distinct, StringOrder.Leq);
    Sorting.SortedOrders(distinct, StringOrder.Leq);
    assert DistinctBy(distinct, itself);
    DistinctPermutes(distinct, SortedNames(names), itself);
    assert forall i, j :: 0 <= i < j < |SortedNames(names)| ==> itself(SortedNames(names)[i]) != itself(SortedNames(names)[j]);
    Listing.AscendingIsSorted(SortedNames(names), set name | name in names);
  }

  function ContextKeys(c: Context, paperId: string): seq<Key> {
    [Key(ProfileKind, c.profile.id), Key(PaperKind, paperId)] +
    (if Key(BundleKind, paperId) in c.index then [Key(BundleKind, paperId)]
     else [Key(CardKind, paperId)] + KeysOf(EvidenceUnder(c.evidence, paperId))) +
    Normalised(KeysUnder(c.tags, Target("paper", paperId)))
  }

  /** One paper's view from the context; nothing when its registry record is missing. */
  function RenderPaper(c: Context, paperId: string, renderer: Renderer): Option<Draft> {
    if paperId !in c.papers || paperId !in c.cards then None
    else
      var facts := Facts(
        c.profile, c.papers[paperId], c.cards[paperId],
        SortedNames(NamesUnder(c.tags, Target("paper", paperId))),
        Sorting.Sorted(EvidenceUnder(c.evidence, paperId), IdLeq));
      Some(Draft(
        "Papers/" + paperId + ".md", "paper", paperId, Resolve(ContextKeys(c, paperId), c.index),
        renderer.body(paperId, facts), [], Some(renderer.title(facts.paper))))
  }

  lemma ContextKeysArePaperKeys(c: Context, w: seq<Entry>, paperId: string, digests: Digests)
    requires Reflects(c, w, digests)
    ensures ContextKeys(c, paperId) == PaperKeys(w, c.profile.id, paperId, c.index)
  {
  }

  lemma ContextFacts(c: Context, w: seq<Entry>, paperId: string, digests: Digests, renderer: Renderer)
    requires Reflects(c, w, digests)
    ensures RenderPaper(c, paperId, renderer).Some? <==> FactsOf(w, paperId).Some?
    ensures FactsOf(w, paperId).Some? ==>
      && SortedNames(NamesUnder(c.tags, Target("paper", paperId))) == FactsOf(w, paperId).value.tags
      && EvidenceUnder(c.evidence, paperId) == EvidenceOf(w, paperId)
      && c.papers[paperId] == FactsOf(w, paperId).value.paper
      && c.cards[paperId] == FactsOf(w, paperId).value.card
      && c.profile == FactsOf(w, paperId).value.profile
  {
    SortedNamesListSet(NamesUnder(c.tags, Target("paper", paperId)));
  }

  lemma RenderPaperIsView(c: Context, w: seq<Entry>, paperId: string, digests: Digests, renderer: Renderer)
    requires Reflects(c, w, digests)
    ensures RenderPaper(c, paperId, renderer) == PaperView(w, paperId, digests, renderer)
  {
    ContextFacts(c, w, paperId, digests, renderer);
    ContextKeysArePaperKeys(c, w, paperId, digests);
  }

  function RenderList(c: Context, ids: seq<string>, renderer: Renderer): seq<Option<Draft>> {
    seq(|ids|, i requires 0 <= i < |ids| => RenderPaper(c, ids[i], renderer))
  }

  lemma RenderListIsViews(c: Context, w: seq<Entry>, ids: seq<string>, digests: Digests, renderer: Renderer)
    requires Reflects(c, w, digests)
    ensures RenderList(c, ids, renderer) == ViewList(w, ids, digests, renderer)
  {
    forall i | 0 <= i < |ids|
      ensures RenderPaper(c, ids[i], renderer) == PaperView(w, ids[i], digests, renderer)
    {
      RenderPaperIsView(c, w, ids[i], digests, renderer);
    }
  }

  method RenderPapers(c: Context, ids: seq<string>, renderer: Renderer) returns (children: Option<seq<Draft>>)
    ensures children == Collect(RenderList(c, ids, renderer), |ids|)
  {
    children := Some([]);
    ghost var views := RenderList(c, ids, renderer);
    for i := 0 to |ids|
      invariant children == Collect(views, i)
    {
      var view := RenderPaper(c, ids[i], renderer);
      assert views[i] == view;
      children := if children.None? || view.None? then None else Some(children.value + [view.value]);
    }
  }

  method MergeDependencies(children: seq<Draft>) returns (merged: seq<Dependency>)
    ensures merged == Merge(AllDependencies(children, |children|))
  {
    var items: seq<Dependency> := [];
    for i := 0 to |children|
      invariant items == AllDependencies(children, i)
    {
      items := items + children[i].dependencies;
    }
    merged := Merge(items);
  }

  /** The Papers index over all paper views; nothing when the projection fails. */
  method ProjectPapers(w: seq<Entry>, digests: Digests, renderer: Renderer) returns (index: Option<Draft>)
    ensures index == PapersIndex(w, digests, renderer)
  {
    var c := BuildContext(w, digests);
    if c.None? {
      return None;
    }
    var ids := Listing.List(PaperIds(w));
    RenderListIsViews(c.value, w, ids, digests, renderer);
    var children := RenderPapers(c.value, ids, renderer);
    if children.None? {
      return None;
    }
    var merged := MergeDependencies(children.value);
    index := Some(Draft("Papers/_index.md", "index", "papers_index", merged,
                        renderer.index(LinksOf(children.value)), [], None));
  }
}
