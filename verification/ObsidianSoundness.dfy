/** Equal watermarks, equal views: for every paper view, and for the Papers index over merged dependencies. */
module ObsidianSoundness {
  import opened Wrappers
  import opened Records
  import opened ObsidianViews
  import opened ObsidianWatermarks
  import Listing

  // ----- One paper view -----

  ghost function ProjectionOf(w: seq<Entry>, keys: set<Key>, digests: Digests): Projection {
    Projection(w, RecordSet(w), IndexOf(w, digests), keys)
  }

  lemma ProjectionFaithful(w: seq<Entry>, keys: set<Key>, digests: Digests)
    requires WellFormed(w) && ProfileOf(w).Some?
    ensures Faithful(ProjectionOf(w, keys, digests), digests)
  {
    IndexMeaning(w, digests);
  }

  lemma {:induction false} TagKeysKinds(w: seq<Entry>, target: Target, n: nat)
    requires n <= |w|
    ensures forall key :: key in TagKeys(w, target, n) ==> key.kind.TagKind? || key.kind.TagLinkKind?
  {
    if n > 0 {
      TagKeysKinds(w, target, n - 1);
    }
  }

  lemma ContentKeysKinds(w: seq<Entry>, paperId: string, index: Index)
    ensures forall key :: key in ContentKeys(w, paperId, index) ==>
      key.kind.BundleKind? || key.kind.CardKind? || key.kind.EvidenceKind?
  {
    EvidenceContents(w, paperId);
    var evidence := EvidenceOf(w, paperId);
    forall key | key in KeysOf(evidence) ensures key.kind.EvidenceKind? {
      var i :| 0 <= i < |evidence| && KeysOf(evidence)[i] == key;
      assert evidence[i] in evidence;
    }
  }

  /** A paper view asks for one profile and one registry record. */
  lemma PaperKeysKinds(w: seq<Entry>, profileId: string, paperId: string, index: Index)
    ensures forall key :: key in PaperKeys(w, profileId, paperId, index) ==>
      && (key.kind.ProfileKind? ==> key.id == profileId)
      && (key.kind.PaperKind? ==> key.id == paperId)
  {
    var target := Target("paper", paperId);
    TagKeysKinds(w, target, |w|);
    NormalisedContents(TagKeys(w, target, |w|));
    ContentKeysKinds(w, paperId, index);
    KeyParts(
      Key(ProfileKind, profileId), Key(PaperKind, paperId), ContentKeys(w, paperId, index),
      Normalised(TagKeys(w, target, |w|)));
  }

  lemma KeyParts(first: Key, second: Key, content: seq<Key>, tags: seq<Key>)
    ensures forall key :: key in [first, second] + content + tags <==>
      key == first || key == second || key in content || key in tags
  {
  }

  ghost function Members(dependencies: seq<Dependency>): set<Dependency> { set d | d in dependencies }

  /** `dependencies` are the ones the index holds under `keys`. */
  ghost predicate ResolvedFrom(dependencies: set<Dependency>, keys: set<Key>, index: Index) {
    && (forall key :: key in keys && key in index ==> index[key] in dependencies)
    && (forall d :: d in dependencies ==> exists key :: key in keys && key in index && index[key] == d)
  }

  lemma ResolutionShares(p: Projection, shared: set<Dependency>, digests: Digests)
    requires Faithful(p, digests) && ResolvedFrom(shared, p.keys, p.index)
    requires forall key :: key in p.keys && key.kind.ProfileKind? ==> key.id == ProfileOf(p.w).value.id
    ensures Shares(p, shared)
    ensures forall d :: d in shared ==> Key(d.kind, d.id) in p.keys
  {
    forall d | d in shared ensures Own(d, p.index) && Key(d.kind, d.id) in p.keys {
      var key :| key in p.keys && key in p.index && p.index[key] == d;
      assert Backed(p.records, p.index, key, digests);
    }
  }

  ghost function KeySet(w: seq<Entry>, paperId: string, digests: Digests): set<Key>
    requires ProfileOf(w).Some?
  {
    set key | key in PaperKeys(w, ProfileOf(w).value.id, paperId, IndexOf(w, digests))
  }

  lemma ViewShares(w: seq<Entry>, paperId: string, digests: Digests)
    requires WellFormed(w) && ProfileOf(w).Some?
    ensures var p := ProjectionOf(w, KeySet(w, paperId, digests), digests);
      && Faithful(p, digests) && Demands(p, paperId)
      && Shares(p, Members(PaperDependencies(w, ProfileOf(w).value.id, paperId, digests)))
  {
    var profileId, index := ProfileOf(w).value.id, IndexOf(w, digests);
    var p := ProjectionOf(w, KeySet(w, paperId, digests), digests);
    ProjectionFaithful(w, p.keys, digests);
    PaperKeysDemand(p, paperId);
    PaperKeysKinds(w, profileId, paperId, index);
    ResolveContents(PaperKeys(w, profileId, paperId, index), index);
    ResolutionShares(p, Members(PaperDependencies(w, profileId, paperId, digests)), digests);
  }

  /** Two paper views with equal watermarks are equal: body, title and dependencies. */
  lemma PaperWatermarkIsSound(a: seq<Entry>, b: seq<Entry>, paperId: string, digests: Digests, renderer: Renderer)
    requires RecordInjective(digests) && WatermarkInjective(digests)
    requires WellFormed(a) && WellFormed(b)
    requires PaperView(a, paperId, digests, renderer).Some? && PaperView(b, paperId, digests, renderer).Some?
    requires Watermark(PaperView(a, paperId, digests, renderer).value, digests) ==
      Watermark(PaperView(b, paperId, digests, renderer).value, digests)
    ensures PaperView(a, paperId, digests, renderer) == PaperView(b, paperId, digests, renderer)
  {
    ViewShares(a, paperId, digests);
    ViewShares(b, paperId, digests);
    var dependencies := PaperDependencies(a, ProfileOf(a).value.id, paperId, digests);
    assert PaperView(a, paperId, digests, renderer).value.dependencies == dependencies;
    assert PaperView(b, paperId, digests, renderer).value.dependencies == dependencies;
    SharedDependenciesShareFacts(
      ProjectionOf(a, KeySet(a, paperId, digests), digests), ProjectionOf(b, KeySet(b, paperId, digests), digests),
      Members(dependencies), paperId, digests);
  }

  // ----- Merged dependencies -----

  function DependencyKeys(items: seq<Dependency>): seq<Key> {
    seq(|items|, i requires 0 <= i < |items| => Key(items[i].kind, items[i].id))
  }

  /** The last dependency under a key, as a dictionary keeps it. */
  function LastUnder(items: seq<Dependency>, key: Key): Dependency
    requires key in DependencyKeys(items)
  {
    var last := items[|items| - 1];
    var init := items[..|items| - 1];
    if Key(last.kind, last.id) == key then last
    else
      assert DependencyKeys(items) == DependencyKeys(init) + [Key(last.kind, last.id)];
      LastUnder(init, key)
  }

  /** One dependency per key, in key order. */
  function Merge(items: seq<Dependency>): seq<Dependency> {
    var keys := Normalised(DependencyKeys(items));
    NormalisedContents(DependencyKeys(items));
    seq(|keys|, i requires 0 <= i < |keys| => assert keys[i] in keys; LastUnder(items, keys[i]))
  }

  lemma {:induction false} LastUnderIsItem(items: seq<Dependency>, key: Key)
    requires key in DependencyKeys(items)
    ensures LastUnder(items, key) in items
    ensures Key(LastUnder(items, key).kind, LastUnder(items, key).id) == key
  {
    var last := items[|items| - 1];
    if Key(last.kind, last.id) != key {
      assert DependencyKeys(items) == DependencyKeys(items[..|items| - 1]) + [Key(last.kind, last.id)];
      LastUnderIsItem(items[..|items| - 1], key);
    }
  }

  /** Merging dependencies of one index loses none of them. */
  lemma MergeKeepsMembers(items: seq<Dependency>, index: Index)
    requires forall d :: d in items ==> Own(d, index)
    ensures Members(Merge(items)) == Members(items)
  {
    var keys := Normalised(DependencyKeys(items));
    NormalisedContents(DependencyKeys(items));
    forall d | d in Merge(items) ensures d in items {
      var i :| 0 <= i < |keys| && Merge(items)[i] == d;
      assert keys[i] in keys;
      LastUnderIsItem(items, keys[i]);
    }
    forall d | d in items ensures d in Merge(items) {
      var j :| 0 <= j < |items| && items[j] == d;
      var key := Key(d.kind, d.id);
      assert DependencyKeys(items)[j] == key;
      assert key in keys;
      var i :| 0 <= i < |keys| && keys[i] == key;
      LastUnderIsItem(items, key);
      assert Own(LastUnder(items, key), index);
      assert Merge(items)[i] == d;
    }
  }

  // ----- The Papers index -----

  function PaperIds(w: seq<Entry>): set<string> {
    set e | e in Materialised(w) && e.CardEntry? :: e.card.paperId
  }

  function DisplayTitle(d: Draft): string {
    if d.title.None? || d.title.value == "" then "Untitled" else d.title.value
  }

  function AllDependencies(children: seq<Draft>, n: nat): seq<Dependency>
    requires n <= |children|
  {
    if n == 0 then [] else AllDependencies(children, n - 1) + children[n - 1].dependencies
  }

  function LinkOf(d: Draft): (string, string) {
    ((if |d.path| >= 3 then d.path[..|d.path| - 3] else ""), DisplayTitle(d))
  }

  function LinksOf(children: seq<Draft>): seq<(string, string)> {
    seq(|children|, i requires 0 <= i < |children| => LinkOf(children[i]))
  }

  function IndexDraft(children: seq<Draft>, renderer: Renderer): Draft {
    Draft("Papers/_index.md", "index", "papers_index", Merge(AllDependencies(children, |children|)),
          renderer.index(LinksOf(children)), [], None)
  }

  /** All values when every option has one. */
  function Collect<T>(options: seq<Option<T>>, n: nat): Option<seq<T>>
    requires n <= |options|
  {
    if n == 0 then Some([])
    else
      var before := Collect(options, n - 1);
      if before.None? || options[n - 1].None? then None else Some(before.value + [options[n - 1].value])
  }

  lemma {:induction false} CollectContents<T>(options: seq<Option<T>>, n: nat)
    requires n <= |options| && Collect(options, n).Some?
    ensures |Collect(options, n).value| == n
    ensures forall i :: 0 <= i < n ==> options[i] == Some(Collect(options, n).value[i])
  {
    if n > 0 {
      CollectContents(options, n - 1);
    }
  }

  ghost function ViewList(w: seq<Entry>, ids: seq<string>, digests: Digests, renderer: Renderer): seq<Option<Draft>> {
    seq(|ids|, i requires 0 <= i < |ids| => PaperView(w, ids[i], digests, renderer))
  }

  /** All paper views in id order; nothing when the profile is missing or a view cannot be rendered. */
  ghost function AllPaperViews(w: seq<Entry>, digests: Digests, renderer: Renderer): Option<seq<Draft>> {
    var ids := Listing.Sorted(PaperIds(w));
    if ProfileOf(w).None? then None else Collect(ViewList(w, ids, digests, renderer), |ids|)
  }

  lemma ViewAt(w: seq<Entry>, i: nat, digests: Digests, renderer: Renderer)
    requires AllPaperViews(w, digests, renderer).Some? && i < |Listing.Sorted(PaperIds(w))|
    ensures |AllPaperViews(w, digests, renderer).value| == |Listing.Sorted(PaperIds(w))|
    ensures PaperView(w, Listing.Sorted(PaperIds(w))[i], digests, renderer) ==
      Some(AllPaperViews(w, digests, renderer).value[i])
  {
    var ids := Listing.Sorted(PaperIds(w));
    var views := ViewList(w, ids, digests, renderer);
    CollectContents(views, |ids|);
    assert views[i] == PaperView(w, ids[i], digests, renderer);
  }

  lemma ViewOf(w: seq<Entry>, id: string, digests: Digests, renderer: Renderer)
    requires AllPaperViews(w, digests, renderer).Some? && id in PaperIds(w)
    ensures PaperView(w, id, digests, renderer).Some?
  {
    Listing.SortedMembers(PaperIds(w));
    var ids := Listing.Sorted(PaperIds(w));
    var i :| 0 <= i < |ids| && ids[i] == id;
    ViewAt(w, i, digests, renderer);
  }

  lemma ViewCount(w: seq<Entry>, digests: Digests, renderer: Renderer)
    requires AllPaperViews(w, digests, renderer).Some?
    ensures |AllPaperViews(w, digests, renderer).value| == |Listing.Sorted(PaperIds(w))|
  {
    var ids := Listing.Sorted(PaperIds(w));
    CollectContents(ViewList(w, ids, digests, renderer), |ids|);
  }

  ghost function PapersIndex(w: seq<Entry>, digests: Digests, renderer: Renderer): Option<Draft> {
    var children := AllPaperViews(w, digests, renderer);
    if children.None? then None else Some(IndexDraft(children.value, renderer))
  }

  lemma {:induction false} AllDependenciesContents(children: seq<Draft>, n: nat)
    requires n <= |children|
    ensures forall d :: d in AllDependencies(children, n) <==> exists i :: 0 <= i < n && d in children[i].dependencies
  {
    if n > 0 {
      AllDependenciesContents(children, n - 1);
    }
  }

  /** The keys all paper views ask for. */
  ghost function AllKeys(w: seq<Entry>, digests: Digests): set<Key>
    requires ProfileOf(w).Some?
  {
    set id, key | id in PaperIds(w) && key in KeySet(w, id, digests) :: key
  }

  lemma ChildDependencies(w: seq<Entry>, id: string, digests: Digests, renderer: Renderer)
    requires PaperView(w, id, digests, renderer).Some?
    ensures ProfileOf(w).Some?
    ensures ResolvedFrom(
      Members(PaperView(w, id, digests, renderer).value.dependencies), KeySet(w, id, digests), IndexOf(w, digests))
  {
    ResolveContents(PaperKeys(w, ProfileOf(w).value.id, id, IndexOf(w, digests)), IndexOf(w, digests));
  }

  /** `all` is the union of the key sets. */
  ghost predicate IsUnion(all: set<Key>, parts: seq<set<Key>>) {
    forall key :: key in all <==> exists i :: 0 <= i < |parts| && key in parts[i]
  }

  lemma UnionResolves(children: seq<Draft>, parts: seq<set<Key>>, all: set<Key>, index: Index)
    requires |parts| == |children| && IsUnion(all, parts)
    requires forall i :: 0 <= i < |children| ==> ResolvedFrom(Members(children[i].dependencies), parts[i], index)
    ensures ResolvedFrom(Members(AllDependencies(children, |children|)), all, index)
  {
    AllDependenciesContents(children, |children|);
    var merged := Members(AllDependencies(children, |children|));
    forall key | key in all && key in index ensures index[key] in merged {
      var i :| 0 <= i < |parts| && key in parts[i];
      assert index[key] in Members(children[i].dependencies);
    }
    forall d | d in merged ensures exists key :: key in all && key in index && index[key] == d {
      var i :| 0 <= i < |children| && d in children[i].dependencies;
      assert d in Members(children[i].dependencies);
      var key :| key in parts[i] && key in index && index[key] == d;
      assert key in all;
    }
  }

  ghost function KeySets(w: seq<Entry>, ids: seq<string>, digests: Digests): seq<set<Key>>
    requires ProfileOf(w).Some?
  {
    seq(|ids|, i requires 0 <= i < |ids| => KeySet(w, ids[i], digests))
  }

  lemma AllKeysUnion(w: seq<Entry>, ids: seq<string>, digests: Digests)
    requires ProfileOf(w).Some? && forall id :: id in ids <==> id in PaperIds(w)
    ensures IsUnion(AllKeys(w, digests), KeySets(w, ids, digests))
  {
    var parts := KeySets(w, ids, digests);
    forall key | key in AllKeys(w, digests) ensures exists i :: 0 <= i < |parts| && key in parts[i] {
      var id :| id in PaperIds(w) && key in KeySet(w, id, digests);
      var i :| 0 <= i < |ids| && ids[i] == id;
      assert key in parts[i];
    }
    forall i, key | 0 <= i < |parts| && key in parts[i] ensures key in AllKeys(w, digests) {
      assert ids[i] in ids;
    }
  }

  lemma ChildrenResolve(w: seq<Entry>, digests: Digests, renderer: Renderer)
    requires AllPaperViews(w, digests, renderer).Some?
    ensures var children := AllPaperViews(w, digests, renderer).value;
      ResolvedFrom(Members(AllDependencies(children, |children|)), AllKeys(w, digests), IndexOf(w, digests))
  {
    var ids := Listing.Sorted(PaperIds(w));
    Listing.SortedMembers(PaperIds(w));
    ViewCount(w, digests, renderer);
    var children := AllPaperViews(w, digests, renderer).value;
    var parts := KeySets(w, ids, digests);
    forall i | 0 <= i < |ids| ensures ResolvedFrom(Members(children[i].dependencies), parts[i], IndexOf(w, digests)) {
      ViewAt(w, i, digests, renderer);
      ChildDependencies(w, ids[i], digests, renderer);
    }
    AllKeysUnion(w, ids, digests);
    UnionResolves(children, parts, AllKeys(w, digests), IndexOf(w, digests));
  }

  lemma AllKeysKinds(w: seq<Entry>, digests: Digests)
    requires ProfileOf(w).Some?
    ensures forall key :: key in AllKeys(w, digests) ==>
      && (key.kind.ProfileKind? ==> key.id == ProfileOf(w).value.id)
      && (key.kind.PaperKind? ==> key.id in PaperIds(w))
  {
    forall key | key in AllKeys(w, digests)
      ensures key.kind.ProfileKind? ==> key.id == ProfileOf(w).value.id
      ensures key.kind.PaperKind? ==> key.id in PaperIds(w)
    {
      var id :| id in PaperIds(w) && key in KeySet(w, id, digests);
      PaperKeysKinds(w, ProfileOf(w).value.id, id, IndexOf(w, digests));
    }
  }

  ghost function Whole(w: seq<Entry>, digests: Digests): Projection
    requires ProfileOf(w).Some?
  {
    ProjectionOf(w, AllKeys(w, digests), digests)
  }

  lemma IndexShares(w: seq<Entry>, digests: Digests, renderer: Renderer)
    requires WellFormed(w) && PapersIndex(w, digests, renderer).Some?
    ensures var shared := Members(PapersIndex(w, digests, renderer).value.dependencies);
      && Faithful(Whole(w, digests), digests) && Shares(Whole(w, digests), shared)
      && (forall d :: d in shared ==> Key(d.kind, d.id) in AllKeys(w, digests))
  {
    var children := AllPaperViews(w, digests, renderer).value;
    var all := AllDependencies(children, |children|);
    var p := Whole(w, digests);
    ProjectionFaithful(w, p.keys, digests);
    ChildrenResolve(w, digests, renderer);
    AllKeysKinds(w, digests);
    ResolutionShares(p, Members(all), digests);
    assert forall d :: d in all ==> d in Members(all);
    MergeKeepsMembers(all, p.index);
  }

  lemma WholeDemands(w: seq<Entry>, id: string, digests: Digests)
    requires ProfileOf(w).Some? && id in PaperIds(w)
    ensures Demands(Whole(w, digests), id)
  {
    var p := Whole(w, digests);
    forall key | key in PaperKeys(w, ProfileOf(w).value.id, id, p.index) ensures key in p.keys {
      assert key in KeySet(w, id, digests);
    }
    PaperKeysDemand(p, id);
  }

  /** The papers of the index are recovered from its dependencies. */
  lemma PaperIdsAreShared(a: seq<Entry>, b: seq<Entry>, digests: Digests, renderer: Renderer)
    requires WellFormed(a) && WellFormed(b)
    requires PapersIndex(a, digests, renderer).Some? && PapersIndex(b, digests, renderer).Some?
    requires PapersIndex(a, digests, renderer).value.dependencies == PapersIndex(b, digests, renderer).value.dependencies
    ensures PaperIds(a) <= PaperIds(b)
  {
    var shared := Members(PapersIndex(a, digests, renderer).value.dependencies);
    IndexShares(a, digests, renderer);
    IndexShares(b, digests, renderer);
    AllKeysKinds(b, digests);
    forall id | id in PaperIds(a) ensures id in PaperIds(b) {
      WholeDemands(a, id, digests);
      ViewOf(a, id, digests, renderer);
      PaperIsIndexed(a, id, digests);
      assert Backed(Whole(a, digests).records, IndexOf(a, digests), Key(PaperKind, id), digests);
      assert IndexOf(a, digests)[Key(PaperKind, id)] in shared;
    }
  }

  lemma PaperIsIndexed(w: seq<Entry>, id: string, digests: Digests)
    requires ProfileOf(w).Some? && Faithful(Whole(w, digests), digests) && PaperOf(w, id).Some?
    ensures Key(PaperKind, id) in IndexOf(w, digests)
  {
    PaperOfMember(w, id);
    assert PaperEntry(PaperOf(w, id).value) in Whole(w, digests).records;
  }

  /** Two workspaces with equal Papers-index watermarks have the same papers and the same facts behind each view. */
  lemma IndexSharesFacts(a: seq<Entry>, b: seq<Entry>, id: string, digests: Digests, renderer: Renderer)
    requires RecordInjective(digests) && WellFormed(a) && WellFormed(b)
    requires PapersIndex(a, digests, renderer).Some? && PapersIndex(b, digests, renderer).Some?
    requires PapersIndex(a, digests, renderer).value.dependencies == PapersIndex(b, digests, renderer).value.dependencies
    requires id in PaperIds(a) && id in PaperIds(b)
    ensures FactsOf(a, id).Some? && FactsOf(b, id) == FactsOf(a, id)
  {
    IndexShares(a, digests, renderer);
    IndexShares(b, digests, renderer);
    WholeDemands(a, id, digests);
    WholeDemands(b, id, digests);
    ViewOf(a, id, digests, renderer);
    SharedDependenciesShareFacts(
      Whole(a, digests), Whole(b, digests),
      Members(PapersIndex(a, digests, renderer).value.dependencies), id, digests);
  }

  lemma ViewLink(w: seq<Entry>, id: string, digests: Digests, renderer: Renderer)
    requires PaperView(w, id, digests, renderer).Some?
    ensures LinkOf(PaperView(w, id, digests, renderer).value) ==
      ("Papers/" + id, if renderer.title(FactsOf(w, id).value.paper) == "" then "Untitled"
                       else renderer.title(FactsOf(w, id).value.paper))
  {
    var path := "Papers/" + id + ".md";
    assert path[..|path| - 3] == "Papers/" + id;
  }

  lemma SameLink(a: seq<Entry>, b: seq<Entry>, i: nat, digests: Digests, renderer: Renderer)
    requires AllPaperViews(a, digests, renderer).Some? && AllPaperViews(b, digests, renderer).Some?
    requires PaperIds(a) == PaperIds(b) && i < |Listing.Sorted(PaperIds(a))|
    requires var id := Listing.Sorted(PaperIds(a))[i]; FactsOf(b, id) == FactsOf(a, id)
    ensures |AllPaperViews(a, digests, renderer).value| == |Listing.Sorted(PaperIds(a))|
    ensures |AllPaperViews(b, digests, renderer).value| == |Listing.Sorted(PaperIds(a))|
    ensures LinkOf(AllPaperViews(a, digests, renderer).value[i]) == LinkOf(AllPaperViews(b, digests, renderer).value[i])
  {
    var id := Listing.Sorted(PaperIds(a))[i];
    ViewAt(a, i, digests, renderer);
    ViewAt(b, i, digests, renderer);
    ViewLink(a, id, digests, renderer);
    ViewLink(b, id, digests, renderer);
  }

  /** Equal Papers-index watermarks: the same papers and the same facts behind every view. */
  lemma PapersIndexWatermarkCoversViews(a: seq<Entry>, b: seq<Entry>, digests: Digests, renderer: Renderer)
    requires RecordInjective(digests) && WatermarkInjective(digests)
    requires WellFormed(a) && WellFormed(b)
    requires PapersIndex(a, digests, renderer).Some? && PapersIndex(b, digests, renderer).Some?
    requires Watermark(PapersIndex(a, digests, renderer).value, digests) ==
      Watermark(PapersIndex(b, digests, renderer).value, digests)
    ensures PaperIds(a) == PaperIds(b)
    ensures forall id :: id in PaperIds(a) ==> FactsOf(a, id).Some? && FactsOf(b, id) == FactsOf(a, id)
  {
    PaperIdsAreShared(a, b, digests, renderer);
    PaperIdsAreShared(b, a, digests, renderer);
    forall id | id in PaperIds(a) ensures FactsOf(a, id).Some? && FactsOf(b, id) == FactsOf(a, id) {
      IndexSharesFacts(a, b, id, digests, renderer);
    }
  }

  lemma SameLinks(a: seq<Entry>, b: seq<Entry>, digests: Digests, renderer: Renderer)
    requires AllPaperViews(a, digests, renderer).Some? && AllPaperViews(b, digests, renderer).Some?
    requires PaperIds(a) == PaperIds(b)
    requires forall id :: id in PaperIds(a) ==> FactsOf(b, id) == FactsOf(a, id)
    ensures LinksOf(AllPaperViews(a, digests, renderer).value) == LinksOf(AllPaperViews(b, digests, renderer).value)
  {
    var ids := Listing.Sorted(PaperIds(a));
    Listing.SortedMembers(PaperIds(a));
    ViewCount(a, digests, renderer);
    ViewCount(b, digests, renderer);
    var x, y := AllPaperViews(a, digests, renderer).value, AllPaperViews(b, digests, renderer).value;
    forall i | 0 <= i < |ids| ensures LinkOf(x[i]) == LinkOf(y[i]) {
      assert ids[i] in ids;
      SameLink(a, b, i, digests, renderer);
    }
  }

  /** Two Papers indexes with equal watermarks are equal. */
  lemma PapersIndexWatermarkIsSound(a: seq<Entry>, b: seq<Entry>, digests: Digests, renderer: Renderer)
    requires RecordInjective(digests) && WatermarkInjective(digests)
    requires WellFormed(a) && WellFormed(b)
    requires PapersIndex(a, digests, renderer).Some? && PapersIndex(b, digests, renderer).Some?
    requires Watermark(PapersIndex(a, digests, renderer).value, digests) ==
      Watermark(PapersIndex(b, digests, renderer).value, digests)
    ensures PapersIndex(a, digests, renderer) == PapersIndex(b, digests, renderer)
  {
    PapersIndexWatermarkCoversViews(a, b, digests, renderer);
    SameLinks(a, b, digests, renderer);
  }
}
