/** What a backup carries and what a restore leaves, file by file. */
module BackupContents {
  import opened Wrappers
  import opened BackupArchive
  import opened BackupPlan
  import opened BackupInspection
  import StringOrder
  import Sorting
  import Listing

  // ----- The sources of a workspace -----

  /** A source of a paper: a current head, or the registered file when no head is the main document. */
  ghost predicate SourceOf(w: Workspace, paperId: string, a: Asset) {
    exists q :: q in w.papers && q.paperId == paperId && SourceOfPaper(q, a)
  }

  ghost predicate SourceOfPaper(q: Paper, a: Asset) {
    || a in q.heads
    || (a == Asset(None, "main_pdf", q.rootId, q.relativePath, q.sha256, true, "available")
        && forall h :: h in q.heads ==> h.role != "main_pdf")
  }

  lemma AssetsAre(q: Paper, a: Asset)
    ensures a in AssetsOf(q) <==> SourceOfPaper(q, a)
  {
    Sorting.SortedContents(q.heads, AssetLeq);
  }

  lemma {:induction false} ListedAre(papers: seq<Paper>, l: Listed)
    ensures l in ListAssets(papers) <==> exists q :: q in papers && q.paperId == l.paperId && SourceOfPaper(q, l.asset)
  {
    if papers != [] {
      var assets := AssetsOf(papers[0]);
      var own := seq(|assets|, i requires 0 <= i < |assets| => Listed(papers[0].paperId, assets[i]));
      ListedAre(papers[1..], l);
      AssetsAre(papers[0], l.asset);
      assert ListAssets(papers) == own + ListAssets(papers[1..]);
      if papers[0].paperId == l.paperId && l.asset in assets {
        var i :| 0 <= i < |assets| && assets[i] == l.asset;
        assert own[i] == l;
      }
      assert papers == [papers[0]] + papers[1..];
    }
  }

  lemma SourcesListed(w: Workspace, l: Listed)
    ensures l in AssetsFor(w) <==> SourceOf(w, l.paperId, l.asset)
  {
    ListedAre(Sorting.Sorted(w.papers, PaperLeq), l);
    Sorting.SortedContents(w.papers, PaperLeq);
  }

  // ----- Their bytes -----

  /** A source can be backed up: it is current and available, and its bytes have the recorded digest. */
  predicate Intact(a: Asset, sources: map<(string, string), Bytes>, sha: Bytes -> string) {
    && a.isActive && a.availability == "available"
    && (a.rootId, a.relativePath) in sources && sha(sources[(a.rootId, a.relativePath)]) == a.sha256
  }

  predicate AtPath(a: Asset, path: string) { path == "sources/" + a.rootId + "/" + a.relativePath }

  predicate HasBytes(a: Asset, sources: map<(string, string), Bytes>, content: Bytes) {
    (a.rootId, a.relativePath) in sources && sources[(a.rootId, a.relativePath)] == content
  }

  ghost predicate AllIntact(assets: seq<Listed>, n: nat, sources: map<(string, string), Bytes>, sha: Bytes -> string)
    requires n <= |assets|
  {
    forall i :: 0 <= i < n ==> Intact(assets[i].asset, sources, sha)
  }

  /** Sources that would take one name in the archive have the same bytes. */
  ghost predicate Agreeing(assets: seq<Listed>, n: nat, sources: map<(string, string), Bytes>)
    requires n <= |assets|
  {
    forall i, j, content :: 0 <= i < j < n && PathOf(assets[i]) == PathOf(assets[j]) ==>
      (HasBytes(assets[i].asset, sources, content) <==> HasBytes(assets[j].asset, sources, content))
  }

  ghost predicate Filled(payload: Payload, assets: seq<Listed>, n: nat, sources: map<(string, string), Bytes>)
    requires n <= |assets|
  {
    forall i :: 0 <= i < n ==> PathOf(assets[i]) in payload && HasBytes(assets[i].asset, sources, payload[PathOf(assets[i])])
  }

  ghost predicate FromSource(path: string, content: Bytes, assets: seq<Listed>, n: nat, sources: map<(string, string), Bytes>)
    requires n <= |assets|
  {
    exists i :: 0 <= i < n && PathOf(assets[i]) == path && HasBytes(assets[i].asset, sources, content)
  }

  lemma {:induction false} PayloadFilled(
      assets: seq<Listed>, n: nat, sources: map<(string, string), Bytes>, codec: Codec)
    requires n <= |assets| && SourcePayload(assets, n, true, sources, codec).Ok?
    ensures AllIntact(assets, n, sources, codec.sha)
    ensures Filled(SourcePayload(assets, n, true, sources, codec).value, assets, n, sources)
  {
    if n > 0 {
      PayloadFilled(assets, n - 1, sources, codec);
    }
  }

  lemma {:induction false} PayloadFromSources(
      assets: seq<Listed>, n: nat, sources: map<(string, string), Bytes>, codec: Codec, path: string)
    requires n <= |assets| && SourcePayload(assets, n, true, sources, codec).Ok?
    requires path in SourcePayload(assets, n, true, sources, codec).value
    ensures FromSource(path, SourcePayload(assets, n, true, sources, codec).value[path], assets, n, sources)
  {
    var payload := SourcePayload(assets, n, true, sources, codec).value;
    if path == PathOf(assets[n - 1]) {
      assert HasBytes(assets[n - 1].asset, sources, payload[path]);
    } else {
      PayloadFromSources(assets, n - 1, sources, codec, path);
      var i :| 0 <= i < n - 1 && PathOf(assets[i]) == path && HasBytes(assets[i].asset, sources, payload[path]);
    }
  }

  lemma {:induction false} PayloadMade(
      assets: seq<Listed>, n: nat, sources: map<(string, string), Bytes>, codec: Codec)
    requires n <= |assets| && AllIntact(assets, n, sources, codec.sha) && Agreeing(assets, n, sources)
    ensures SourcePayload(assets, n, true, sources, codec).Ok?
  {
    if n > 0 {
      PayloadMade(assets, n - 1, sources, codec);
      var before, path := SourcePayload(assets, n - 1, true, sources, codec).value, PathOf(assets[n - 1]);
      assert Intact(assets[n - 1].asset, sources, codec.sha);
      if path in before {
        PayloadFromSources(assets, n - 1, sources, codec, path);
        var i :| 0 <= i < n - 1 && PathOf(assets[i]) == path && HasBytes(assets[i].asset, sources, before[path]);
        assert HasBytes(assets[n - 1].asset, sources, before[path]);
      }
    }
  }

  /** Every source is intact, and sources that would take one name in the archive have the same bytes. */
  ghost predicate SourcesFit(w: Workspace, sha: Bytes -> string) {
    && (forall paperId, a :: SourceOf(w, paperId, a) ==> Intact(a, w.sources, sha))
    && forall x, a, y, b, path :: SourceOf(w, x, a) && SourceOf(w, y, b) && AtPath(a, path) && AtPath(b, path) ==>
         forall content :: HasBytes(a, w.sources, content) ==> HasBytes(b, w.sources, content)
  }

  lemma FitIsListed(w: Workspace, sha: Bytes -> string)
    requires SourcesFit(w, sha)
    ensures AllIntact(AssetsFor(w), |AssetsFor(w)|, w.sources, sha) && Agreeing(AssetsFor(w), |AssetsFor(w)|, w.sources)
  {
    var assets := AssetsFor(w);
    forall i | 0 <= i < |assets| ensures SourceOf(w, assets[i].paperId, assets[i].asset) {
      SourcesListed(w, assets[i]);
    }
    forall i, j, content | 0 <= i < j < |assets| && PathOf(assets[i]) == PathOf(assets[j])
      ensures HasBytes(assets[i].asset, w.sources, content) <==> HasBytes(assets[j].asset, w.sources, content)
    {
      assert AtPath(assets[i].asset, PathOf(assets[i])) && AtPath(assets[j].asset, PathOf(assets[i]));
    }
  }

  lemma TakenIsFit(w: Workspace, codec: Codec)
    requires SourcesFor(w, true, codec).Ok?
    ensures SourcesFit(w, codec.sha)
  {
    var assets, payload := AssetsFor(w), SourcesFor(w, true, codec).value;
    PayloadFilled(assets, |assets|, w.sources, codec);
    forall paperId, a | SourceOf(w, paperId, a)
      ensures Intact(a, w.sources, codec.sha)
      ensures forall path :: AtPath(a, path) ==> path in payload && HasBytes(a, w.sources, payload[path])
    {
      SourcesListed(w, Listed(paperId, a));
      var i :| 0 <= i < |assets| && assets[i] == Listed(paperId, a);
      assert PathOf(assets[i]) in payload;
    }
  }

  lemma SourcesTaken(w: Workspace, codec: Codec)
    ensures SourcesFor(w, true, codec).Ok? <==> SourcesFit(w, codec.sha)
  {
    if SourcesFor(w, true, codec).Ok? {
      TakenIsFit(w, codec);
    } else if SourcesFit(w, codec.sha) {
      FitIsListed(w, codec.sha);
      PayloadMade(AssetsFor(w), |AssetsFor(w)|, w.sources, codec);
    }
  }

  // ----- What a backup carries -----

  /** Knowledge that is backed up: all but the workspace marker, the lock and the generated views. */
  predicate Backed(relative: string) {
    && relative != ".research-kb/workspace.json" && relative != ".research-kb/locks/workspace.lock"
    && !(|relative| >= 15 && relative[..15] == "views/obsidian/")
  }

  ghost predicate CarriesKnowledge(w: Workspace, path: string, content: Bytes) {
    exists r :: r in w.knowledge && Backed(r) && path == "knowledge/" + r && content == w.knowledge[r]
  }

  ghost predicate CarriesSource(w: Workspace, path: string, content: Bytes) {
    exists paperId, a :: SourceOf(w, paperId, a) && AtPath(a, path) && HasBytes(a, w.sources, content)
  }

  /** A backup carries a file under a name. */
  ghost predicate Carries(w: Workspace, withSources: bool, path: string, content: Bytes, codec: Codec) {
    || (path == "config/workspace.json" && content == codec.writeConfig(w.config))
    || (path == "config/domain-profile.json" && content == w.profile)
    || CarriesKnowledge(w, path, content)
    || (withSources && CarriesSource(w, path, content))
  }

  lemma KnowledgeCarried(w: Workspace, path: string, content: Bytes)
    ensures path in KnowledgePayload(w.knowledge) && KnowledgePayload(w.knowledge)[path] == content <==> CarriesKnowledge(w, path, content)
  {
    if path in KnowledgePayload(w.knowledge) {
      PrefixedNames(w.knowledge.Keys, path);
      var r :| r in w.knowledge.Keys && BackupPlan.Carried(r) && path == "knowledge/" + r;
      assert path[10..] == r;
    }
    if r :| r in w.knowledge && Backed(r) && path == "knowledge/" + r && content == w.knowledge[r] {
      assert path[10..] == r;
      assert path in Prefixed(w.knowledge.Keys);
    }
  }

  lemma SourceCarried(w: Workspace, codec: Codec, path: string, content: Bytes)
    requires SourcesFor(w, true, codec).Ok?
    ensures var sources := SourcesFor(w, true, codec).value;
      path in sources && sources[path] == content <==> CarriesSource(w, path, content)
  {
    var assets := AssetsFor(w);
    var sources := SourcesFor(w, true, codec).value;
    PayloadFilled(assets, |assets|, w.sources, codec);
    if path in sources {
      PayloadFromSources(assets, |assets|, w.sources, codec, path);
      var i :| 0 <= i < |assets| && PathOf(assets[i]) == path && HasBytes(assets[i].asset, w.sources, sources[path]);
      assert assets[i] in assets;
      SourcesListed(w, assets[i]);
      assert AtPath(assets[i].asset, path);
    }
    if CarriesSource(w, path, content) {
      var paperId, a :| SourceOf(w, paperId, a) && AtPath(a, path) && HasBytes(a, w.sources, content);
      SourcesListed(w, Listed(paperId, a));
      var i :| 0 <= i < |assets| && assets[i] == Listed(paperId, a);
    }
  }

  /** One of three parts with disjoint names. */
  lemma MergedAt(control: Payload, knowledge: Payload, sources: Payload, path: string, content: Bytes)
    requires path in control ==> path !in knowledge && path !in sources
    requires path in knowledge ==> path !in sources
    ensures var all := control + knowledge + sources;
      path in all && all[path] == content <==>
        || (path in control && control[path] == content) || (path in knowledge && knowledge[path] == content)
        || (path in sources && sources[path] == content)
  {
  }

  lemma ControlCarried(w: Workspace, codec: Codec, path: string, content: Bytes)
    ensures var control := ControlPayload(w, codec);
      && (path in control <==> path == "config/workspace.json" || path == "config/domain-profile.json")
      && (path in control && control[path] == content <==>
            || (path == "config/workspace.json" && content == codec.writeConfig(w.config))
            || (path == "config/domain-profile.json" && content == w.profile))
  {
    ControlNames();
  }

  /** The payload of a workspace, whether or not its names fit. */
  ghost function PayloadFor(w: Workspace, withSources: bool, codec: Codec): Payload
    requires SourcesFor(w, withSources, codec).Ok?
  {
    ControlPayload(w, codec) + KnowledgePayload(w.knowledge) + SourcesFor(w, withSources, codec).value
  }

  lemma NamesApart(w: Workspace, withSources: bool, codec: Codec, path: string)
    requires SourcesFor(w, withSources, codec).Ok?
    ensures path in KnowledgePayload(w.knowledge) || path in SourcesFor(w, withSources, codec).value ==>
      path != "config/workspace.json" && path != "config/domain-profile.json"
    ensures path in KnowledgePayload(w.knowledge) ==> path !in SourcesFor(w, withSources, codec).value
  {
    if path in KnowledgePayload(w.knowledge) {
      KnowledgeNames(w.knowledge, path);
    }
    if path in SourcesFor(w, withSources, codec).value {
      SourceNames(w, withSources, codec, path);
    }
  }

  lemma PayloadCarries(w: Workspace, withSources: bool, codec: Codec, path: string, content: Bytes)
    requires SourcesFor(w, withSources, codec).Ok?
    ensures path in PayloadFor(w, withSources, codec) && PayloadFor(w, withSources, codec)[path] == content <==>
      Carries(w, withSources, path, content, codec)
  {
    NamesApart(w, withSources, codec, path);
    ControlCarried(w, codec, path, content);
    KnowledgeCarried(w, path, content);
    if withSources {
      SourceCarried(w, codec, path, content);
    } else {
      assert SourcesFor(w, withSources, codec).value == map[];
    }
    MergedAt(ControlPayload(w, codec), KnowledgePayload(w.knowledge), SourcesFor(w, withSources, codec).value, path, content);
  }

  // ----- The inventory -----

  /** The inventory entry of a source. */
  function Entry(paperId: string, a: Asset, withSources: bool): Item {
    Item(paperId, a.id, a.role, a.rootId, a.relativePath, a.sha256, a.availability,
         if withSources then Some("sources/" + a.rootId + "/" + a.relativePath) else None)
  }

  /** By paper, then by role, then by asset, no asset first. */
  ghost predicate InOrder(inventory: seq<Item>) {
    forall i, j :: 0 <= i < j < |inventory| ==>
      var a, b := inventory[i], inventory[j];
      && StringOrder.Leq(a.paperId, b.paperId)
      && (a.paperId == b.paperId ==> StringOrder.Leq(a.role, b.role))
      && (a.paperId == b.paperId && a.role == b.role && a.assetId.Some? && a.assetId.value != "" ==>
            b.assetId.Some? && StringOrder.Leq(a.assetId.value, b.assetId.value))
  }

  lemma InventoryLists(p: Plan, w: Workspace, withSources: bool, codec: Codec, reader: Reader, item: Item)
    requires Planned(p, w, withSources, codec, reader)
    ensures item in p.inventory <==> exists paperId, a :: SourceOf(w, paperId, a) && item == Entry(paperId, a, withSources)
  {
    var assets := AssetsFor(w);
    PlanParts(p, w, withSources, codec, reader);
    InventorySorted(assets, withSources);
    if item in p.inventory {
      var i :| 0 <= i < |assets| && ItemOf(assets[i], withSources) == item;
      assert assets[i] in assets;
      SourcesListed(w, assets[i]);
      assert item == Entry(assets[i].paperId, assets[i].asset, withSources);
    }
    if paperId, a :| SourceOf(w, paperId, a) && item == Entry(paperId, a, withSources) {
      SourcesListed(w, Listed(paperId, a));
      var i :| 0 <= i < |assets| && assets[i] == Listed(paperId, a);
      assert ItemOf(assets[i], withSources) == item;
    }
  }

  lemma InventoryOrdered(p: Plan, w: Workspace, withSources: bool, codec: Codec, reader: Reader)
    requires Planned(p, w, withSources, codec, reader)
    ensures InOrder(p.inventory)
  {
    PlanParts(p, w, withSources, codec, reader);
    ItemOrder();
    Sorting.SortedOrders(Items(AssetsFor(w), withSources), ItemLeq);
    forall i, j | 0 <= i < j < |p.inventory| ensures ItemLeq(p.inventory[i], p.inventory[j]) {
    }
    forall s: string ensures StringOrder.Leq(s, s) {
      StringOrder.LeqReflexive(s);
    }
  }

  // ----- The whole plan -----

  /** Names that are all safe, and apart also when folded. */
  ghost predicate NamesFit(w: Workspace, withSources: bool, codec: Codec, reader: Reader) {
    && (forall path, content :: Carries(w, withSources, path, content, codec) ==> reader.safeName(path))
    && forall a, b, x, y :: a != b && Carries(w, withSources, a, x, codec) && Carries(w, withSources, b, y, codec) ==>
         codec.casefold(a) != codec.casefold(b)
  }

  /**
   A plan holds a file under a name exactly when the backup carries it: the two control records, the
   knowledge but for marker, lock and views, and with sources the bytes of every source of every paper. Its
   inventory lists exactly those sources, in order, whether or not their bytes are carried.
   */
  lemma PlanHolds(p: Plan, w: Workspace, withSources: bool, codec: Codec, reader: Reader)
    requires Planned(p, w, withSources, codec, reader)
    ensures p.mode == if withSources then Included else InventoryOnly
    ensures forall path, content :: path in p.payload && p.payload[path] == content <==> Carries(w, withSources, path, content, codec)
    ensures forall item :: item in p.inventory <==> exists paperId, a :: SourceOf(w, paperId, a) && item == Entry(paperId, a, withSources)
    ensures InOrder(p.inventory)
    ensures NamesFit(w, withSources, codec, reader)
  {
    PlanParts(p, w, withSources, codec, reader);
    forall path, content
      ensures path in p.payload && p.payload[path] == content <==> Carries(w, withSources, path, content, codec)
    {
      PayloadCarries(w, withSources, codec, path, content);
    }
    forall item
      ensures item in p.inventory <==> exists paperId, a :: SourceOf(w, paperId, a) && item == Entry(paperId, a, withSources)
    {
      InventoryLists(p, w, withSources, codec, reader, item);
    }
    InventoryOrdered(p, w, withSources, codec, reader);
    FoldedApart(p.payload, codec);
  }

  lemma FoldedApart(payload: Payload, codec: Codec)
    ensures CollisionFree(Listing.Sorted(payload.Keys), codec) <==>
      forall a, b :: a in payload && b in payload && a != b ==> codec.casefold(a) != codec.casefold(b)
  {
    var names := Listing.Sorted(payload.Keys);
    Listing.SortedListsSet(payload.Keys);
    if CollisionFree(names, codec) {
      forall a, b | a in payload && b in payload && a != b ensures codec.casefold(a) != codec.casefold(b) {
        var i :| 0 <= i < |names| && names[i] == a;
        var j :| 0 <= j < |names| && names[j] == b;
        assert codec.casefold(names[i]) != codec.casefold(names[j]);
      }
    } else if forall a, b :: a in payload && b in payload && a != b ==> codec.casefold(a) != codec.casefold(b) {
      forall i, j | 0 <= i < j < |names| ensures codec.casefold(names[i]) != codec.casefold(names[j]) {
        assert names[i] in names && names[j] in names;
      }
    }
  }

  lemma PlanWhen(w: Workspace, withSources: bool, codec: Codec, reader: Reader, names: seq<string>)
    requires SourcesFor(w, withSources, codec).Ok? && names == Listing.Sorted(PayloadFor(w, withSources, codec).Keys)
    ensures PlanOf(w, withSources, codec, reader).Ok? <==>
      (forall name :: name in names ==> reader.safeName(name)) && CollisionFree(names, codec)
  {
  }

  /** A workspace can be backed up exactly when its names fit and, with sources, every source does. */
  lemma PlanSucceeds(w: Workspace, withSources: bool, codec: Codec, reader: Reader)
    ensures PlanOf(w, withSources, codec, reader).Ok? <==>
      (withSources ==> SourcesFit(w, codec.sha)) && NamesFit(w, withSources, codec, reader)
  {
    SourcesTaken(w, codec);
    if SourcesFor(w, withSources, codec).Ok? {
      var payload := PayloadFor(w, withSources, codec);
      PlanWhen(w, withSources, codec, reader, Listing.Sorted(payload.Keys));
      Listing.SortedMembers(payload.Keys);
      FoldedApart(payload, codec);
      forall path, content
        ensures path in payload && payload[path] == content <==> Carries(w, withSources, path, content, codec)
      {
        PayloadCarries(w, withSources, codec, path, content);
      }
      NamesOfPayload(payload, w, withSources, codec, reader);
    }
  }

  lemma NamesOfPayload(payload: Payload, w: Workspace, withSources: bool, codec: Codec, reader: Reader)
    requires forall path, content :: path in payload && payload[path] == content <==> Carries(w, withSources, path, content, codec)
    ensures NamesFit(w, withSources, codec, reader) <==>
      && (forall path :: path in payload ==> reader.safeName(path))
      && (forall a, b :: a in payload && b in payload && a != b ==> codec.casefold(a) != codec.casefold(b))
  {
    assert forall path :: path in payload ==> Carries(w, withSources, path, payload[path], codec);
  }
}
