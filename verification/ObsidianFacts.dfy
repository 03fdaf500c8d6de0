/** What a paper view shows, read off the records of the workspace. */
module ObsidianFacts {
  import opened Wrappers
  import opened Records
  import opened Selection
  import opened PrimaryBundles
  import opened ObsidianViews
  import ObsidianWatermarks
  import Listing
  import Sorting
  import StringOrder

  // ----- Tags -----

  /** The one revision of a tag that carries its active id. */
  ghost predicate ActiveAt(tag: TagBundle, r: TagRevision) {
    exists i :: 0 <= i < |tag.revisions| && tag.revisions[i] == r && r.revisionId == tag.activeId
      && forall j :: 0 <= j < |tag.revisions| && j != i ==> tag.revisions[j].revisionId != tag.activeId
  }

  /** The one revision of a link that carries its active id assigns the tag. */
  ghost predicate AssignedAt(link: TagLinkBundle) {
    exists i :: 0 <= i < |link.revisions| && link.revisions[i].revisionId == link.activeId && link.revisions[i].isAssigned
      && forall j :: 0 <= j < |link.revisions| && j != i ==> link.revisions[j].revisionId != link.activeId
  }

  /** The last record of a tag id that has an active revision, and that revision. */
  ghost predicate CurrentTag(w: seq<Entry>, tagId: string, r: TagRevision) {
    exists k :: 0 <= k < |w| && HasTag(w[k], tagId, r)
      && forall j, other :: k < j < |w| ==> !HasTag(w[j], tagId, other)
  }

  ghost predicate HasTag(e: Entry, tagId: string, r: TagRevision) {
    e.TagEntry? && e.tag.tagId == tagId && ActiveAt(e.tag, r)
  }

  /** A link in the workspace puts an active tag of this name on the target. */
  ghost predicate Shown(w: seq<Entry>, targetKind: string, targetId: string, name: string) {
    exists link, r :: TagLinkEntry(link) in w && link.targetKind == targetKind && link.targetId == targetId
      && AssignedAt(link) && CurrentTag(w, link.tagId, r) && r.active && r.name == name
  }

  lemma {:induction false} FilterOne<T(!new)>(s: seq<T>, keep: T -> bool, i: nat)
    requires i < |s| && keep(s[i]) && forall j :: 0 <= j < |s| && j != i ==> !keep(s[j])
    ensures Filter(s, keep) == [s[i]]
  {
    var init := s[..|s| - 1];
    if i == |s| - 1 {
      FilterNone(init, keep);
    } else {
      assert init[i] == s[i];
      FilterOne(init, keep, i);
    }
  }

  lemma {:induction false} FilterNone<T(!new)>(s: seq<T>, keep: T -> bool)
    requires forall j :: 0 <= j < |s| ==> !keep(s[j])
    ensures Filter(s, keep) == []
  {
    if s != [] {
      FilterNone(s[..|s| - 1], keep);
    }
  }

  lemma NoneFiltered<T(!new)>(s: seq<T>, keep: T -> bool)
    requires Filter(s, keep) == []
    ensures forall j :: 0 <= j < |s| ==> !keep(s[j])
  {
    FilterContents(s, keep);
    forall j | 0 <= j < |s| ensures !keep(s[j]) {
      assert s[j] in s;
    }
  }

  lemma {:induction false} FilterSingle<T(!new)>(s: seq<T>, keep: T -> bool) returns (i: nat)
    requires |Filter(s, keep)| == 1
    ensures i < |s| && keep(s[i]) && Filter(s, keep) == [s[i]]
    ensures forall j :: 0 <= j < |s| && j != i ==> !keep(s[j])
  {
    var init := s[..|s| - 1];
    if keep(s[|s| - 1]) {
      i := |s| - 1;
      NoneFiltered(init, keep);
    } else {
      i := FilterSingle(init, keep);
    }
  }

  lemma ActiveTagMeans(tag: TagBundle, r: TagRevision)
    ensures ActiveTag(tag) == Some(r) <==> ActiveAt(tag, r)
  {
    var keep := (r: TagRevision) => r.revisionId == tag.activeId;
    if ActiveTag(tag) == Some(r) {
      var i := FilterSingle(tag.revisions, keep);
      forall j | 0 <= j < |tag.revisions| && j != i ensures tag.revisions[j].revisionId != tag.activeId {
        assert !keep(tag.revisions[j]);
      }
    }
    if ActiveAt(tag, r) {
      var i :| 0 <= i < |tag.revisions| && tag.revisions[i] == r && r.revisionId == tag.activeId
        && forall j :: 0 <= j < |tag.revisions| && j != i ==> tag.revisions[j].revisionId != tag.activeId;
      FilterOne(tag.revisions, keep, i);
    }
  }

  lemma AssignedMeans(link: TagLinkBundle)
    ensures Assigned(link) <==> AssignedAt(link)
  {
    var keep := (r: LinkRevision) => r.revisionId == link.activeId;
    if Assigned(link) {
      var i := FilterSingle(link.revisions, keep);
      forall j | 0 <= j < |link.revisions| && j != i ensures link.revisions[j].revisionId != link.activeId {
        assert !keep(link.revisions[j]);
      }
    }
    if AssignedAt(link) {
      var i :| 0 <= i < |link.revisions| && link.revisions[i].revisionId == link.activeId && link.revisions[i].isAssigned
        && forall j :: 0 <= j < |link.revisions| && j != i ==> link.revisions[j].revisionId != link.activeId;
      FilterOne(link.revisions, keep, i);
    }
  }

  /** Whether a record is one of a tag id with an active revision, and which. */
  lemma HasTagMeans(e: Entry, tagId: string)
    ensures var found := e.TagEntry? && e.tag.tagId == tagId && ActiveTag(e.tag).Some?;
      && (found <==> exists other :: HasTag(e, tagId, other))
      && forall r :: HasTag(e, tagId, r) <==> found && ActiveTag(e.tag) == Some(r)
  {
    if e.TagEntry? {
      forall r ensures ActiveTag(e.tag) == Some(r) <==> ActiveAt(e.tag, r) {
        ActiveTagMeans(e.tag, r);
      }
      if e.tag.tagId == tagId && ActiveTag(e.tag).Some? {
        assert HasTag(e, tagId, ActiveTag(e.tag).value);
      }
    }
  }

  lemma {:induction false} CurrentTagMeans(w: seq<Entry>, tagId: string, r: TagRevision)
    ensures TagOf(w, tagId) == Some(r) <==> CurrentTag(w, tagId, r)
  {
    if w != [] {
      var init, last := w[..|w| - 1], w[|w| - 1];
      assert w == init + [last];
      CurrentTagMeans(init, tagId, r);
      HasTagMeans(last, tagId);
      CurrentTagLonger(init, last, tagId, r);
    }
  }

  lemma CurrentTagLonger(init: seq<Entry>, last: Entry, tagId: string, r: TagRevision)
    ensures CurrentTag(init + [last], tagId, r) <==>
      HasTag(last, tagId, r) || ((forall other :: !HasTag(last, tagId, other)) && CurrentTag(init, tagId, r))
  {
    var w := init + [last];
    if CurrentTag(w, tagId, r) {
      var k :| 0 <= k < |w| && HasTag(w[k], tagId, r) && forall j, other :: k < j < |w| ==> !HasTag(w[j], tagId, other);
      if k < |init| {
        assert init[k] == w[k] && w[|init|] == last;
        forall j, other | k < j < |init| ensures !HasTag(init[j], tagId, other) {
          assert w[j] == init[j];
        }
      }
    }
    if HasTag(last, tagId, r) {
      assert w[|init|] == last;
    } else if (forall other :: !HasTag(last, tagId, other)) && CurrentTag(init, tagId, r) {
      var k :| 0 <= k < |init| && HasTag(init[k], tagId, r) && forall j, other :: k < j < |init| ==> !HasTag(init[j], tagId, other);
      assert w[k] == init[k];
      forall j, other | k < j < |w| ensures !HasTag(w[j], tagId, other) {
        assert w[j] == if j < |init| then init[j] else last;
      }
    }
  }

  /** A view shows a tag name exactly when an assigned link of its target names a current, active tag of that name. */
  lemma ShownTags(w: seq<Entry>, targetKind: string, targetId: string, name: string)
    ensures name in TagNames(w, Target(targetKind, targetId)) <==> Shown(w, targetKind, targetId, name)
  {
    var target := Target(targetKind, targetId);
    if name in TagNames(w, target) {
      var e :| e in w && TagsTarget(w, e, target) && TagName(w, e) == name;
      var r := TagOf(w, e.link.tagId).value;
      AssignedMeans(e.link);
      CurrentTagMeans(w, e.link.tagId, r);
      assert e == TagLinkEntry(e.link);
    }
    if Shown(w, targetKind, targetId, name) {
      var link, r :| TagLinkEntry(link) in w && link.targetKind == targetKind && link.targetId == targetId
        && AssignedAt(link) && CurrentTag(w, link.tagId, r) && r.active && r.name == name;
      AssignedMeans(link);
      CurrentTagMeans(w, link.tagId, r);
      assert TagsTarget(w, TagLinkEntry(link), target);
      assert TagName(w, TagLinkEntry(link)) == name;
    }
  }

  // ----- Profile, paper, card and evidence -----

  ghost predicate FirstProfile(w: seq<Entry>, profile: Profile) {
    exists k :: 0 <= k < |w| && w[k] == ProfileEntry(profile) && forall j :: 0 <= j < k ==> !w[j].ProfileEntry?
  }

  ghost predicate LastPaper(w: seq<Entry>, paper: Paper) {
    exists k :: 0 <= k < |w| && w[k] == PaperEntry(paper)
      && forall j :: k < j < |w| ==> !(w[j].PaperEntry? && w[j].paper.paperId == paper.paperId)
  }

  ghost predicate LastCard(records: seq<Entry>, card: Card) {
    exists k :: 0 <= k < |records| && records[k] == CardEntry(card)
      && forall j :: k < j < |records| ==> !(records[j].CardEntry? && records[j].card.paperId == card.paperId)
  }

  lemma {:induction false} ProfileFound(w: seq<Entry>)
    ensures ProfileOf(w).None? <==> forall j :: 0 <= j < |w| ==> !w[j].ProfileEntry?
    ensures ProfileOf(w).Some? ==> FirstProfile(w, ProfileOf(w).value)
  {
    if w != [] {
      ProfileFound(w[1..]);
      if w[0].ProfileEntry? {
        assert w[0] == ProfileEntry(w[0].profile);
      } else if ProfileOf(w).Some? {
        var profile := ProfileOf(w).value;
        var k :| 0 <= k < |w[1..]| && w[1..][k] == ProfileEntry(profile) && forall j :: 0 <= j < k ==> !w[1..][j].ProfileEntry?;
        assert w[k + 1] == ProfileEntry(profile);
        forall j | 0 <= j < k + 1 ensures !w[j].ProfileEntry? {
          assert j > 0 ==> w[j] == w[1..][j - 1];
        }
      } else {
        forall j | 0 <= j < |w| ensures !w[j].ProfileEntry? {
          assert j > 0 ==> w[j] == w[1..][j - 1];
        }
      }
    }
  }

  lemma {:induction false} PaperFound(w: seq<Entry>, paperId: string)
    ensures PaperOf(w, paperId).None? <==> forall j :: 0 <= j < |w| ==> !(w[j].PaperEntry? && w[j].paper.paperId == paperId)
    ensures PaperOf(w, paperId).Some? ==> PaperOf(w, paperId).value.paperId == paperId && LastPaper(w, PaperOf(w, paperId).value)
  {
    if w != [] {
      var init, last := w[..|w| - 1], w[|w| - 1];
      PaperFound(init, paperId);
      assert w == init + [last];
      if last.PaperEntry? && last.paper.paperId == paperId {
        assert w[|w| - 1] == PaperEntry(last.paper);
      } else if PaperOf(init, paperId).Some? {
        var paper := PaperOf(init, paperId).value;
        var k :| 0 <= k < |init| && init[k] == PaperEntry(paper)
          && forall j :: k < j < |init| ==> !(init[j].PaperEntry? && init[j].paper.paperId == paper.paperId);
        assert w[k] == PaperEntry(paper);
      }
    }
  }

  lemma {:induction false} CardFound(records: seq<Entry>, paperId: string)
    ensures CardIn(records, paperId).None? <==>
      forall j :: 0 <= j < |records| ==> !(records[j].CardEntry? && records[j].card.paperId == paperId)
    ensures CardIn(records, paperId).Some? ==>
      CardIn(records, paperId).value.paperId == paperId && LastCard(records, CardIn(records, paperId).value)
  {
    if records != [] {
      var init, last := records[..|records| - 1], records[|records| - 1];
      CardFound(init, paperId);
      assert records == init + [last];
      if last.CardEntry? && last.card.paperId == paperId {
        assert records[|records| - 1] == CardEntry(last.card);
      } else if CardIn(init, paperId).Some? {
        var card := CardIn(init, paperId).value;
        var k :| 0 <= k < |init| && init[k] == CardEntry(card)
          && forall j :: k < j < |init| ==> !(init[j].CardEntry? && init[j].card.paperId == card.paperId);
        assert records[k] == CardEntry(card);
      }
    }
  }

  ghost predicate IsMember(e: Entry, w: seq<Entry>) {
    e in w || exists b :: BundleEntry(b) in w && e in ActiveEntries(b)
  }

  lemma MaterialisedMembers(w: seq<Entry>, e: Entry)
    ensures e in Materialised(w) <==> IsMember(e, w)
  {
    ObsidianWatermarks.ActiveChildrenContents(w, e);
    if e in ActiveChildren(w, |w|) {
      var k :| 0 <= k < |w| && e in ActivePart(w[k]);
      assert w[k] == BundleEntry(w[k].bundle) && w[k] in w;
    }
    if b :| BundleEntry(b) in w && e in ActiveEntries(b) {
      var k :| 0 <= k < |w| && w[k] == BundleEntry(b);
      assert e in ActivePart(w[k]);
    }
  }

  lemma IdOrder()
    ensures Sorting.TotalPreorder(IdLeq)
  {
    forall a, b ensures IdLeq(a, b) || IdLeq(b, a) {
      StringOrder.LeqTotal(KeyOf(a).id, KeyOf(b).id);
    }
    forall a, b, c | IdLeq(a, b) && IdLeq(b, c) ensures IdLeq(a, c) {
      StringOrder.LeqTransitive(KeyOf(a).id, KeyOf(b).id, KeyOf(c).id);
    }
  }

  /** The evidence of a paper, standalone or in an active revision, by ascending id. */
  ghost predicate EvidenceShown(w: seq<Entry>, paperId: string, evidence: seq<Entry>) {
    && (forall e :: e in evidence <==> IsMember(e, w) && e.EvidenceEntry? && e.evidence.paperId == paperId)
    && forall i, j :: 0 <= i < j < |evidence| ==> StringOrder.Leq(KeyOf(evidence[i]).id, KeyOf(evidence[j]).id)
  }

  lemma EvidenceFound(w: seq<Entry>, paperId: string)
    ensures EvidenceShown(w, paperId, Sorting.Sorted(EvidenceOf(w, paperId), IdLeq))
  {
    var evidence := EvidenceOf(w, paperId);
    IdOrder();
    Sorting.SortedOrders(evidence, IdLeq);
    Sorting.SortedContents(evidence, IdLeq);
    FilterContents(Materialised(w), (e: Entry) => IsEvidenceOf(e, paperId));
    forall e ensures e in Materialised(w) <==> IsMember(e, w) {
      MaterialisedMembers(w, e);
    }
  }

  ghost predicate TagsShown(w: seq<Entry>, paperId: string, tags: seq<string>) {
    && (forall name :: name in tags <==> Shown(w, "paper", paperId, name))
    && forall i, j :: 0 <= i < j < |tags| ==> StringOrder.Leq(tags[i], tags[j]) && tags[i] != tags[j]
  }

  /**
   A paper view is rendered from the first profile, the last record of the paper, the last card among
   the records and the active revisions of bundles, the names of the tags shown, each once in order, and
   all the evidence of the paper by id; it needs a profile, a paper and a card.
   */
  lemma FactsAreRecords(w: seq<Entry>, paperId: string)
    ensures FactsOf(w, paperId).None? <==>
      || (forall j :: 0 <= j < |w| ==> !w[j].ProfileEntry?)
      || (forall j :: 0 <= j < |w| ==> !(w[j].PaperEntry? && w[j].paper.paperId == paperId))
      || (forall e :: IsMember(e, w) ==> !(e.CardEntry? && e.card.paperId == paperId))
    ensures FactsOf(w, paperId).Some? ==>
      var facts := FactsOf(w, paperId).value;
      && FirstProfile(w, facts.profile)
      && facts.paper.paperId == paperId && LastPaper(w, facts.paper)
      && facts.card.paperId == paperId && LastCard(Materialised(w), facts.card)
      && TagsShown(w, paperId, facts.tags) && EvidenceShown(w, paperId, facts.evidence)
  {
    ProfileFound(w);
    PaperFound(w, paperId);
    CardFound(Materialised(w), paperId);
    CardMembers(w, paperId);
    if FactsOf(w, paperId).Some? {
      EvidenceFound(w, paperId);
      TagsFound(w, paperId);
    }
  }

  lemma CardMembers(w: seq<Entry>, paperId: string)
    ensures var records := Materialised(w);
      (forall j :: 0 <= j < |records| ==> !(records[j].CardEntry? && records[j].card.paperId == paperId)) <==>
      forall e :: IsMember(e, w) ==> !(e.CardEntry? && e.card.paperId == paperId)
  {
    var records := Materialised(w);
    forall e ensures e in records <==> IsMember(e, w) {
      MaterialisedMembers(w, e);
    }
    forall j | 0 <= j < |records| ensures IsMember(records[j], w) {
      assert records[j] in records;
    }
    if forall j :: 0 <= j < |records| ==> !(records[j].CardEntry? && records[j].card.paperId == paperId) {
      forall e | IsMember(e, w) ensures !(e.CardEntry? && e.card.paperId == paperId) {
        assert e in records;
        var j :| 0 <= j < |records| && records[j] == e;
      }
    }
  }

  lemma TagsFound(w: seq<Entry>, paperId: string)
    ensures TagsShown(w, paperId, Listing.Sorted(TagNames(w, Target("paper", paperId))))
  {
    var names := TagNames(w, Target("paper", paperId));
    Listing.SortedMembers(names);
    Listing.SortedAscends(names);
    forall name ensures name in names <==> Shown(w, "paper", paperId, name) {
      ShownTags(w, "paper", paperId, name);
    }
  }
}
