/** What an accepted Primary bundle holds, record by record. */
module PrimaryBundleRules {
  import opened Wrappers
  import opened Records
  import opened Concatenation
  import opened Selection
  import opened PrimaryBundles

  // ----- Identifiers -----

  /** A revision introduces an identifier: of evidence, of a queue item, or of a unit of its card. */
  ghost predicate Introduces(r: Revision, id: string) {
    || (exists e :: e in r.evidence && e.id == id)
    || (exists q :: q in r.queue && q.id == id)
    || exists section, u :: section in r.card.sections && u in section.units && u.id == id
  }

  lemma {:induction false} ChildIdsMembers(children: seq<Child>, n: nat, id: string)
    requires n <= |children|
    ensures id in ChildIds(children, n) <==> exists k :: 0 <= k < n && children[k].id == Some(id)
  {
    if n > 0 {
      ChildIdsMembers(children, n - 1, id);
    }
  }

  lemma ChildrenMembers(r: Revision, id: string)
    ensures id in ChildIds(ChildrenOf(r), |ChildrenOf(r)|) <==>
      (exists e :: e in r.evidence && e.id == id) || (exists q :: q in r.queue && q.id == id)
  {
    var children := ChildrenOf(r);
    ChildIdsMembers(children, |children|, id);
    if e :| e in r.evidence && e.id == id {
      var i :| 0 <= i < |r.evidence| && r.evidence[i] == e;
      assert children[1 + i].id == Some(id);
    }
    if q :| q in r.queue && q.id == id {
      var i :| 0 <= i < |r.queue| && r.queue[i] == q;
      assert children[1 + |r.evidence| + i].id == Some(id);
    }
    if k :| 0 <= k < |children| && children[k].id == Some(id) {
      if 1 <= k <= |r.evidence| {
        assert r.evidence[k - 1] in r.evidence && r.evidence[k - 1].id == id;
      } else {
        assert r.queue[k - 1 - |r.evidence|] in r.queue && r.queue[k - 1 - |r.evidence|].id == id;
      }
    }
  }

  lemma {:induction false} UnitMembers(sections: seq<Section>, n: nat, id: string)
    requires n <= |sections|
    ensures id in SectionUnitIds(sections, n) <==>
      exists k, i :: 0 <= k < n && 0 <= i < |sections[k].units| && sections[k].units[i].id == id
  {
    if n > 0 {
      UnitMembers(sections, n - 1, id);
      var units := sections[n - 1].units;
      if id in UnitIds(units) {
        var i :| 0 <= i < |UnitIds(units)| && UnitIds(units)[i] == id;
        assert units[i].id == id;
      }
      if i :| 0 <= i < |units| && units[i].id == id {
        assert UnitIds(units)[i] == id;
      }
    }
  }

  lemma UnitIdsOfMembers(r: Revision, id: string)
    ensures id in UnitIdsOf(r) <==> exists section, u :: section in r.card.sections && u in section.units && u.id == id
  {
    var sections := r.card.sections;
    UnitMembers(sections, |sections|, id);
    if section, u :| section in sections && u in section.units && u.id == id {
      var k :| 0 <= k < |sections| && sections[k] == section;
      var i :| 0 <= i < |section.units| && section.units[i] == u;
      assert sections[k].units[i].id == id;
    }
    if k, i :| 0 <= k < |sections| && 0 <= i < |sections[k].units| && sections[k].units[i].id == id {
      assert sections[k] in sections && sections[k].units[i] in sections[k].units;
    }
  }

  lemma IdsOfMembers(r: Revision, id: string)
    ensures id in IdsOf(r) <==> Introduces(r, id)
  {
    ChildrenMembers(r, id);
    UnitIdsOfMembers(r, id);
  }

  // ----- No identifier twice -----

  ghost predicate Apart(a: seq<string>, b: seq<string>) { forall x :: x in a ==> x !in b }

  lemma NoRepeatsJoin(a: seq<string>, b: seq<string>)
    ensures NoRepeats(a + b) <==> NoRepeats(a) && NoRepeats(b) && Apart(a, b)
  {
    var whole := a + b;
    if NoRepeats(whole) {
      forall i, j | 0 <= i < j < |a| ensures a[i] != a[j] {
        assert whole[i] == a[i] && whole[j] == a[j];
      }
      forall i, j | 0 <= i < j < |b| ensures b[i] != b[j] {
        assert whole[|a| + i] == b[i] && whole[|a| + j] == b[j];
      }
      forall i, j | 0 <= i < |a| && 0 <= j < |b| ensures a[i] != b[j] {
        assert whole[i] == a[i] && whole[|a| + j] == b[j];
      }
    }
    if NoRepeats(a) && NoRepeats(b) && Apart(a, b) {
      forall i, j | 0 <= i < j < |whole| ensures whole[i] != whole[j] {
        assert whole[i] in a || whole[i] in b;
        assert i < |a| <= j ==> a[i] in a && b[j - |a|] in b;
      }
    }
  }

  ghost predicate PartsOnce(parts: seq<seq<string>>, n: nat)
    requires n <= |parts|
  {
    && (forall i :: 0 <= i < n ==> NoRepeats(parts[i]))
    && forall i, j :: 0 <= i < j < n ==> Apart(parts[i], parts[j])
  }

  lemma {:induction false} FlattenOnce(parts: seq<seq<string>>, n: nat)
    requires n <= |parts|
    ensures NoRepeats(Flatten(parts, n)) <==> PartsOnce(parts, n)
  {
    if n > 0 {
      var before, last := Flatten(parts, n - 1), parts[n - 1];
      FlattenOnce(parts, n - 1);
      NoRepeatsJoin(before, last);
      forall x ensures x in before <==> exists k :: 0 <= k < n - 1 && x in parts[k] {
        FlattenContents(parts, n - 1, x);
      }
      if Apart(before, last) {
        forall i | 0 <= i < n - 1 ensures Apart(parts[i], last) {
          assert forall x :: x in parts[i] ==> x in before;
        }
      }
    }
  }

  ghost predicate ChildrenOnce(children: seq<Child>, n: nat)
    requires n <= |children|
  {
    forall i, j :: 0 <= i < j < n && children[i].id.Some? && children[j].id.Some? ==> children[i].id != children[j].id
  }

  lemma {:induction false} ChildIdsOnce(children: seq<Child>, n: nat)
    requires n <= |children|
    ensures NoRepeats(ChildIds(children, n)) <==> ChildrenOnce(children, n)
  {
    if n > 0 {
      var before, child := ChildIds(children, n - 1), children[n - 1];
      ChildIdsOnce(children, n - 1);
      if child.id.Some? {
        NoRepeatsJoin(before, [child.id.value]);
        ChildIdsMembers(children, n - 1, child.id.value);
        assert Apart(before, [child.id.value]) <==> child.id.value !in before;
      } else {
        assert before + [] == before;
      }
    }
  }

  ghost predicate DistinctUnits(units: seq<Unit>) { forall i, j :: 0 <= i < j < |units| ==> units[i].id != units[j].id }

  ghost predicate UnitsApart(a: seq<Unit>, b: seq<Unit>) { forall u, v :: u in a && v in b ==> u.id != v.id }

  ghost predicate SectionsOnce(sections: seq<Section>, n: nat)
    requires n <= |sections|
  {
    && (forall k :: 0 <= k < n ==> DistinctUnits(sections[k].units))
    && forall k, l :: 0 <= k < l < n ==> UnitsApart(sections[k].units, sections[l].units)
  }

  lemma UnitIdsMembers(units: seq<Unit>, id: string)
    ensures id in UnitIds(units) <==> exists u :: u in units && u.id == id
  {
    if u :| u in units && u.id == id {
      var i :| 0 <= i < |units| && units[i] == u;
      assert UnitIds(units)[i] == id;
    }
  }

  lemma UnitIdsOnce(units: seq<Unit>)
    ensures NoRepeats(UnitIds(units)) <==> DistinctUnits(units)
  {
    if NoRepeats(UnitIds(units)) {
      forall i, j | 0 <= i < j < |units| ensures units[i].id != units[j].id {
        assert UnitIds(units)[i] == units[i].id && UnitIds(units)[j] == units[j].id;
      }
    }
  }

  /** The units of earlier sections stay apart from those of one more. */
  lemma EarlierApart(sections: seq<Section>, n: nat, units: seq<Unit>)
    requires n <= |sections|
    ensures Apart(SectionUnitIds(sections, n), UnitIds(units)) <==>
      forall k :: 0 <= k < n ==> UnitsApart(sections[k].units, units)
  {
    var before := SectionUnitIds(sections, n);
    forall id ensures id in UnitIds(units) <==> exists u :: u in units && u.id == id {
      UnitIdsMembers(units, id);
    }
    forall id ensures id in before <==> exists k, i :: 0 <= k < n && 0 <= i < |sections[k].units| && sections[k].units[i].id == id {
      UnitMembers(sections, n, id);
    }
    if Apart(before, UnitIds(units)) {
      forall k, u, v | 0 <= k < n && u in sections[k].units && v in units ensures u.id != v.id {
        var i :| 0 <= i < |sections[k].units| && sections[k].units[i] == u;
        assert u.id in before && v.id in UnitIds(units);
      }
    }
  }

  lemma {:induction false} SectionIdsOnce(sections: seq<Section>, n: nat)
    requires n <= |sections|
    ensures NoRepeats(SectionUnitIds(sections, n)) <==> SectionsOnce(sections, n)
  {
    if n > 0 {
      var units := sections[n - 1].units;
      SectionIdsOnce(sections, n - 1);
      NoRepeatsJoin(SectionUnitIds(sections, n - 1), UnitIds(units));
      UnitIdsOnce(units);
      EarlierApart(sections, n - 1, units);
    }
  }

  /** Within one revision no identifier is used twice. */
  ghost predicate UsesOnce(r: Revision) {
    && EntriesOnce(r)
    && SectionsOnce(r.card.sections, |r.card.sections|)
    && UnitsOnce(r)
  }

  ghost predicate UnitsOnce(r: Revision) {
    && (forall e, section, u :: e in r.evidence && section in r.card.sections && u in section.units ==> e.id != u.id)
    && (forall q, section, u :: q in r.queue && section in r.card.sections && u in section.units ==> q.id != u.id)
  }

  ghost predicate EntriesOnce(r: Revision) {
    && (forall i, j :: 0 <= i < j < |r.evidence| ==> r.evidence[i].id != r.evidence[j].id)
    && (forall i, j :: 0 <= i < j < |r.queue| ==> r.queue[i].id != r.queue[j].id)
    && (forall e, q :: e in r.evidence && q in r.queue ==> e.id != q.id)
  }

  ghost predicate Lists(children: seq<Child>, r: Revision) {
    var after := 1 + |r.evidence|;
    && |children| == after + |r.queue| && children[0].id == None
    && (forall i :: 1 <= i < after ==> children[i].id == Some(r.evidence[i - 1].id))
    && (forall i :: after <= i < |children| ==> children[i].id == Some(r.queue[i - after].id))
  }

  lemma OnceInRevision(children: seq<Child>, r: Revision)
    requires Lists(children, r) && ChildrenOnce(children, |children|)
    ensures EntriesOnce(r)
  {
    var after := 1 + |r.evidence|;
    forall e, q | e in r.evidence && q in r.queue ensures e.id != q.id {
      var i :| 0 <= i < |r.evidence| && r.evidence[i] == e;
      var j :| 0 <= j < |r.queue| && r.queue[j] == q;
      assert children[1 + i].id != children[after + j].id;
    }
    forall i, j | 0 <= i < j < |r.evidence| ensures r.evidence[i].id != r.evidence[j].id {
      assert children[1 + i].id != children[1 + j].id;
    }
    forall i, j | 0 <= i < j < |r.queue| ensures r.queue[i].id != r.queue[j].id {
      assert children[after + i].id != children[after + j].id;
    }
  }

  lemma OnceInChildren(children: seq<Child>, r: Revision)
    requires Lists(children, r) && EntriesOnce(r)
    ensures ChildrenOnce(children, |children|)
  {
    var after := 1 + |r.evidence|;
    forall i, j | 0 < i < j < |children| ensures children[i].id != children[j].id {
      assert i < after <= j ==> r.evidence[i - 1] in r.evidence && r.queue[j - after] in r.queue;
    }
  }

  lemma ChildrenOnceMeans(r: Revision)
    ensures ChildrenOnce(ChildrenOf(r), |ChildrenOf(r)|) <==> EntriesOnce(r)
  {
    var children := ChildrenOf(r);
    assert Lists(children, r);
    if EntriesOnce(r) {
      OnceInChildren(children, r);
    } else if ChildrenOnce(children, |children|) {
      OnceInRevision(children, r);
    }
  }

  lemma RevisionUsesOnce(r: Revision)
    ensures NoRepeats(IdsOf(r)) <==> UsesOnce(r)
  {
    var children, sections := ChildrenOf(r), r.card.sections;
    var entryIds := ChildIds(children, |children|);
    NoRepeatsJoin(entryIds, UnitIdsOf(r));
    ChildIdsOnce(children, |children|);
    ChildrenOnceMeans(r);
    SectionIdsOnce(sections, |sections|);
    UnitsOutside(r);
  }

  /** Evidence and queue identifiers are apart from those of the card units. */
  lemma UnitsOutside(r: Revision)
    ensures Apart(ChildIds(ChildrenOf(r), |ChildrenOf(r)|), UnitIdsOf(r)) <==> UnitsOnce(r)
  {
    var entryIds, sections := ChildIds(ChildrenOf(r), |ChildrenOf(r)|), r.card.sections;
    forall section, u | section in sections && u in section.units ensures u.id in UnitIdsOf(r) {
      UnitIdsOfMembers(r, u.id);
    }
    if Apart(entryIds, UnitIdsOf(r)) {
      forall e | e in r.evidence ensures e.id in entryIds {
        ChildrenMembers(r, e.id);
      }
      forall q | q in r.queue ensures q.id in entryIds {
        ChildrenMembers(r, q.id);
      }
    }
    if UnitsOnce(r) {
      forall id | id in entryIds ensures id !in UnitIdsOf(r) {
        ChildrenMembers(r, id);
        UnitIdsOfMembers(r, id);
      }
    }
  }

  // ----- The whole bundle -----

  /** An accepted bundle, spelled out. */
  ghost predicate InOrder(b: Bundle, digest: RevisionDigest) {
    && (forall i :: 0 <= i < |b.revisions| ==> b.revisions[i].number == i + 1)
    && (b.revisions != [] ==> b.activeId == b.revisions[|b.revisions| - 1].revisionId && b.revisions[0].predecessor == None)
    && (forall i :: 1 <= i < |b.revisions| ==>
          b.revisions[i].predecessor == Some(RevisionLink(b.revisions[i - 1].revisionId, digest(b.revisions[i - 1]))))
    && (forall i, j :: 0 <= i < j < |b.revisions| ==> b.revisions[i].revisionId != b.revisions[j].revisionId)
    && (forall r :: r in b.revisions ==> r.card.paperId == b.paperId && UsesOnce(r))
    && (forall r, e :: r in b.revisions && e in r.evidence ==> e.paperId == b.paperId)
    && (forall r, q :: r in b.revisions && q in r.queue ==> q.paperId == b.paperId)
    && NothingReused(b.revisions)
  }

  ghost predicate NothingReused(revisions: seq<Revision>) {
    forall i, j, id :: 0 <= i < j < |revisions| && Introduces(revisions[i], id) ==> !Introduces(revisions[j], id)
  }

  lemma IdsOnce(revisions: seq<Revision>)
    ensures NoRepeats(IdsBefore(revisions, |revisions|)) <==>
      (forall r :: r in revisions ==> UsesOnce(r)) && NothingReused(revisions)
  {
    var parts := IdParts(revisions);
    FlattenOnce(parts, |revisions|);
    forall i | 0 <= i < |revisions| ensures NoRepeats(parts[i]) <==> UsesOnce(revisions[i]) {
      RevisionUsesOnce(revisions[i]);
    }
    forall i, id | 0 <= i < |revisions| ensures id in parts[i] <==> Introduces(revisions[i], id) {
      IdsOfMembers(revisions[i], id);
    }
    if NothingReused(revisions) {
      forall i, j | 0 <= i < j < |revisions| ensures Apart(parts[i], parts[j]) {
      }
    }
    if PartsOnce(parts, |revisions|) {
      forall i, j, id | 0 <= i < j < |revisions| && Introduces(revisions[i], id) ensures !Introduces(revisions[j], id) {
        assert Apart(parts[i], parts[j]);
      }
    }
  }

  lemma LinksMean(revisions: seq<Revision>, digest: RevisionDigest)
    ensures (forall i {:trigger LinkOk(revisions, i, digest)} :: 0 <= i < |revisions| ==> LinkOk(revisions, i, digest)) <==>
      && (revisions != [] ==> revisions[0].predecessor == None)
      && (forall i :: 1 <= i < |revisions| ==>
            revisions[i].predecessor == Some(RevisionLink(revisions[i - 1].revisionId, digest(revisions[i - 1]))))
  {
    if forall i {:trigger LinkOk(revisions, i, digest)} :: 0 <= i < |revisions| ==> LinkOk(revisions, i, digest) {
      forall i | 1 <= i < |revisions|
        ensures revisions[i].predecessor == Some(RevisionLink(revisions[i - 1].revisionId, digest(revisions[i - 1])))
      {
        assert LinkOk(revisions, i, digest);
      }
      assert revisions != [] ==> LinkOk(revisions, 0, digest);
    }
  }

  /**
   A bundle is accepted exactly when it is numbered from one and linked, its last revision is active,
   everything in it is of its own paper, and no identifier of evidence, queue item or card unit is used
   twice, within a revision or across.
   */
  lemma AcceptedInOrder(b: Bundle, digest: RevisionDigest)
    ensures Accepted(b, digest) <==> InOrder(b, digest)
  {
    IdsOnce(b.revisions);
    LinksMean(b.revisions, digest);
    DistinctRevisions(b.revisions);
    var belongs := forall r :: r in b.revisions ==> ChildrenBelong(r, b.paperId);
    assert belongs ==> forall r, e :: r in b.revisions && e in r.evidence ==> e.paperId == b.paperId;
    assert belongs ==> forall r, q :: r in b.revisions && q in r.queue ==> q.paperId == b.paperId;
  }

  lemma DistinctRevisions(revisions: seq<Revision>)
    ensures DistinctBy(revisions, RevisionIdOf) <==>
      forall i, j :: 0 <= i < j < |revisions| ==> revisions[i].revisionId != revisions[j].revisionId
  {
    if DistinctBy(revisions, RevisionIdOf) {
      forall i, j | 0 <= i < j < |revisions| ensures revisions[i].revisionId != revisions[j].revisionId {
        assert RevisionIdOf(revisions[i]) != RevisionIdOf(revisions[j]);
      }
    }
  }

  // ----- Active entries -----

  /** The active entries of a bundle: card, evidence and queue of the first revision with the active id. */
  lemma ActiveEntriesAre(b: Bundle, e: Entry)
    ensures e in ActiveEntries(b) <==> exists k :: FirstActive(b.revisions, b.activeId, k) && InRevision(b.revisions[k], e)
  {
    ActiveFirst(b.revisions, b.activeId, e);
  }

  predicate InRevision(r: Revision, e: Entry) {
    || e == CardEntry(r.card)
    || (e.EvidenceEntry? && e.evidence in r.evidence)
    || (e.QueueEntry? && e.item in r.queue)
  }

  lemma EntriesMembers(r: Revision, e: Entry)
    ensures e in EntriesOf(r) <==> InRevision(r, e)
  {
    var entries := EntriesOf(r);
    if e.EvidenceEntry? && e.evidence in r.evidence {
      var i :| 0 <= i < |r.evidence| && r.evidence[i] == e.evidence;
      assert entries[1 + i] == e;
    }
    if e.QueueEntry? && e.item in r.queue {
      var i :| 0 <= i < |r.queue| && r.queue[i] == e.item;
      assert entries[1 + |r.evidence| + i] == e;
    }
    if e == CardEntry(r.card) {
      assert entries[0] == e;
    }
  }

  /** Position `k` is the first with the active id. */
  ghost predicate FirstActive(revisions: seq<Revision>, activeId: string, k: int) {
    && 0 <= k < |revisions| && revisions[k].revisionId == activeId
    && forall j :: 0 <= j < k ==> revisions[j].revisionId != activeId
  }

  lemma {:induction false} ActiveFirst(revisions: seq<Revision>, activeId: string, e: Entry)
    ensures var r := ActiveRevision(revisions, activeId);
      (r.Some? && e in EntriesOf(r.value)) <==> exists k :: FirstActive(revisions, activeId, k) && InRevision(revisions[k], e)
  {
    if revisions != [] {
      if revisions[0].revisionId == activeId {
        EntriesMembers(revisions[0], e);
        assert FirstActive(revisions, activeId, 0);
      } else {
        var rest := revisions[1..];
        ActiveFirst(rest, activeId, e);
        if k :| FirstActive(rest, activeId, k) && InRevision(rest[k], e) {
          assert FirstActive(revisions, activeId, k + 1);
        }
        if k :| FirstActive(revisions, activeId, k) && InRevision(revisions[k], e) {
          assert FirstActive(rest, activeId, k - 1);
        }
      }
    }
  }
}
