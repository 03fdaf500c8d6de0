/** Exchange export: selecting records, wrapping them in envelopes, and planning the files of a bundle. */
module ExchangeExport {
  import opened Wrappers
  import opened StringOrder
  import opened Selection
  import opened Deduplication
  import Sorting

  type Bytes = seq<int>

  // ----- Records and envelopes -----

  /** A workspace record with the references the selectors read; nothing when its stable id is missing. */
  datatype Entry = Entry(
    kind: string,
    id: Option<string>,
    papers: set<string>,
    questions: set<string>,
    directions: set<string>,
    targetKind: string,
    targetId: string,
    tagId: string,
    content: string)

  datatype Envelope = Envelope(originId: string, recordId: string, kind: string, digest: string, record: string)

  const PaperKind := "registry-paper"
  const IdentityKind := "exchange-paper-identity"

  /** The record kinds that are exported as they are; a paper is exported as its identity. */
  const SharedKinds: set<string> := {
    "paper-card", "evidence", "review-queue", "review-memory", "primary-semantic-bundle", "review-semantic-bundle",
    "question-mapping", "direction-bundle", "field-map-bundle", "question-revision-bundle", "tag-bundle",
    "tag-link-bundle", "screening-criteria-bundle", "screening-decision-bundle", "step7-synthesis",
    "step7-review-angle", "step7-insight", "step7-cross-view" }

  function ExportedKinds(): set<string> { SharedKinds + {PaperKind} }

  function PayloadKinds(): set<string> { SharedKinds + {IdentityKind} }

  function ProjectedKind(kind: string): string { if kind == PaperKind then IdentityKind else kind }

  lemma ProjectedIsPayload(kind: string)
    requires kind in ExportedKinds()
    ensures ProjectedKind(kind) in PayloadKinds()
  {
  }

  lemma ProjectionInjective(a: string, b: string)
    requires a in ExportedKinds() && b in ExportedKinds() && ProjectedKind(a) == ProjectedKind(b)
    ensures a == b
  {
    assert IdentityKind !in SharedKinds by {
      assert IdentityKind[1] == 'x';
    }
    assert IdentityKind[1] == 'x' && PaperKind[1] == 'e';
  }

  /** Digest, serialisation, projection of a paper and validation, which are not part of this model. */
  datatype Codec = Codec(
    sha: Bytes -> string,
    record: string -> Bytes,
    identity: string -> string,
    pathFree: string -> bool,
    recordOk: (string, string) -> bool,
    envelopeOk: Envelope -> bool)

  datatype ExportError = MissingId | RecordRefused | PathLeak | EnvelopeRefused | NothingSelected | SourceRefused | WorkspaceInvalid

  function Projected(e: Entry, codec: Codec): string { if e.kind == PaperKind then codec.identity(e.content) else e.content }

  function BuildEnvelope(workspaceId: string, e: Entry, codec: Codec): Result<Envelope, ExportError> {
    var record := Projected(e, codec);
    if e.kind == PaperKind && !codec.recordOk(IdentityKind, record) then Err(RecordRefused)
    else if !codec.pathFree(record) then Err(PathLeak)
    else if e.kind !in ExportedKinds() || e.id.None? || e.id.value == "" then Err(MissingId)
    else
      var envelope := Envelope(workspaceId, e.id.value, ProjectedKind(e.kind), codec.sha(codec.record(record)), record);
      if codec.envelopeOk(envelope) then Ok(envelope) else Err(EnvelopeRefused)
  }

  // ----- Selection -----

  datatype Scope = WholeWorkspace | OnePaper(id: string) | OneQuestion(id: string) | OneDirection(id: string)

  const PaperKinds: set<string> := {
    "registry-paper", "paper-card", "evidence", "review-queue", "review-memory", "primary-semantic-bundle",
    "review-semantic-bundle" }

  const QuestionKinds: set<string> := {
    "question-mapping", "question-revision-bundle", "screening-criteria-bundle", "screening-decision-bundle",
    "step7-synthesis", "step7-review-angle", "step7-insight", "step7-cross-view" }

  const DirectionKinds: set<string> := {"direction-bundle", "field-map-bundle"}

  function PapersOf(entries: seq<Entry>): set<string> { set e, p | e in entries && p in e.papers :: p }

  function OfPapers(entries: seq<Entry>, papers: set<string>): seq<Entry> {
    Filter(entries, (e: Entry) => e.kind in PaperKinds && e.papers * papers != {})
  }

  function LinksTo(entries: seq<Entry>, targetKind: string, targetId: string): seq<Entry> {
    Filter(entries, (e: Entry) => e.kind == "tag-link-bundle" && e.targetKind == targetKind && e.targetId == targetId)
  }

  function TagsOf(entries: seq<Entry>, links: seq<Entry>): seq<Entry> {
    var ids := set l | l in links :: l.tagId;
    Filter(entries, (e: Entry) => e.kind == "tag-bundle" && e.tagId in ids)
  }

  function WithTags(entries: seq<Entry>, chosen: seq<Entry>, targetKind: string, targetId: string): seq<Entry> {
    var links := LinksTo(entries, targetKind, targetId);
    chosen + links + TagsOf(entries, links)
  }

  function Chosen(entries: seq<Entry>, scope: Scope): seq<Entry> {
    match scope
    case WholeWorkspace => entries
    case OnePaper(id) =>
      WithTags(entries, Filter(entries, (e: Entry) => e.kind in PaperKinds && id in e.papers), "paper", id)
    case OneQuestion(id) =>
      var records := Filter(entries, (e: Entry) => e.kind in QuestionKinds && id in e.questions);
      WithTags(entries, records + OfPapers(entries, PapersOf(records)), "question", id)
    case OneDirection(id) =>
      var records := Filter(entries, (e: Entry) => e.kind in DirectionKinds && id in e.directions);
      WithTags(entries, records + OfPapers(entries, PapersOf(records)), "direction", id)
  }

  function Exportable(entries: seq<Entry>): seq<Entry> { Filter(entries, (e: Entry) => e.kind in ExportedKinds()) }

  datatype Key = Key(kind: string, id: string)

  function KeyOf(e: Entry): Key { Key(e.kind, if e.id.Some? then e.id.value else "") }

  predicate KeyLeq(a: Key, b: Key) { if a.kind != b.kind then Leq(a.kind, b.kind) else Leq(a.id, b.id) }

  function KeysOf(entries: seq<Entry>): seq<Key> {
    seq(|entries|, i requires 0 <= i < |entries| => KeyOf(entries[i]))
  }

  function LastUnder(entries: seq<Entry>, key: Key): Option<Entry> {
    if entries == [] then None
    else
      var last := entries[|entries| - 1];
      if KeyOf(last) == key then Some(last) else LastUnder(entries[..|entries| - 1], key)
  }

  ghost predicate HasKey(entries: seq<Entry>, key: Key) { exists e :: e in entries && KeyOf(e) == key }

  lemma {:induction false} LastUnderMeans(entries: seq<Entry>, key: Key)
    ensures LastUnder(entries, key).Some? <==> HasKey(entries, key)
    ensures LastUnder(entries, key).Some? ==>
      LastUnder(entries, key).value in entries && KeyOf(LastUnder(entries, key).value) == key
  {
    if entries != [] {
      LastUnderMeans(entries[..|entries| - 1], key);
      assert entries == entries[..|entries| - 1] + [entries[|entries| - 1]];
    }
  }

  /** One entry per kind and id, in key order. */
  function Unique(entries: seq<Entry>): seq<Entry> {
    var keys := Sorting.Sorted(FirstOccurrences(KeysOf(entries)), KeyLeq);
    UniqueKeys(entries);
    seq(|keys|, i requires 0 <= i < |keys| =>
      assert keys[i] in keys; LastUnderMeans(entries, keys[i]); LastUnder(entries, keys[i]).value)
  }

  lemma KeysOfContents(entries: seq<Entry>, key: Key)
    ensures key in KeysOf(entries) <==> HasKey(entries, key)
  {
    var keys := KeysOf(entries);
    if key in keys {
      var i :| 0 <= i < |keys| && keys[i] == key;
      assert entries[i] in entries;
    }
    if e :| e in entries && KeyOf(e) == key {
      var i :| 0 <= i < |entries| && entries[i] == e;
      assert keys[i] == key;
    }
  }

  lemma UniqueKeys(entries: seq<Entry>)
    ensures forall key :: key in Sorting.Sorted(FirstOccurrences(KeysOf(entries)), KeyLeq) <==> HasKey(entries, key)
  {
    FirstOccurrencesContents(KeysOf(entries));
    Sorting.SortedContents(FirstOccurrences(KeysOf(entries)), KeyLeq);
    forall key ensures key in KeysOf(entries) <==> HasKey(entries, key) {
      KeysOfContents(entries, key);
    }
  }

  function Select(entries: seq<Entry>, scope: Scope): Result<seq<Entry>, ExportError> {
    var chosen := Chosen(Exportable(entries), scope);
    if exists e :: e in chosen && (e.id.None? || e.id.value == "") then Err(MissingId)
    else if chosen == [] then Err(NothingSelected)
    else Ok(Unique(chosen))
  }

  lemma ChosenAreEntries(entries: seq<Entry>, scope: Scope)
    ensures forall e :: e in Chosen(entries, scope) ==> e in entries
  {
    match scope
    case WholeWorkspace =>
    case OnePaper(id) =>
      var records := Filter(entries, (e: Entry) => e.kind in PaperKinds && id in e.papers);
      FilterContents(entries, (e: Entry) => e.kind in PaperKinds && id in e.papers);
      WithTagsAreEntries(entries, records, "paper", id);
    case OneQuestion(id) =>
      var records := Filter(entries, (e: Entry) => e.kind in QuestionKinds && id in e.questions);
      FilterContents(entries, (e: Entry) => e.kind in QuestionKinds && id in e.questions);
      OfPapersAreEntries(entries, PapersOf(records));
      WithTagsAreEntries(entries, records + OfPapers(entries, PapersOf(records)), "question", id);
    case OneDirection(id) =>
      var records := Filter(entries, (e: Entry) => e.kind in DirectionKinds && id in e.directions);
      FilterContents(entries, (e: Entry) => e.kind in DirectionKinds && id in e.directions);
      OfPapersAreEntries(entries, PapersOf(records));
      WithTagsAreEntries(entries, records + OfPapers(entries, PapersOf(records)), "direction", id);
  }

  lemma OfPapersAreEntries(entries: seq<Entry>, papers: set<string>)
    ensures forall e :: e in OfPapers(entries, papers) ==> e in entries
  {
    FilterContents(entries, (e: Entry) => e.kind in PaperKinds && e.papers * papers != {});
  }

  lemma WithTagsAreEntries(entries: seq<Entry>, chosen: seq<Entry>, targetKind: string, targetId: string)
    requires forall e :: e in chosen ==> e in entries
    ensures forall e :: e in WithTags(entries, chosen, targetKind, targetId) ==> e in entries
  {
    var links := LinksTo(entries, targetKind, targetId);
    var ids := set l | l in links :: l.tagId;
    FilterContents(
      entries, (e: Entry) => e.kind == "tag-link-bundle" && e.targetKind == targetKind && e.targetId == targetId);
    FilterContents(entries, (e: Entry) => e.kind == "tag-bundle" && e.tagId in ids);
  }

  /** Whatever the scope, only exportable records of the workspace are selected. */
  lemma SelectedAreEntries(entries: seq<Entry>, scope: Scope)
    requires Select(entries, scope).Ok?
    ensures forall e :: e in Select(entries, scope).value ==> e in entries && e.kind in ExportedKinds()
    ensures forall e :: e in Select(entries, scope).value ==> e.id.Some? && e.id.value != ""
    ensures DistinctBy(Select(entries, scope).value, KeyOf)
  {
    var exportable := Exportable(entries);
    var chosen := Chosen(exportable, scope);
    var selected := Select(entries, scope).value;
    ChosenAreEntries(exportable, scope);
    FilterContents(entries, (e: Entry) => e.kind in ExportedKinds());
    UniqueMembers(chosen);
  }

  // ----- What each scope selects -----

  predicate LinksTarget(e: Entry, targetKind: string, targetId: string) {
    e.kind == "tag-link-bundle" && e.targetKind == targetKind && e.targetId == targetId
  }

  /** A tag link of the target, or a tag that some link of the target names. */
  ghost predicate Tags(entries: seq<Entry>, e: Entry, targetKind: string, targetId: string) {
    || LinksTarget(e, targetKind, targetId)
    || (e.kind == "tag-bundle" && exists l :: l in entries && LinksTarget(l, targetKind, targetId) && l.tagId == e.tagId)
  }

  predicate AboutQuestion(e: Entry, id: string) { e.kind in QuestionKinds && id in e.questions }

  predicate AboutDirection(e: Entry, id: string) { e.kind in DirectionKinds && id in e.directions }

  /** A paper's record that shares a paper with some chosen record. */
  ghost predicate SharesPaper(entries: seq<Entry>, e: Entry, chosen: Entry -> bool) {
    e.kind in PaperKinds && exists q, p :: q in entries && chosen(q) && p in q.papers && p in e.papers
  }

  /** The records a scope is about. */
  ghost predicate InScope(entries: seq<Entry>, scope: Scope, e: Entry) {
    match scope
    case WholeWorkspace => true
    case OnePaper(id) => (e.kind in PaperKinds && id in e.papers) || Tags(entries, e, "paper", id)
    case OneQuestion(id) =>
      AboutQuestion(e, id) || SharesPaper(entries, e, q => AboutQuestion(q, id)) || Tags(entries, e, "question", id)
    case OneDirection(id) =>
      AboutDirection(e, id) || SharesPaper(entries, e, q => AboutDirection(q, id)) || Tags(entries, e, "direction", id)
  }

  lemma WithTagsContents(entries: seq<Entry>, chosen: seq<Entry>, targetKind: string, targetId: string, e: Entry)
    ensures e in WithTags(entries, chosen, targetKind, targetId) <==>
      e in chosen || (e in entries && Tags(entries, e, targetKind, targetId))
  {
    var links := LinksTo(entries, targetKind, targetId);
    var ids := set l | l in links :: l.tagId;
    FilterContents(
      entries, (e: Entry) => e.kind == "tag-link-bundle" && e.targetKind == targetKind && e.targetId == targetId);
    FilterContents(entries, (e: Entry) => e.kind == "tag-bundle" && e.tagId in ids);
  }

  lemma SharedPapers(entries: seq<Entry>, records: seq<Entry>, chosen: Entry -> bool, e: Entry)
    requires forall q :: q in records <==> q in entries && chosen(q)
    ensures e in OfPapers(entries, PapersOf(records)) <==> e in entries && SharesPaper(entries, e, chosen)
  {
    var papers := PapersOf(records);
    FilterContents(entries, (e: Entry) => e.kind in PaperKinds && e.papers * papers != {});
    if e.papers * papers != {} {
      var p :| p in e.papers * papers;
      var q :| q in records && p in q.papers;
    }
    if SharesPaper(entries, e, chosen) {
      var q, p :| q in entries && chosen(q) && p in q.papers && p in e.papers;
      assert p in e.papers * papers;
    }
  }

  /** The lists the selector builds hold exactly the records its scope is about. */
  lemma ChosenAreInScope(entries: seq<Entry>, scope: Scope, e: Entry)
    ensures e in Chosen(entries, scope) <==> e in entries && InScope(entries, scope, e)
  {
    match scope
    case WholeWorkspace =>
    case OnePaper(id) =>
      var records := Filter(entries, (e: Entry) => e.kind in PaperKinds && id in e.papers);
      FilterContents(entries, (e: Entry) => e.kind in PaperKinds && id in e.papers);
      WithTagsContents(entries, records, "paper", id, e);
    case OneQuestion(id) =>
      var records := Filter(entries, (e: Entry) => e.kind in QuestionKinds && id in e.questions);
      FilterContents(entries, (e: Entry) => e.kind in QuestionKinds && id in e.questions);
      SharedPapers(entries, records, q => AboutQuestion(q, id), e);
      WithTagsContents(entries, records + OfPapers(entries, PapersOf(records)), "question", id, e);
    case OneDirection(id) =>
      var records := Filter(entries, (e: Entry) => e.kind in DirectionKinds && id in e.directions);
      FilterContents(entries, (e: Entry) => e.kind in DirectionKinds && id in e.directions);
      SharedPapers(entries, records, q => AboutDirection(q, id), e);
      WithTagsContents(entries, records + OfPapers(entries, PapersOf(records)), "direction", id, e);
  }

  lemma UniqueKeepsKeys(entries: seq<Entry>, key: Key)
    ensures HasKey(Unique(entries), key) <==> HasKey(entries, key)
  {
    var keys := Sorting.Sorted(FirstOccurrences(KeysOf(entries)), KeyLeq);
    var unique := Unique(entries);
    UniqueKeys(entries);
    UniqueMembers(entries);
    if HasKey(entries, key) {
      var i :| 0 <= i < |keys| && keys[i] == key;
      LastUnderMeans(entries, key);
      assert unique[i] in unique && KeyOf(unique[i]) == key;
    }
  }

  ghost predicate ExportedInScope(entries: seq<Entry>, scope: Scope, e: Entry) {
    e in entries && e.kind in ExportedKinds() && InScope(Exportable(entries), scope, e)
  }

  /** A selection holds a record of some kind and id exactly when an exportable one of that kind and id is in scope. */
  lemma SelectionCoversScope(entries: seq<Entry>, scope: Scope, key: Key)
    requires Select(entries, scope).Ok?
    ensures HasKey(Select(entries, scope).value, key) <==> exists e :: ExportedInScope(entries, scope, e) && KeyOf(e) == key
  {
    var exportable := Exportable(entries);
    var chosen := Chosen(exportable, scope);
    FilterContents(entries, (e: Entry) => e.kind in ExportedKinds());
    UniqueKeepsKeys(chosen, key);
    forall e ensures e in chosen <==> ExportedInScope(entries, scope, e) {
      ChosenAreInScope(exportable, scope, e);
    }
  }

  /** With unique keys a selection is exactly the exportable records in scope. */
  lemma SelectionIsScope(entries: seq<Entry>, scope: Scope, e: Entry)
    requires Select(entries, scope).Ok?
    requires DistinctBy(entries, KeyOf)
    ensures e in Select(entries, scope).value <==> ExportedInScope(entries, scope, e)
  {
    var exportable := Exportable(entries);
    var chosen := Chosen(exportable, scope);
    FilterContents(entries, (e: Entry) => e.kind in ExportedKinds());
    UniqueMembers(chosen);
    ChosenAreInScope(exportable, scope, e);
    if e in chosen {
      UniqueKeepsKeys(chosen, KeyOf(e));
      var x :| x in Unique(chosen) && KeyOf(x) == KeyOf(e);
      ChosenAreInScope(exportable, scope, x);
      KeyIdentifiesElement(entries, KeyOf, x, e);
    }
  }

  lemma UniqueMembers(entries: seq<Entry>)
    ensures forall e :: e in Unique(entries) ==> e in entries
    ensures DistinctBy(Unique(entries), KeyOf)
  {
    var distinct := FirstOccurrences(KeysOf(entries));
    var keys := Sorting.Sorted(distinct, KeyLeq);
    var unique := Unique(entries);
    UniqueKeys(entries);
    forall i | 0 <= i < |unique| ensures unique[i] in entries && KeyOf(unique[i]) == keys[i] {
      assert keys[i] in keys;
      LastUnderMeans(entries, keys[i]);
    }
    FirstOccurrencesContents(KeysOf(entries));
    Sorting.SortedContents(distinct, KeyLeq);
    var itself := (key: Key) => key;
    assert DistinctBy(distinct, itself);
    DistinctPermutes(distinct, keys, itself);
    forall i, j | 0 <= i < j < |unique| ensures KeyOf(unique[i]) != KeyOf(unique[j]) {
      assert itself(keys[i]) != itself(keys[j]);
    }
  }
}
