/** Every archive assembled from an export plan is accepted by the import, and re-imports as exact duplicates. */
module ExchangeAgreement {
  import opened Wrappers
  import opened Selection
  import opened ExchangeExport
  import opened ExchangeBundle
  import Sorting

  // ----- Envelopes of a selection -----

  /** All results together, or the first refusal. */
  function Sequenced(results: seq<Result<Envelope, ExportError>>, n: nat): Result<seq<Envelope>, ExportError>
    requires n <= |results|
  {
    if n == 0 then Ok([])
    else
      var before, last := Sequenced(results, n - 1), results[n - 1];
      if before.Err? then before else if last.Err? then Err(last.error) else Ok(before.value + [last.value])
  }

  function Built(workspaceId: string, selected: seq<Entry>, codec: Codec): seq<Result<Envelope, ExportError>> {
    seq(|selected|, i requires 0 <= i < |selected| => BuildEnvelope(workspaceId, selected[i], codec))
  }

  /** The envelopes of the selected records, or the first refusal. */
  function Envelopes(workspaceId: string, selected: seq<Entry>, codec: Codec): Result<seq<Envelope>, ExportError> {
    Sequenced(Built(workspaceId, selected, codec), |selected|)
  }

  lemma {:induction false} SequencedContents(results: seq<Result<Envelope, ExportError>>, n: nat)
    requires n <= |results| && Sequenced(results, n).Ok?
    ensures |Sequenced(results, n).value| == n
    ensures forall i :: 0 <= i < n ==> results[i] == Ok(Sequenced(results, n).value[i])
  {
    if n > 0 {
      SequencedContents(results, n - 1);
    }
  }

  lemma EnvelopeOrigin(workspaceId: string, selected: seq<Entry>, codec: Codec, e: Envelope) returns (i: nat)
    requires Envelopes(workspaceId, selected, codec).Ok? && e in Envelopes(workspaceId, selected, codec).value
    ensures i < |selected| && BuildEnvelope(workspaceId, selected[i], codec) == Ok(e)
  {
    var results := Built(workspaceId, selected, codec);
    SequencedContents(results, |selected|);
    var envelopes := Envelopes(workspaceId, selected, codec).value;
    i :| 0 <= i < |envelopes| && envelopes[i] == e;
    assert results[i] == Ok(e);
  }

  /** Records that validate in the workspace, as a plan demands before it selects. */
  ghost predicate ValidEntries(entries: seq<Entry>, codec: Codec) {
    forall e :: e in entries && e.kind in ExportedKinds() && e.kind != PaperKind ==> codec.recordOk(e.kind, e.content)
  }

  /** What every envelope of a plan satisfies. */
  predicate PlannedEnvelope(e: Envelope, codec: Codec) {
    && e.kind in PayloadKinds() && codec.envelopeOk(e)
    && codec.sha(codec.record(e.record)) == e.digest && codec.recordOk(e.kind, e.record)
  }

  lemma BuiltEnvelope(workspaceId: string, e: Entry, codec: Codec)
    requires BuildEnvelope(workspaceId, e, codec).Ok?
    requires e.kind != PaperKind ==> codec.recordOk(e.kind, e.content)
    ensures PlannedEnvelope(BuildEnvelope(workspaceId, e, codec).value, codec)
  {
    ProjectedIsPayload(e.kind);
  }

  lemma PlannedEnvelopes(workspaceId: string, entries: seq<Entry>, scope: Scope, codec: Codec)
    requires ValidEntries(entries, codec) && Select(entries, scope).Ok?
    requires var selected := Select(entries, scope).value; Envelopes(workspaceId, selected, codec).Ok?
    ensures var selected := Select(entries, scope).value;
      forall e :: e in Envelopes(workspaceId, selected, codec).value ==> PlannedEnvelope(e, codec)
  {
    var selected := Select(entries, scope).value;
    var envelopes := Envelopes(workspaceId, selected, codec).value;
    SelectedAreEntries(entries, scope);
    forall e | e in envelopes ensures PlannedEnvelope(e, codec) {
      var i := EnvelopeOrigin(workspaceId, selected, codec, e);
      assert selected[i] in selected;
      BuiltEnvelope(workspaceId, selected[i], codec);
    }
  }

  // ----- Counting by kind -----

  function GroupsIn(kinds: seq<string>, envelopes: seq<Envelope>, n: nat): seq<Envelope>
    requires n <= |kinds|
  {
    if n == 0 then [] else GroupsIn(kinds, envelopes, n - 1) + Group(envelopes, kinds[n - 1])
  }

  lemma {:induction false} GroupCount(envelopes: seq<Envelope>, kind: string, e: Envelope)
    ensures multiset(Group(envelopes, kind))[e] == if e.kind == kind then multiset(envelopes)[e] else 0
  {
    Sorting.SortedContents(OfKind(envelopes, kind), EnvelopeLeq);
    FilterCount(envelopes, (x: Envelope) => x.kind == kind, e);
  }

  ghost predicate DistinctKinds(kinds: seq<string>) { forall i, j :: 0 <= i < j < |kinds| ==> kinds[i] != kinds[j] }

  lemma {:induction false} GroupsCount(kinds: seq<string>, envelopes: seq<Envelope>, n: nat, e: Envelope)
    requires n <= |kinds| && DistinctKinds(kinds)
    ensures multiset(GroupsIn(kinds, envelopes, n))[e] == if e.kind in kinds[..n] then multiset(envelopes)[e] else 0
  {
    if n > 0 {
      GroupsCount(kinds, envelopes, n - 1, e);
      GroupCount(envelopes, kinds[n - 1], e);
      assert kinds[..n] == kinds[..n - 1] + [kinds[n - 1]];
      assert kinds[n - 1] !in kinds[..n - 1];
    }
  }

  /** The groups of all kinds together are the envelopes, regrouped. */
  lemma GroupsPermute(kinds: seq<string>, envelopes: seq<Envelope>)
    requires DistinctKinds(kinds) && forall e :: e in envelopes ==> e.kind in kinds
    ensures multiset(GroupsIn(kinds, envelopes, |kinds|)) == multiset(envelopes)
  {
    assert kinds[..|kinds|] == kinds;
    forall e ensures multiset(GroupsIn(kinds, envelopes, |kinds|))[e] == multiset(envelopes)[e] {
      GroupsCount(kinds, envelopes, |kinds|, e);
      assert e in multiset(envelopes) <==> e in envelopes;
    }
  }

  lemma RegroupedCounts(a: seq<Envelope>, b: seq<Envelope>, kind: string)
    requires multiset(a) == multiset(b)
    ensures |OfKind(a, kind)| == |OfKind(b, kind)|
  {
    FilterPermutes(a, b, (e: Envelope) => e.kind == kind);
    Sorting.SameContents(OfKind(a, kind), OfKind(b, kind));
  }

  // ----- Reading the records files back -----

  function KindsAt(paths: seq<string>): seq<string> {
    seq(|paths|, i requires 0 <= i < |paths| => KindOf(paths[i]))
  }

  lemma GroupReads(envelopes: seq<Envelope>, kind: string, f: Format, maxRecords: nat)
    requires RoundTrips(f) && kind in KindsOf(envelopes) && |envelopes| <= maxRecords
    requires forall e :: e in envelopes ==> PlannedEnvelope(e, f.codec)
    ensures ReadFile(RecordsPath(kind), f.writeRecords(Group(envelopes, kind)), f, maxRecords) == Some(Group(envelopes, kind))
  {
    var group := Group(envelopes, kind);
    RecordsPathKind(kind);
    GroupContents(envelopes, kind);
    GroupFits(envelopes, kind);
    var e :| e in envelopes && e.kind == kind;
    forall x | x in group ensures RecordSound(x, kind, f) {
      assert PlannedEnvelope(x, f.codec);
    }
  }

  lemma {:induction false} FilterFits(s: seq<Envelope>, keep: Envelope -> bool)
    ensures |Filter(s, keep)| <= |s|
  {
    if s != [] {
      FilterFits(s[..|s| - 1], keep);
    }
  }

  lemma GroupFits(envelopes: seq<Envelope>, kind: string)
    ensures |Group(envelopes, kind)| <= |envelopes|
  {
    GroupContents(envelopes, kind);
    FilterFits(envelopes, (e: Envelope) => e.kind == kind);
  }

  lemma {:induction false} GroupsGathered(
      parts: seq<Option<seq<Envelope>>>, kinds: seq<string>, envelopes: seq<Envelope>, n: nat)
    requires n <= |parts| == |kinds|
    requires forall i :: 0 <= i < |parts| ==> parts[i] == Some(Group(envelopes, kinds[i]))
    ensures Gathered(parts, n) == Some(GroupsIn(kinds, envelopes, n))
  {
    if n > 0 {
      GroupsGathered(parts, kinds, envelopes, n - 1);
    }
  }

  // ----- Re-importing -----

  datatype Classification =
    | ExactLocalDuplicate | SemanticConflict | PaperIdentityMatch | NewExternalIdentity | NewExternalRevision

  datatype Conflict = Conflict(envelope: Envelope, classification: Classification, localId: Option<string>)

  datatype LocalKey = LocalKey(kind: string, id: string)

  /** The envelopes of the local records, the later of two with one key; refused records are skipped. */
  function Local(workspaceId: string, entries: seq<Entry>, n: nat, codec: Codec): map<LocalKey, Envelope>
    requires n <= |entries|
  {
    if n == 0 then map[]
    else
      var before := Local(workspaceId, entries, n - 1, codec);
      var last := BuildEnvelope(workspaceId, entries[n - 1], codec);
      if last.Ok? then before[LocalKey(last.value.kind, last.value.recordId) := last.value] else before
  }

  /** `matches` finds a local paper with the same source or DOI. */
  function ClassifyEnvelope(e: Envelope, local: map<LocalKey, Envelope>, matches: Envelope -> Option<string>): Conflict {
    var key := LocalKey(e.kind, e.recordId);
    if key in local then
      Conflict(e, if local[key].digest == e.digest then ExactLocalDuplicate else SemanticConflict, Some(local[key].recordId))
    else if e.kind == IdentityKind then
      (var found := matches(e);
       if found.Some? then Conflict(e, PaperIdentityMatch, found) else Conflict(e, NewExternalIdentity, None))
    else Conflict(e, NewExternalRevision, None)
  }

  /** No two exportable records share kind and id. */
  ghost predicate UniqueKeyed(entries: seq<Entry>) {
    forall i, j :: 0 <= i < j < |entries| && entries[i].kind in ExportedKinds() && entries[j].kind in ExportedKinds() ==>
      KeyOf(entries[i]) != KeyOf(entries[j])
  }

  lemma BuiltKey(workspaceId: string, e: Entry, codec: Codec)
    requires BuildEnvelope(workspaceId, e, codec).Ok?
    ensures var envelope := BuildEnvelope(workspaceId, e, codec).value;
      && e.kind in ExportedKinds() && e.id == Some(envelope.recordId) && envelope.kind == ProjectedKind(e.kind)
      && KeyOf(e) == Key(e.kind, envelope.recordId)
  {
  }

  /** With distinct ids, the local dictionary holds every record's own envelope. */
  lemma {:induction false} LocalHolds(workspaceId: string, entries: seq<Entry>, n: nat, codec: Codec, i: nat)
    requires UniqueKeyed(entries) && i < n <= |entries|
    requires BuildEnvelope(workspaceId, entries[i], codec).Ok?
    ensures var envelope := BuildEnvelope(workspaceId, entries[i], codec).value;
      var key := LocalKey(envelope.kind, envelope.recordId);
      key in Local(workspaceId, entries, n, codec) && Local(workspaceId, entries, n, codec)[key] == envelope
  {
    if i < n - 1 {
      LocalHolds(workspaceId, entries, n - 1, codec, i);
      var last := BuildEnvelope(workspaceId, entries[n - 1], codec);
      if last.Ok? {
        BuiltKey(workspaceId, entries[i], codec);
        BuiltKey(workspaceId, entries[n - 1], codec);
        assert KeyOf(entries[i]) != KeyOf(entries[n - 1]);
        if last.value.kind == BuildEnvelope(workspaceId, entries[i], codec).value.kind {
          ProjectionInjective(entries[i].kind, entries[n - 1].kind);
        }
      }
    }
  }

  /** Importing an export into its own unchanged workspace finds every record as an exact local duplicate. */
  lemma ReimportIsExact(
      workspaceId: string, entries: seq<Entry>, scope: Scope, codec: Codec, matches: Envelope -> Option<string>, e: Envelope)
    requires UniqueKeyed(entries) && Select(entries, scope).Ok?
    requires var selected := Select(entries, scope).value;
      Envelopes(workspaceId, selected, codec).Ok? && e in Envelopes(workspaceId, selected, codec).value
    ensures ClassifyEnvelope(e, Local(workspaceId, entries, |entries|, codec), matches) ==
      Conflict(e, ExactLocalDuplicate, Some(e.recordId))
  {
    var selected := Select(entries, scope).value;
    SelectedAreEntries(entries, scope);
    var i := EnvelopeOrigin(workspaceId, selected, codec, e);
    assert selected[i] in selected;
    var k :| 0 <= k < |entries| && entries[k] == selected[i];
    LocalHolds(workspaceId, entries, |entries|, codec, k);
  }
}
