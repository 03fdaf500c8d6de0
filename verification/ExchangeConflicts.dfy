/** How an imported record is classified against the records of the local workspace. */
module ExchangeConflicts {
  import opened Wrappers
  import opened ExchangeExport
  import opened ExchangeAgreement

  /** What identifies a paper besides its id: the fingerprint of its source, and its folded DOI, empty without one. */
  datatype Paper = Paper(fingerprint: string, doi: string)

  /** Reading the identity of a paper out of its exported record, which is not part of this model. */
  type Reading = string -> Paper

  predicate SamePaper(a: Paper, b: Paper) { a.fingerprint == b.fingerprint || (b.doi != "" && a.doi == b.doi) }

  /** The envelopes of the local papers, in the order of the records. */
  function Papers(workspaceId: string, entries: seq<Entry>, n: nat, codec: Codec): seq<Envelope>
    requires n <= |entries|
  {
    if n == 0 then []
    else
      WithPaper(Papers(workspaceId, entries, n - 1, codec), BuildEnvelope(workspaceId, entries[n - 1], codec))
  }

  function WithPaper(papers: seq<Envelope>, built: Result<Envelope, ExportError>): seq<Envelope> {
    if built.Ok? && built.value.kind == IdentityKind then papers + [built.value] else papers
  }

  /** The id of the first local paper that is the imported one. */
  function FirstSame(papers: seq<Envelope>, e: Envelope, reading: Reading): Option<string> {
    if papers == [] then None
    else if SamePaper(reading(papers[0].record), reading(e.record)) then Some(papers[0].recordId)
    else FirstSame(papers[1..], e, reading)
  }

  function Matcher(papers: seq<Envelope>, reading: Reading): Envelope -> Option<string> {
    e => FirstSame(papers, e, reading)
  }

  /** The classification of one imported record. */
  function Classify(e: Envelope, workspaceId: string, entries: seq<Entry>, codec: Codec, reading: Reading): Conflict {
    ClassifyEnvelope(
      e, Local(workspaceId, entries, |entries|, codec), Matcher(Papers(workspaceId, entries, |entries|, codec), reading))
  }

  // ----- The local record under the same kind and id -----

  /** A local record that is exported under the kind and id of an imported one. */
  predicate SameRecord(x: Entry, e: Envelope, workspaceId: string, codec: Codec) {
    var built := BuildEnvelope(workspaceId, x, codec);
    built.Ok? && built.value.kind == e.kind && built.value.recordId == e.recordId
  }

  /** The last local record under the kind and id of an imported one. */
  ghost predicate LastSame(entries: seq<Entry>, e: Envelope, workspaceId: string, codec: Codec, i: nat) {
    && i < |entries| && SameRecord(entries[i], e, workspaceId, codec)
    && forall j :: i < j < |entries| ==> !SameRecord(entries[j], e, workspaceId, codec)
  }

  ghost predicate NoSame(entries: seq<Entry>, n: nat, e: Envelope, workspaceId: string, codec: Codec)
    requires n <= |entries|
  {
    forall i :: 0 <= i < n ==> !SameRecord(entries[i], e, workspaceId, codec)
  }

  /** One envelope more among the local ones. */
  function Filed(local: map<LocalKey, Envelope>, built: Result<Envelope, ExportError>): map<LocalKey, Envelope> {
    if built.Ok? then local[LocalKey(built.value.kind, built.value.recordId) := built.value] else local
  }

  lemma FiledAt(local: map<LocalKey, Envelope>, built: Result<Envelope, ExportError>, e: Envelope)
    ensures var key := LocalKey(e.kind, e.recordId);
      var same := built.Ok? && built.value.kind == e.kind && built.value.recordId == e.recordId;
      && (key in Filed(local, built) <==> same || key in local)
      && (same ==> Filed(local, built)[key] == built.value)
      && (!same && key in local ==> Filed(local, built)[key] == local[key])
  {
  }

  /** The local envelope under a key is that of the last record of its kind and id among the first `n`. */
  ghost predicate LocalAt(
      local: map<LocalKey, Envelope>, entries: seq<Entry>, n: nat, e: Envelope, workspaceId: string, codec: Codec, i: nat)
    requires n <= |entries|
  {
    var key := LocalKey(e.kind, e.recordId);
    && (key !in local <==> NoSame(entries, n, e, workspaceId, codec))
    && (key in local ==>
          && LastSame(entries[..n], e, workspaceId, codec, i)
          && BuildEnvelope(workspaceId, entries[i], codec) == Ok(local[key]))
  }

  lemma LocalGrows(
      local: map<LocalKey, Envelope>, entries: seq<Entry>, n: nat, e: Envelope, workspaceId: string, codec: Codec, i: nat)
    requires n < |entries| && LocalAt(local, entries, n, e, workspaceId, codec, i)
    ensures var built := BuildEnvelope(workspaceId, entries[n], codec);
      LocalAt(Filed(local, built), entries, n + 1, e, workspaceId, codec, if SameRecord(entries[n], e, workspaceId, codec) then n else i)
  {
    var built := BuildEnvelope(workspaceId, entries[n], codec);
    FiledAt(local, built, e);
    assert entries[..n + 1] == entries[..n] + [entries[n]];
    if SameRecord(entries[n], e, workspaceId, codec) {
      assert LastSame(entries[..n + 1], e, workspaceId, codec, n);
    }
  }

  lemma {:induction false} LocalByPosition(workspaceId: string, entries: seq<Entry>, n: nat, codec: Codec, e: Envelope)
      returns (i: nat)
    requires n <= |entries|
    ensures LocalAt(Local(workspaceId, entries, n, codec), entries, n, e, workspaceId, codec, i)
  {
    i := 0;
    if n > 0 {
      i := LocalByPosition(workspaceId, entries, n - 1, codec, e);
      LocalGrows(Local(workspaceId, entries, n - 1, codec), entries, n - 1, e, workspaceId, codec, i);
      i := if SameRecord(entries[n - 1], e, workspaceId, codec) then n - 1 else i;
    }
  }

  // ----- The local paper that is the imported one -----

  /** A local paper with the source or the DOI of an imported one. */
  predicate SameIdentity(x: Entry, e: Envelope, workspaceId: string, codec: Codec, reading: Reading) {
    var built := BuildEnvelope(workspaceId, x, codec);
    built.Ok? && built.value.kind == IdentityKind && SamePaper(reading(built.value.record), reading(e.record))
  }

  ghost predicate FirstIdentity(entries: seq<Entry>, n: nat, e: Envelope, workspaceId: string, codec: Codec, reading: Reading, i: nat)
    requires n <= |entries|
  {
    && i < n && SameIdentity(entries[i], e, workspaceId, codec, reading)
    && forall j :: 0 <= j < i ==> !SameIdentity(entries[j], e, workspaceId, codec, reading)
  }

  lemma {:induction false} FirstOfMore(papers: seq<Envelope>, last: Envelope, e: Envelope, reading: Reading)
    ensures FirstSame(papers + [last], e, reading) ==
      if FirstSame(papers, e, reading).Some? then FirstSame(papers, e, reading)
      else if SamePaper(reading(last.record), reading(e.record)) then Some(last.recordId) else None
  {
    if papers != [] {
      assert (papers + [last])[1..] == papers[1..] + [last];
      FirstOfMore(papers[1..], last, e, reading);
    }
  }

  /** The paper found is the first one among the first `n` records that is the imported one. */
  ghost predicate PaperAt(
      found: Option<string>, entries: seq<Entry>, n: nat, e: Envelope, workspaceId: string, codec: Codec, reading: Reading, i: nat)
    requires n <= |entries|
  {
    && (found.None? <==> forall j :: 0 <= j < n ==> !SameIdentity(entries[j], e, workspaceId, codec, reading))
    && (found.Some? ==> FirstIdentity(entries, n, e, workspaceId, codec, reading, i) && entries[i].id == found)
  }

  lemma FirstWithPaper(papers: seq<Envelope>, built: Result<Envelope, ExportError>, e: Envelope, reading: Reading)
    ensures var found := FirstSame(papers, e, reading);
      FirstSame(WithPaper(papers, built), e, reading) ==
        if found.Some? then found
        else if built.Ok? && built.value.kind == IdentityKind && SamePaper(reading(built.value.record), reading(e.record)) then
          Some(built.value.recordId)
        else None
  {
    if built.Ok? && built.value.kind == IdentityKind {
      FirstOfMore(papers, built.value, e, reading);
    }
  }

  /** The first paper after one more record. */
  ghost function FirstAfter(
      found: Option<string>, x: Entry, e: Envelope, workspaceId: string, codec: Codec, reading: Reading): Option<string>
  {
    if found.Some? then found else if SameIdentity(x, e, workspaceId, codec, reading) then x.id else None
  }

  lemma PaperGrows(
      found: Option<string>, entries: seq<Entry>, n: nat, e: Envelope, workspaceId: string, codec: Codec, reading: Reading, i: nat)
    requires n < |entries| && PaperAt(found, entries, n, e, workspaceId, codec, reading, i)
    requires SameIdentity(entries[n], e, workspaceId, codec, reading) ==> entries[n].id.Some?
    ensures PaperAt(FirstAfter(found, entries[n], e, workspaceId, codec, reading), entries, n + 1, e, workspaceId, codec, reading,
                    if found.Some? then i else n)
  {
  }

  lemma PaperNext(papers: seq<Envelope>, x: Entry, e: Envelope, workspaceId: string, codec: Codec, reading: Reading)
    ensures SameIdentity(x, e, workspaceId, codec, reading) ==> x.id.Some?
    ensures FirstSame(WithPaper(papers, BuildEnvelope(workspaceId, x, codec)), e, reading) ==
      FirstAfter(FirstSame(papers, e, reading), x, e, workspaceId, codec, reading)
  {
    FirstWithPaper(papers, BuildEnvelope(workspaceId, x, codec), e, reading);
    if BuildEnvelope(workspaceId, x, codec).Ok? {
      BuiltKey(workspaceId, x, codec);
    }
  }

  lemma {:induction false} PaperByPosition(
      workspaceId: string, entries: seq<Entry>, n: nat, codec: Codec, e: Envelope, reading: Reading) returns (i: nat)
    requires n <= |entries|
    ensures PaperAt(
      FirstSame(Papers(workspaceId, entries, n, codec), e, reading), entries, n, e, workspaceId, codec, reading, i)
  {
    i := 0;
    if n > 0 {
      i := PaperByPosition(workspaceId, entries, n - 1, codec, e, reading);
      var before := Papers(workspaceId, entries, n - 1, codec);
      PaperNext(before, entries[n - 1], e, workspaceId, codec, reading);
      PaperGrows(FirstSame(before, e, reading), entries, n - 1, e, workspaceId, codec, reading, i);
      i := if FirstSame(before, e, reading).Some? then i else n - 1;
    }
  }

  // ----- The five answers -----

  /** What an imported record is classified as, over the local records. */
  ghost predicate Related(
      e: Envelope, c: Conflict, entries: seq<Entry>, workspaceId: string, codec: Codec, reading: Reading)
  {
    var none := NoSame(entries, |entries|, e, workspaceId, codec);
    && c.envelope == e
    && (c.classification == ExactLocalDuplicate <==>
          exists i: nat :: LastSame(entries, e, workspaceId, codec, i)
            && BuildEnvelope(workspaceId, entries[i], codec).value.digest == e.digest)
    && (c.classification == SemanticConflict <==>
          exists i: nat :: LastSame(entries, e, workspaceId, codec, i)
            && BuildEnvelope(workspaceId, entries[i], codec).value.digest != e.digest)
    && (c.classification == PaperIdentityMatch <==>
          none && e.kind == "exchange-paper-identity"
          && exists i: nat :: FirstIdentity(entries, |entries|, e, workspaceId, codec, reading, i))
    && (c.classification == NewExternalIdentity <==>
          none && e.kind == "exchange-paper-identity"
          && forall x :: x in entries ==> !SameIdentity(x, e, workspaceId, codec, reading))
    && (c.classification == NewExternalRevision <==> none && e.kind != "exchange-paper-identity")
    && (!none ==> c.localId == Some(e.recordId))
    && (c.classification == PaperIdentityMatch ==>
          forall i: nat :: FirstIdentity(entries, |entries|, e, workspaceId, codec, reading, i) ==> c.localId == entries[i].id)
    && (c.classification == NewExternalIdentity || c.classification == NewExternalRevision ==> c.localId == None)
  }

  lemma LastSameOnce(entries: seq<Entry>, e: Envelope, workspaceId: string, codec: Codec, i: nat, j: nat)
    requires LastSame(entries, e, workspaceId, codec, i) && LastSame(entries, e, workspaceId, codec, j)
    ensures i == j
  {
  }

  /**
   A record with a local record of its kind and id is an exact duplicate of the last such record, or in
   conflict with it, by their digests; otherwise a paper with the source or DOI of a local one is the
   first such paper, and any other record is new.
   */
  lemma ConflictsByRecords(e: Envelope, workspaceId: string, entries: seq<Entry>, codec: Codec, reading: Reading)
    ensures Related(e, Classify(e, workspaceId, entries, codec, reading), entries, workspaceId, codec, reading)
  {
    var i := LocalByPosition(workspaceId, entries, |entries|, codec, e);
    assert entries[..|entries|] == entries;
    var k := PaperByPosition(workspaceId, entries, |entries|, codec, e, reading);
    if !NoSame(entries, |entries|, e, workspaceId, codec) {
      assert LastSame(entries, e, workspaceId, codec, i);
      forall j: nat | LastSame(entries, e, workspaceId, codec, j) ensures j == i {
        LastSameOnce(entries, e, workspaceId, codec, i, j);
      }
    }
    if forall x :: x in entries ==> !SameIdentity(x, e, workspaceId, codec, reading) {
      forall j | 0 <= j < |entries| ensures !SameIdentity(entries[j], e, workspaceId, codec, reading) {
        assert entries[j] in entries;
      }
    }
  }
}
