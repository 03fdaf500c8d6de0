/** What an export holds: the records its scope means, kind by kind, and the envelopes they are wrapped in. */
module ExchangeContents {
  import opened Wrappers
  import opened Selection
  import opened ExchangeExport
  import opened ExchangeBundle
  import opened ExchangeAgreement
  import opened ExchangeBuild

  // ----- Kinds -----

  /** What is said about papers. */
  predicate OfPaper(kind: string) {
    || kind == "registry-paper" || kind == "paper-card" || kind == "evidence" || kind == "review-queue"
    || kind == "review-memory" || kind == "primary-semantic-bundle" || kind == "review-semantic-bundle"
  }

  predicate OfQuestion(kind: string) {
    || kind == "question-mapping" || kind == "question-revision-bundle"
    || kind == "screening-criteria-bundle" || kind == "screening-decision-bundle"
    || kind == "step7-synthesis" || kind == "step7-review-angle" || kind == "step7-insight" || kind == "step7-cross-view"
  }

  predicate OfDirection(kind: string) { kind == "direction-bundle" || kind == "field-map-bundle" }

  predicate OfTags(kind: string) { kind == "tag-bundle" || kind == "tag-link-bundle" }

  predicate Leaves(kind: string) { OfPaper(kind) || OfQuestion(kind) || OfDirection(kind) || OfTags(kind) }

  // ----- What a scope means -----

  predicate Links(l: Entry, targetKind: string, targetId: string) {
    l.kind == "tag-link-bundle" && l.targetKind == targetKind && l.targetId == targetId
  }

  /** A tag link of the target, or the tag such a link names. */
  ghost predicate TagOf(entries: seq<Entry>, e: Entry, targetKind: string, targetId: string) {
    || Links(e, targetKind, targetId)
    || (e.kind == "tag-bundle" && exists l :: l in entries && Links(l, targetKind, targetId) && l.tagId == e.tagId)
  }

  ghost predicate Meant(entries: seq<Entry>, scope: Scope, e: Entry) {
    && e in entries && Leaves(e.kind)
    && match scope
       case WholeWorkspace => true
       case OnePaper(id) => (OfPaper(e.kind) && id in e.papers) || TagOf(entries, e, "paper", id)
       case OneQuestion(id) =>
         || (OfQuestion(e.kind) && id in e.questions) || TagOf(entries, e, "question", id)
         || (OfPaper(e.kind) && exists q, p :: q in entries && OfQuestion(q.kind) && id in q.questions && p in q.papers && p in e.papers)
       case OneDirection(id) =>
         || (OfDirection(e.kind) && id in e.directions) || TagOf(entries, e, "direction", id)
         || (OfPaper(e.kind) && exists d, p :: d in entries && OfDirection(d.kind) && id in d.directions && p in d.papers && p in e.papers)
  }

  lemma KindsAre(kind: string)
    ensures kind in PaperKinds <==> OfPaper(kind)
    ensures kind in QuestionKinds <==> OfQuestion(kind)
    ensures kind in DirectionKinds <==> OfDirection(kind)
    ensures kind in ExportedKinds() <==> Leaves(kind)
  {
  }

  lemma ExportableAre(entries: seq<Entry>, e: Entry)
    ensures e in Exportable(entries) <==> e in entries && Leaves(e.kind)
  {
    FilterContents(entries, (x: Entry) => x.kind in ExportedKinds());
    KindsAre(e.kind);
  }

  lemma TagsAre(entries: seq<Entry>, e: Entry, targetKind: string, targetId: string)
    ensures Tags(Exportable(entries), e, targetKind, targetId) <==> TagOf(entries, e, targetKind, targetId)
  {
    forall l ensures l in Exportable(entries) <==> l in entries && Leaves(l.kind) {
      ExportableAre(entries, l);
    }
  }

  lemma QuestionPapersAre(entries: seq<Entry>, e: Entry, id: string)
    ensures SharesPaper(Exportable(entries), e, q => AboutQuestion(q, id)) <==>
      OfPaper(e.kind) && exists q, p :: q in entries && OfQuestion(q.kind) && id in q.questions && p in q.papers && p in e.papers
  {
    KindsAre(e.kind);
    var chosen := q => AboutQuestion(q, id);
    forall q ensures q in Exportable(entries) && chosen(q) <==> q in entries && OfQuestion(q.kind) && id in q.questions {
      ExportableAre(entries, q);
      KindsAre(q.kind);
    }
  }

  lemma DirectionPapersAre(entries: seq<Entry>, e: Entry, id: string)
    ensures SharesPaper(Exportable(entries), e, d => AboutDirection(d, id)) <==>
      OfPaper(e.kind) && exists d, p :: d in entries && OfDirection(d.kind) && id in d.directions && p in d.papers && p in e.papers
  {
    KindsAre(e.kind);
    var chosen := d => AboutDirection(d, id);
    forall d ensures d in Exportable(entries) && chosen(d) <==> d in entries && OfDirection(d.kind) && id in d.directions {
      ExportableAre(entries, d);
      KindsAre(d.kind);
    }
  }

  lemma ScopeMeans(entries: seq<Entry>, scope: Scope, e: Entry)
    ensures ExportedInScope(entries, scope, e) <==> Meant(entries, scope, e)
  {
    KindsAre(e.kind);
    match scope
    case WholeWorkspace =>
    case OnePaper(id) => TagsAre(entries, e, "paper", id);
    case OneQuestion(id) =>
      TagsAre(entries, e, "question", id);
      QuestionPapersAre(entries, e, id);
    case OneDirection(id) =>
      TagsAre(entries, e, "direction", id);
      DirectionPapersAre(entries, e, id);
  }

  /**
   With distinct keys a selection is exactly the records its scope means, whatever their kind, and it is
   refused exactly when one of those has no id or there are none.
   */
  lemma SelectionByKind(entries: seq<Entry>, scope: Scope)
    requires DistinctBy(entries, KeyOf)
    ensures Select(entries, scope).Ok? <==>
      && (exists e :: Meant(entries, scope, e))
      && forall e :: Meant(entries, scope, e) ==> e.id.Some? && e.id.value != ""
    ensures Select(entries, scope).Ok? ==> forall e :: e in Select(entries, scope).value <==> Meant(entries, scope, e)
  {
    var chosen := Chosen(Exportable(entries), scope);
    forall e ensures e in chosen <==> Meant(entries, scope, e) {
      ChosenAreInScope(Exportable(entries), scope, e);
      ExportableAre(entries, e);
      KindsAre(e.kind);
      ScopeMeans(entries, scope, e);
    }
    assert chosen != [] ==> chosen[0] in chosen;
    if Select(entries, scope).Ok? {
      forall e ensures e in Select(entries, scope).value <==> Meant(entries, scope, e) {
        SelectionIsScope(entries, scope, e);
        ScopeMeans(entries, scope, e);
      }
    }
  }

  // ----- Envelopes -----

  /** A paper leaves as its identity, any other record as it is. */
  function Leaving(x: Entry, codec: Codec): string { if x.kind == "registry-paper" then codec.identity(x.content) else x.content }

  /** The envelope of a record: its origin, its id, the kind it leaves as, and the digest of what leaves. */
  predicate Wraps(e: Envelope, x: Entry, workspaceId: string, codec: Codec) {
    && e.originId == workspaceId && Some(e.recordId) == x.id
    && e.kind == (if x.kind == "registry-paper" then "exchange-paper-identity" else x.kind)
    && e.record == Leaving(x, codec) && e.digest == codec.sha(codec.record(e.record))
  }

  /** A record may leave: its kind does, it has an id, shows no path, and validates. */
  ghost predicate MayLeave(x: Entry, workspaceId: string, codec: Codec) {
    && Leaves(x.kind) && x.id.Some? && x.id.value != ""
    && codec.pathFree(Leaving(x, codec))
    && (x.kind == "registry-paper" ==> codec.recordOk("exchange-paper-identity", Leaving(x, codec)))
    && exists e :: Wraps(e, x, workspaceId, codec) && codec.envelopeOk(e)
  }

  lemma EnvelopeWraps(x: Entry, workspaceId: string, codec: Codec)
    ensures var built := BuildEnvelope(workspaceId, x, codec);
      && (built.Ok? <==> MayLeave(x, workspaceId, codec))
      && (built.Ok? ==> Wraps(built.value, x, workspaceId, codec) && codec.envelopeOk(built.value))
  {
    KindsAre(x.kind);
    if x.id.Some? {
      var e := Envelope(workspaceId, x.id.value, ProjectedKind(x.kind), codec.sha(codec.record(Projected(x, codec))), Projected(x, codec));
      assert Wraps(e, x, workspaceId, codec);
      assert forall o :: Wraps(o, x, workspaceId, codec) ==> o == e;
    }
  }

  lemma {:induction false} AllBuilt(results: seq<Result<Envelope, ExportError>>, n: nat)
    requires n <= |results|
    ensures Sequenced(results, n).Ok? <==> forall i :: 0 <= i < n ==> results[i].Ok?
  {
    if n > 0 {
      AllBuilt(results, n - 1);
    }
  }

  /** All selected records are wrapped, one by one and in order, or some record may not leave and nothing is. */
  lemma EnvelopesWrap(workspaceId: string, selected: seq<Entry>, codec: Codec)
    ensures var wrapped := Envelopes(workspaceId, selected, codec);
      && (wrapped.Ok? <==> forall x :: x in selected ==> MayLeave(x, workspaceId, codec))
      && (wrapped.Ok? ==> |wrapped.value| == |selected|)
      && (wrapped.Ok? ==>
            forall i :: 0 <= i < |selected| ==> Wraps(wrapped.value[i], selected[i], workspaceId, codec))
  {
    var results := Built(workspaceId, selected, codec);
    AllBuilt(results, |selected|);
    forall i | 0 <= i < |selected|
      ensures results[i].Ok? <==> MayLeave(selected[i], workspaceId, codec)
      ensures results[i].Ok? ==> Wraps(results[i].value, selected[i], workspaceId, codec)
    {
      EnvelopeWraps(selected[i], workspaceId, codec);
    }
    if Envelopes(workspaceId, selected, codec).Ok? {
      SequencedContents(results, |selected|);
    }
  }

  // ----- Sources -----

  /** A current asset whose bytes are a PDF and still have the recorded fingerprint. */
  predicate Current(a: Asset, sha: Bytes -> string, isPdf: Bytes -> bool) {
    a.isCurrent && a.content.Some? && sha(a.content.value) == a.fingerprint && isPdf(a.content.value)
  }

  /** The descriptor of an asset: where it comes from, and the bytes it stands for. */
  predicate Stands(d: Source, a: Asset) {
    && a.content.Some? && d.paperId == a.paperId && d.assetId == a.assetId && d.role == a.role
    && d.fingerprint == a.fingerprint && d.bytes == |a.content.value|
    && d.archivePath == "sources/sha256/" + a.fingerprint + ".pdf"
  }

  /** Descriptor by descriptor the current assets, in order; nothing else. */
  ghost predicate StandsFor(descriptors: seq<Source>, current: seq<Asset>) {
    |descriptors| == |current| && forall i :: 0 <= i < |current| ==> Stands(descriptors[i], current[i])
  }

  lemma {:induction false} DescriptorsStand(assets: seq<Asset>, n: nat, f: Format)
    requires n <= |assets|
    ensures StandsFor(SourcesOf(assets, n, f).descriptors, Filter(assets[..n], (a: Asset) => Current(a, f.codec.sha, f.isPdf)))
  {
    if n > 0 {
      DescriptorsStand(assets, n - 1, f);
      assert assets[..n][..n - 1] == assets[..n - 1];
    }
  }

  function PathOf(a: Asset): string { "sources/sha256/" + a.fingerprint + ".pdf" }

  /** The bytes of every current asset are there, under its fingerprint. */
  ghost predicate CurrentFiled(files: Files, assets: seq<Asset>, n: nat, f: Format)
    requires n <= |assets|
  {
    forall i :: 0 <= i < n && Current(assets[i], f.codec.sha, f.isPdf) ==>
      PathOf(assets[i]) in files && assets[i].content == Some(files[PathOf(assets[i])])
  }

  ghost predicate FromCurrent(path: string, assets: seq<Asset>, n: nat, f: Format)
    requires n <= |assets|
  {
    exists i :: 0 <= i < n && Current(assets[i], f.codec.sha, f.isPdf) && PathOf(assets[i]) == path
  }

  /** No file is there without a current asset. */
  ghost predicate OnlyCurrent(files: Files, assets: seq<Asset>, n: nat, f: Format)
    requires n <= |assets|
  {
    forall path :: path in files ==> FromCurrent(path, assets, n, f)
  }

  ghost predicate NamedByDigest(files: Files, sha: Bytes -> string) {
    forall path :: path in files ==> path == SourcePath(sha(files[path]))
  }

  lemma {:induction false} FilesNamed(assets: seq<Asset>, n: nat, f: Format)
    requires n <= |assets|
    ensures NamedByDigest(SourcesOf(assets, n, f).files, f.codec.sha)
  {
    if n > 0 {
      FilesNamed(assets, n - 1, f);
    }
  }

  lemma {:induction false} CurrentAreFiled(assets: seq<Asset>, n: nat, f: Format)
    requires n <= |assets| && Injective(f.codec.sha)
    ensures CurrentFiled(SourcesOf(assets, n, f).files, assets, n, f)
  {
    if n > 0 {
      var before, a := SourcesOf(assets, n - 1, f).files, assets[n - 1];
      CurrentAreFiled(assets, n - 1, f);
      FilesNamed(assets, n - 1, f);
      if Usable(a, f) && PathOf(a) in before {
        SourcePathInjective(a.fingerprint, f.codec.sha(before[PathOf(a)]));
        assert before[PathOf(a)] == a.content.value;
      }
    }
  }

  lemma {:induction false} FiledAreCurrent(assets: seq<Asset>, n: nat, f: Format)
    requires n <= |assets|
    ensures OnlyCurrent(SourcesOf(assets, n, f).files, assets, n, f)
  {
    if n > 0 {
      var files := SourcesOf(assets, n, f).files;
      FiledAreCurrent(assets, n - 1, f);
      forall path | path in files ensures FromCurrent(path, assets, n, f) {
        if path in SourcesOf(assets, n - 1, f).files {
          assert FromCurrent(path, assets, n - 1, f);
        } else {
          assert PathOf(assets[n - 1]) == path;
        }
      }
    }
  }

  /** With an injective digest an export archives exactly its current PDFs: a descriptor for each, in order, and their bytes. */
  lemma SourcesStand(assets: seq<Asset>, f: Format)
    requires Injective(f.codec.sha)
    ensures StandsFor(SourcesOf(assets, |assets|, f).descriptors, Filter(assets, (a: Asset) => Current(a, f.codec.sha, f.isPdf)))
    ensures CurrentFiled(SourcesOf(assets, |assets|, f).files, assets, |assets|, f)
    ensures OnlyCurrent(SourcesOf(assets, |assets|, f).files, assets, |assets|, f)
  {
    DescriptorsStand(assets, |assets|, f);
    CurrentAreFiled(assets, |assets|, f);
    FiledAreCurrent(assets, |assets|, f);
    assert assets[..|assets|] == assets;
  }
}
