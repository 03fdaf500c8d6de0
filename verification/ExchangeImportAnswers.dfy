/** What an import that is not cut off answers, in terms of the disk it finds and the disk it leaves. */
module ExchangeImportAnswers {
  import opened Wrappers
  import opened StringOrder
  import opened ExchangeImport
  import Listing

  // ----- Published packages, as the disk shows them -----

  /** Every published package passes its checks. */
  ghost predicate AllReadable(r: Reader, d: Disk) {
    forall name :: name in d.targets && d.targets[name].Directory? ==> Inspect(r, d.targets[name].tree).Some?
  }

  /** A published package whose receipt carries a digest. */
  ghost predicate HoldsArchive(r: Reader, d: Disk, sha: string, name: string) {
    && name in d.targets && d.targets[name].Directory? && Inspect(r, d.targets[name].tree).Some?
    && Inspect(r, d.targets[name].tree).value.archiveSha == sha
  }

  /** The import id an archive is published under: the receipt id of the first package in name order that holds it. */
  ghost predicate PublishedAs(r: Reader, d: Disk, sha: string, held: Option<string>) {
    match held
    case None => forall name :: !HoldsArchive(r, d, sha, name)
    case Some(id) =>
      exists name :: HoldsArchive(r, d, sha, name) && Inspect(r, d.targets[name].tree).value.importId == id
        && forall other :: HoldsArchive(r, d, sha, other) ==> Leq(name, other)
  }

  /** The bundle is supported and every package readable, and the archive is published as `held`. */
  ghost predicate Previewed(r: Reader, d: Disk, x: ApplyInput, held: Option<string>) {
    r.supported(x.archive) && AllReadable(r, d) && PublishedAs(r, d, r.digest(x.archive), held)
  }

  /** The request still matches what its preview said. */
  predicate Matches(r: Reader, x: ApplyInput, held: Option<string>) {
    x.expectedSha == r.digest(x.archive) && x.expectedBasis == r.basis(r.digest(x.archive), held)
  }

  predicate Free(d: Disk, id: string) { id !in d.journals && id !in d.stages && id !in d.targets }

  /** Everything is in order for a new import. */
  ghost predicate Fresh(r: Reader, d: Disk, x: ApplyInput) {
    Previewed(r, d, x, None) && Matches(r, x, None) && Free(d, x.importId)
  }

  // ----- What the listing finds -----

  /** The first name of a listing that holds the archive. */
  ghost predicate FirstHolder(r: Reader, d: Disk, sha: string, listing: seq<string>, k: nat) {
    && k < |listing| && HoldsArchive(r, d, sha, listing[k])
    && forall j :: 0 <= j < k ==> !HoldsArchive(r, d, sha, listing[j])
  }

  lemma {:induction false} FirstOfLonger(receipts: seq<Receipt>, last: Receipt, sha: string)
    ensures FirstWithSha(receipts + [last], sha) ==
      if FirstWithSha(receipts, sha).Some? then FirstWithSha(receipts, sha)
      else if last.archiveSha == sha then Some(last.importId) else None
  {
    if receipts != [] {
      assert (receipts + [last])[1..] == receipts[1..] + [last];
      FirstOfLonger(receipts[1..], last, sha);
    }
  }

  lemma {:induction false} ListedReadable(r: Reader, d: Disk, listing: seq<string>)
    ensures Imports(r, d.targets, listing).Some? <==>
      forall name :: name in listing && name in d.targets && d.targets[name].Directory? ==>
        Inspect(r, d.targets[name].tree).Some?
  {
    if listing != [] {
      var init, last := listing[..|listing| - 1], listing[|listing| - 1];
      assert listing == init + [last];
      ListedReadable(r, d, init);
    }
  }

  lemma {:induction false} ListedFirst(r: Reader, d: Disk, sha: string, listing: seq<string>) returns (k: nat)
    requires Imports(r, d.targets, listing).Some?
    ensures var found := FirstWithSha(Imports(r, d.targets, listing).value, sha);
      && (found.None? ==> forall j :: 0 <= j < |listing| ==> !HoldsArchive(r, d, sha, listing[j]))
      && (found.Some? ==>
            FirstHolder(r, d, sha, listing, k) && found.value == Inspect(r, d.targets[listing[k]].tree).value.importId)
  {
    k := 0;
    if listing != [] {
      var init, last := listing[..|listing| - 1], listing[|listing| - 1];
      k := ListedFirst(r, d, sha, init);
      var earlier := Imports(r, d.targets, init).value;
      if last in d.targets && d.targets[last].Directory? {
        FirstOfLonger(earlier, Inspect(r, d.targets[last].tree).value, sha);
      }
      if FirstWithSha(earlier, sha).Some? {
        assert listing[k] == init[k];
      } else {
        k := |init|;
      }
    }
  }

  /** The look-up of an archive among the published packages answers what the disk shows. */
  lemma ExistingMeans(r: Reader, d: Disk, sha: string)
    ensures Existing(r, d, sha).None? <==> !AllReadable(r, d)
    ensures Existing(r, d, sha).Some? ==> PublishedAs(r, d, sha, Existing(r, d, sha).value)
  {
    var listing := Listing.Sorted(d.targets.Keys);
    Listing.SortedListsSet(d.targets.Keys);
    Listing.SortedAscends(d.targets.Keys);
    ListedReadable(r, d, listing);
    if Existing(r, d, sha).Some? {
      var k := ListedFirst(r, d, sha, listing);
      var held := Existing(r, d, sha).value;
      if held.Some? {
        forall other | HoldsArchive(r, d, sha, other) ensures Leq(listing[k], other) {
          var j :| 0 <= j < |listing| && listing[j] == other;
          LeqReflexive(other);
        }
      } else {
        forall name ensures !HoldsArchive(r, d, sha, name) {
          if name in d.targets {
            var j :| 0 <= j < |listing| && listing[j] == name;
          }
        }
      }
    }
  }

  lemma PublishedOnce(r: Reader, d: Disk, sha: string, a: Option<string>, b: Option<string>)
    requires PublishedAs(r, d, sha, a) && PublishedAs(r, d, sha, b)
    ensures a == b
  {
    if a.Some? && b.Some? {
      var x :| HoldsArchive(r, d, sha, x) && Inspect(r, d.targets[x].tree).value.importId == a.value
        && forall other :: HoldsArchive(r, d, sha, other) ==> Leq(x, other);
      var y :| HoldsArchive(r, d, sha, y) && Inspect(r, d.targets[y].tree).value.importId == b.value
        && forall other :: HoldsArchive(r, d, sha, other) ==> Leq(y, other);
      LeqAntisymmetric(x, y);
    }
  }

  // ----- The answers -----

  /** The import is on the disk: its package passes its checks, its journal is complete, its stage is gone. */
  ghost predicate OnDisk(r: Reader, e: Disk, id: string, sha: string) {
    && HoldsArchive(r, e, sha, id) && Inspect(r, e.targets[id].tree).value.importId == id
    && id in e.journals && e.journals[id].phase == Complete && e.journals[id].outcome == Success
    && e.journals[id].archiveSha == sha && id !in e.stages
  }

  /** The extraction and the receipt of an import come out as its preview had it. */
  predicate StagesWell(r: Reader, x: ApplyInput) {
    && r.extract(x.reread).Some? && r.digest(x.reread) == r.digest(x.archive)
    && r.receiptOk(Receipt(x.importId, r.digest(x.archive), r.binding(x.archive), x.rest))
  }

  /** What an import that is not cut off answers before it writes anything. */
  ghost predicate AnsweredEarly(r: Reader, d: Disk, x: ApplyInput, a: ApplyResult) {
    && (a == Failed(UnsupportedBundle) <==> !r.supported(x.archive))
    && (a == Failed(CorruptPackage) <==> r.supported(x.archive) && !AllReadable(r, d))
    && (a == Failed(BasisChanged) <==> exists held :: Previewed(r, d, x, held) && !Matches(r, x, held))
    && (forall id :: a == NoChange(id) <==> Previewed(r, d, x, Some(id)) && Matches(r, x, Some(id)))
    && (a == Failed(IdInUse) <==> Previewed(r, d, x, None) && Matches(r, x, None) && !Free(d, x.importId))
  }

  /** What it answers once it has started to write. */
  ghost predicate AnsweredLate(r: Reader, d: Disk, x: ApplyInput, a: ApplyResult) {
    && (a == Failed(ExtractionFailed) <==> Fresh(r, d, x) && r.extract(x.reread).None?)
    && (a == Failed(ArchiveChanged) <==>
          Fresh(r, d, x) && r.extract(x.reread).Some? && r.digest(x.reread) != r.digest(x.archive))
    && (a == Failed(ReceiptRefused) <==>
          && Fresh(r, d, x) && r.extract(x.reread).Some? && r.digest(x.reread) == r.digest(x.archive)
          && !StagesWell(r, x))
    && (a == Failed(PackageInvalid) <==> Fresh(r, d, x) && StagesWell(r, x) && !r.sound(Package(r, x)))
    && (forall id :: a == Imported(id) <==>
          id == x.importId && Fresh(r, d, x) && StagesWell(r, x) && r.sound(Package(r, x)))
  }

  lemma BeginsWhenFresh(r: Reader, d: Disk, x: ApplyInput)
    ensures Begins(r, d, x) <==> Fresh(r, d, x)
  {
    ExistingMeans(r, d, r.digest(x.archive));
    if Existing(r, d, r.digest(x.archive)).Some? && Fresh(r, d, x) {
      PublishedOnce(r, d, r.digest(x.archive), None, Existing(r, d, r.digest(x.archive)).value);
    }
  }

  lemma EarlyAnswers(r: Reader, d: Disk, x: ApplyInput)
    ensures AnsweredEarly(r, d, x, ApplyTrace(r, d, x).result)
  {
    var sha, found := r.digest(x.archive), Existing(r, d, r.digest(x.archive));
    ExistingMeans(r, d, sha);
    forall held | found.Some? && PublishedAs(r, d, sha, held) ensures held == found.value {
      PublishedOnce(r, d, sha, held, found.value);
    }
    if found.Some? && r.supported(x.archive) {
      assert Previewed(r, d, x, found.value);
    }
  }

  lemma LateAnswers(r: Reader, d: Disk, x: ApplyInput)
    requires ReceiptsRead(r)
    ensures AnsweredLate(r, d, x, ApplyTrace(r, d, x).result)
  {
    BeginsWhenFresh(r, d, x);
    BeginsMeans(r, d, x);
    if Begins(r, d, x) && StagingFault(r, x).None? {
      SealedReceipt(r, r.extract(x.reread).value, ReceiptOf(r, x));
    }
  }

  /** The import succeeded exactly if the disk it leaves holds it under an id that was free before. */
  lemma ImportedIsOnDisk(r: Reader, d: Disk, x: ApplyInput, id: string)
    requires ReceiptsRead(r)
    ensures var e := Last(ApplyTrace(r, d, x).states);
      ApplyTrace(r, d, x).result == Imported(id) <==> id == x.importId && Free(d, id) && OnDisk(r, e, id, r.digest(x.archive))
  {
    BeginsMeans(r, d, x);
    var states := ApplyTrace(r, d, x).states;
    if Begins(r, d, x) && id == x.importId {
      PublishLength(r, d, x);
      PublishSlotsAreStates(r, d, x, |states| - 1);
      LastSlot(r, d, x);
    }
  }

  lemma LastSlot(r: Reader, d: Disk, x: ApplyInput)
    requires ReceiptsRead(r) && !IdTaken(d, x.importId)
    ensures var states := PublishTrace(r, d, x).states;
      PublishTrace(r, d, x).result == Imported(x.importId) <==> |states| == 9
    ensures |PublishTrace(r, d, x).states| == 9 ==>
      OnDisk(r, Last(PublishTrace(r, d, x).states), x.importId, r.digest(x.archive))
  {
    var t := PublishTrace(r, d, x).states;
    PublishSlotsAreStates(r, d, x, |t| - 1);
    if |t| == 9 {
      SealedReceipt(r, r.extract(x.reread).value, ReceiptOf(r, x));
      assert SlotOf(Last(t), x.importId) == PublishSlots(r, x, Extraction(r, x))[8];
    }
  }

  /** What an import answers, and the disk it leaves, in terms of the disk it finds. */
  ghost predicate Answered(r: Reader, d: Disk, x: ApplyInput, e: Disk, a: ApplyResult) {
    && AnsweredEarly(r, d, x, a) && AnsweredLate(r, d, x, a)
    && (forall id :: a == Imported(id) <==> id == x.importId && Free(d, id) && OnDisk(r, e, id, r.digest(x.archive)))
    && (!Fresh(r, d, x) ==> e == d)
  }

  /**
   An import that is not cut off: every answer has its own condition on the disk and the request;
   `Imported` also says that the package is on the disk under an id that was free, `NoChange` that the
   first package holding the archive carries that id; without a fresh request nothing changes.
   */
  lemma ApplyAnswers(r: Reader, d: Disk, x: ApplyInput)
    requires ReceiptsRead(r)
    ensures Answered(r, d, x, Last(ApplyTrace(r, d, x).states), ApplyTrace(r, d, x).result)
    ensures ApplyTrace(r, d, x).result != Died
  {
    EarlyAnswers(r, d, x);
    LateAnswers(r, d, x);
    BeginsWhenFresh(r, d, x);
    BeginsMeans(r, d, x);
    forall id ensures ApplyTrace(r, d, x).result == Imported(id) <==>
      id == x.importId && Free(d, id) && OnDisk(r, Last(ApplyTrace(r, d, x).states), id, r.digest(x.archive))
    {
      ImportedIsOnDisk(r, d, x, id);
    }
  }
}
