/** Which archives an import can bring all the way, over every run, in terms of the archive's own names and sizes. */
module ExchangePublication {
  import opened Wrappers
  import opened ExchangePackage
  import opened ExchangePackageChecks
  import opened ExchangeImport
  import opened ExchangeImportRecovery

  /** The archive of an import fits: its package will pass its own checks. */
  ghost predicate ArchiveFits(w: Wire, p: Limits, x: ApplyInput) {
    PackageFits(x.archive, w.writeReceipt(ReceiptOf(ReaderOf(w, p), x)), p)
  }

  /** The package an import publishes passes its checks exactly when its archive fits. */
  lemma PublishedSoundExactly(w: Wire, p: Limits, x: ApplyInput)
    requires ReceiptsRead(ReaderOf(w, p)) && PlainNamesSafe(w)
    requires Supported(x.archive, w, p) && x.reread == x.archive && Extract(x.reread).Some?
    ensures ReaderOf(w, p).sound(Package(ReaderOf(w, p), x)) <==> ArchiveFits(w, p, x)
  {
    var r := ReaderOf(w, p);
    var receipt := ReceiptOf(r, x);
    assert r.readReceipt(r.writeReceipt(receipt)) == Some(receipt);
    PackageSoundExactly(x.archive, Extract(x.archive).value, receipt, w, p);
  }

  /** An import that gets as far as the rename with an archive that does not fit. */
  ghost predicate PublishesMisfit(w: Wire, p: Limits, d: Disk, e: Event, id: string) {
    && e.ApplyRun? && e.apply.importId == id && e.cut >= RENAME
    && Begins(ReaderOf(w, p), d, e.apply) && StagingFault(ReaderOf(w, p), e.apply).None?
    && !ArchiveFits(w, p, e.apply)
  }

  lemma MisfitIsRefused(w: Wire, p: Limits, d: Disk, e: Event, id: string)
    requires ReceiptsRead(ReaderOf(w, p)) && PlainNamesSafe(w) && Injective(w.digest)
    ensures PublishesRefused(ReaderOf(w, p), d, e, id) <==> PublishesMisfit(w, p, d, e, id)
  {
    if e.ApplyRun? && Begins(ReaderOf(w, p), d, e.apply) && StagingFault(ReaderOf(w, p), e.apply).None? {
      assert w.digest(e.apply.reread) == w.digest(e.apply.archive);
      PublishedSoundExactly(w, p, e.apply);
    }
  }

  ghost predicate MisfitAt(w: Wire, p: Limits, events: seq<Event>, i: nat, id: string)
    requires i < |events|
  {
    PublishesMisfit(w, p, Run(ReaderOf(w, p), events[..i]), events[i], id)
  }

  /**
   Over every run, recovery asks for manual resolution of an import if and only if some recovery died
   between unstaging it and rewriting its journal, or some import published it from an archive that
   does not fit: a name with an empty or dot component, a directory too long for the walk's
   placeholder, or no room for the receipt.
   */
  lemma ManualExactlyByCutOrMisfit(w: Wire, p: Limits, events: seq<Event>, id: string)
    requires ReceiptsRead(ReaderOf(w, p)) && PlainNamesSafe(w) && Injective(w.digest)
    ensures Decide(ReaderOf(w, p), Run(ReaderOf(w, p), events), id) == Some(Manual) <==>
      || (exists i: nat :: i < |events| && CutAt(ReaderOf(w, p), events, i, id))
      || (exists i: nat :: i < |events| && MisfitAt(w, p, events, i, id))
  {
    var r := ReaderOf(w, p);
    ManualExactlyFor(r, events, id);
    forall i: nat | i < |events| ensures RefusedAt(r, events, i, id) <==> MisfitAt(w, p, events, i, id) {
      MisfitIsRefused(w, p, Run(r, events[..i]), events[i], id);
    }
  }

  /** From every crash point of an import, how one recovery settles it is decided by the rename and by whether the archive fits. */
  lemma ImportSettlesByFit(w: Wire, p: Limits, d: Disk, x: ApplyInput, k: nat, y: RecoverInput)
    requires ReceiptsRead(ReaderOf(w, p)) && PlainNamesSafe(w) && Injective(w.digest)
    requires 1 <= k < |ApplyTrace(ReaderOf(w, p), d, x).states|
    ensures var r := ReaderOf(w, p);
      var crashed := ApplyTrace(r, d, x).states[k];
      var s := SlotOf(Recovered(r, crashed, y), x.importId);
      && s.stage.None?
      && (Settles(s, Complete, Failure) <==> k < RENAME)
      && (Settles(s, Complete, Success) <==> k >= RENAME && ArchiveFits(w, p, x))
      && (Settles(s, NeedsResolution, Unresolved) <==> k >= RENAME && !ArchiveFits(w, p, x))
  {
    SettledBySoundness(ReaderOf(w, p), d, x, k, y);
    if k >= RENAME {
      assert w.digest(x.reread) == w.digest(x.archive);
      PublishedSoundExactly(w, p, x);
    }
  }

  lemma SettledBySoundness(r: Reader, d: Disk, x: ApplyInput, k: nat, y: RecoverInput)
    requires ReceiptsRead(r)
    requires 1 <= k < |ApplyTrace(r, d, x).states|
    ensures Begins(r, d, x) && (k >= RENAME ==> StagingFault(r, x).None?)
    ensures var s := SlotOf(Recovered(r, ApplyTrace(r, d, x).states[k], y), x.importId);
      && s.stage.None?
      && (Settles(s, Complete, Failure) <==> k < RENAME)
      && (Settles(s, Complete, Success) <==> k >= RENAME && r.sound(Package(r, x)))
      && (Settles(s, NeedsResolution, Unresolved) <==> k >= RENAME && !r.sound(Package(r, x)))
  {
    EveryCrashPointSettles(r, d, x, k, y);
    ApplySlot(r, d, x, k);
  }

  // ----- One misfit is enough -----

  lemma NothingExists(r: Reader, sha: string)
    ensures Existing(r, EMPTY, sha) == Some(None)
  {
    assert EMPTY.targets.Keys == {};
  }

  /** A request that repeats what its preview said. */
  ghost predicate Requested(r: Reader, x: ApplyInput) {
    && x.reread == x.archive && x.expectedSha == r.digest(x.archive)
    && x.expectedBasis == r.basis(r.digest(x.archive), None) && r.receiptOk(ReceiptOf(r, x))
  }

  lemma FirstImportBegins(r: Reader, x: ApplyInput)
    requires r.supported(x.archive) && Requested(r, x) && r.extract(x.archive).Some?
    ensures Begins(r, EMPTY, x) && StagingFault(r, x).None?
  {
    NothingExists(r, r.digest(x.archive));
  }

  /**
   On an empty disk, one import of an archive that is supported and extracts but does not fit ends with
   a published package that recovery gives up on, although nothing was cut off; and from then on no
   import gets as far as its first write.
   */
  lemma MisfitParks(w: Wire, p: Limits, x: ApplyInput, cut: nat, later: ApplyInput)
    requires ReceiptsRead(ReaderOf(w, p)) && PlainNamesSafe(w)
    requires Supported(x.archive, w, p) && Extract(x.archive).Some? && Requested(ReaderOf(w, p), x)
    requires !ArchiveFits(w, p, x) && cut >= RENAME
    ensures var r := ReaderOf(w, p);
      var d := Run(r, [ApplyRun(x, cut)]);
      && ApplyTrace(r, EMPTY, x).result == Failed(PackageInvalid)
      && Decide(r, d, x.importId) == Some(Manual) && !Lost(SlotOf(d, x.importId))
      && ApplyTrace(r, d, later).states == [d]
  {
    FirstImportBegins(ReaderOf(w, p), x);
    PublishedSoundExactly(w, p, x);
    UnsoundParks(ReaderOf(w, p), x, cut, later);
  }

  lemma UnsoundParks(r: Reader, x: ApplyInput, cut: nat, later: ApplyInput)
    requires ReceiptsRead(r) && Begins(r, EMPTY, x) && StagingFault(r, x).None? && !r.sound(Package(r, x)) && cut >= RENAME
    ensures var d := Run(r, [ApplyRun(x, cut)]);
      && ApplyTrace(r, EMPTY, x).result == Failed(PackageInvalid)
      && Decide(r, d, x.importId) == Some(Manual) && !Lost(SlotOf(d, x.importId))
      && ApplyTrace(r, d, later).states == [d]
  {
    var e := ApplyRun(x, cut);
    var d := Run(r, [e]);
    assert [e][..0] == [] && Run(r, []) == EMPTY;
    assert d == After(r, EMPTY, e);
    MisfitResult(r, EMPTY, x);
    EveryRunIsSound(r, []);
    RefusedByApply(r, EMPTY, x, cut, x.importId);
    RefusedPackageBlocks(r, d, x.importId, later);
    EveryRunIsSound(r, [e]);
    RefusedIsNotLost(r, d, x.importId);
  }

  lemma RefusedIsNotLost(r: Reader, d: Disk, id: string)
    requires ExchangeImport.Sound(r, d) && Refused(r, SlotOf(d, id))
    ensures Decide(r, d, id) == Some(Manual) && !Lost(SlotOf(d, id))
  {
    assert SlotSound(r, SlotOf(d, id), id);
    SoundIsOrdinary(r, d, id);
  }

  lemma MisfitResult(r: Reader, d: Disk, x: ApplyInput)
    requires ReceiptsRead(r) && Begins(r, d, x) && StagingFault(r, x).None? && !r.sound(Package(r, x))
    ensures ApplyTrace(r, d, x).result == Failed(PackageInvalid)
  {
    BeginsMeans(r, d, x);
    SealedReceipt(r, r.extract(x.reread).value, ReceiptOf(r, x));
  }
}
