/**
 Guardian's checks of the imports area, and when recovery leaves nothing for them to find. Guardian
 reads packages with a reader of its own, which need not have the limits of the service's.
 */
module GuardianImports {
  import opened Wrappers
  import opened ExchangeImport
  import opened ExchangeImportRecovery
  import Listing

  datatype Fault = JournalIncomplete | PackageUnreadable | FailureKeptFiles | StageLeftBehind | NotAPackage | NoSuccessJournal

  datatype Diagnostic = Diagnostic(name: string, fault: Fault)

  function JournalFaults(g: Reader, d: Disk, id: string): seq<Diagnostic> {
    if id !in d.journals then []
    else
      var j := d.journals[id];
      if !j.phase.Complete? then [Diagnostic(id, JournalIncomplete)]
      else if j.outcome.Success? then
        if id in d.targets && ValidPackage(g, d.targets[id], j.archiveSha) then []
        else [Diagnostic(id, PackageUnreadable)]
      else if id in d.targets || id in d.stages then [Diagnostic(id, FailureKeptFiles)]
      else []
  }

  function StageFaults(d: Disk, id: string): seq<Diagnostic> {
    if id in d.stages && d.stages[id].Directory? then [Diagnostic(id, StageLeftBehind)] else []
  }

  function TargetFaults(d: Disk, id: string): seq<Diagnostic> {
    if id !in d.targets then []
    else if d.targets[id].Loose? then [Diagnostic(id, NotAPackage)]
    else if id !in d.journals || !d.journals[id].phase.Complete? || !d.journals[id].outcome.Success? then
      [Diagnostic(id, NoSuccessJournal)]
    else []
  }

  /** Nothing for Guardian to find about one import id. */
  ghost predicate CleanSlot(g: Reader, s: Slot) {
    && (s.journal.Some? ==>
          && s.journal.value.phase.Complete?
          && if s.journal.value.outcome.Success? then
               s.target.Some? && ValidPackage(g, s.target.value, s.journal.value.archiveSha)
             else s.target.None? && s.stage.None?)
    && (s.stage.Some? ==> s.stage.value.Loose?)
    && (s.target.Some? ==>
          && s.target.value.Directory? && s.journal.Some?
          && s.journal.value.phase.Complete? && s.journal.value.outcome.Success?)
  }

  ghost predicate Clean(g: Reader, d: Disk) {
    forall id {:trigger SlotOf(d, id)} :: CleanSlot(g, SlotOf(d, id))
  }

  lemma SlotFaultsEmpty(g: Reader, d: Disk, id: string)
    ensures CleanSlot(g, SlotOf(d, id)) <==>
      JournalFaults(g, d, id) == [] && StageFaults(d, id) == [] && TargetFaults(d, id) == []
  {
  }

  /** The import half of Guardian's exchange checks. It is silent exactly on clean disks. */
  method ImportDiagnostics(g: Reader, d: Disk) returns (diagnostics: seq<Diagnostic>)
    ensures diagnostics == [] <==> Clean(g, d)
    ensures diagnostics ==
      Listing.Gather(Listing.Sorted(d.journals.Keys), id => JournalFaults(g, d, id)) +
      Listing.Gather(Listing.Sorted(d.stages.Keys), id => StageFaults(d, id)) +
      Listing.Gather(Listing.Sorted(d.targets.Keys), id => TargetFaults(d, id))
  {
    var journals := Listing.GatherEach(d.journals.Keys, id => JournalFaults(g, d, id));
    var stages := Listing.GatherEach(d.stages.Keys, id => StageFaults(d, id));
    var targets := Listing.GatherEach(d.targets.Keys, id => TargetFaults(d, id));
    diagnostics := journals + stages + targets;
    SilenceIsClean(g, d);
  }

  lemma SilenceIsClean(g: Reader, d: Disk)
    ensures Clean(g, d) <==>
      && (forall id :: id in d.journals.Keys ==> JournalFaults(g, d, id) == [])
      && (forall id :: id in d.stages.Keys ==> StageFaults(d, id) == [])
      && (forall id :: id in d.targets.Keys ==> TargetFaults(d, id) == [])
  {
    forall id ensures CleanSlot(g, SlotOf(d, id)) <==>
      JournalFaults(g, d, id) == [] && StageFaults(d, id) == [] && TargetFaults(d, id) == []
    {
      SlotFaultsEmpty(g, d, id);
    }
  }

  // ----- Recovery and Guardian -----

  lemma {:induction false} HelpAsked(r: Reader, d: Disk, ids: seq<string>)
    ensures NeedsHelp(DryActions(r, d, ids)) <==> exists i :: 0 <= i < |ids| && Decide(r, d, ids[i]) == Some(Manual)
  {
    if ids != [] {
      HelpAsked(r, d, ids[1..]);
      var head := Decide(r, d, ids[0]);
      var tail := DryActions(r, d, ids[1..]);
      var reports := if head.Some? then [Report(ids[0], head.value)] else [];
      assert DryActions(r, d, ids) == reports + tail;
      if NeedsHelp(tail) {
        var i :| 0 <= i < |tail| && tail[i].action.Manual?;
        assert (reports + tail)[|reports| + i].action.Manual?;
        var k :| 0 <= k < |ids[1..]| && Decide(r, d, ids[1..][k]) == Some(Manual);
        assert ids[k + 1] == ids[1..][k];
      }
      if head == Some(Manual) {
        assert (reports + tail)[0].action.Manual?;
      }
      if i :| 0 <= i < |ids| && Decide(r, d, ids[i]) == Some(Manual) {
        if i > 0 {
          assert ids[1..][i - 1] == ids[i];
        }
      }
    }
  }

  /** Recovery answers success exactly when no journal needs manual resolution. */
  lemma StatusMeans(r: Reader, d: Disk, x: RecoverInput)
    ensures NeedsHelp(RealActions(r, d, Visits(d), x)) <==> exists id :: Decide(r, d, id) == Some(Manual)
  {
    DryRunReportsRealActions(r, d, x);
    HelpAsked(r, d, Visits(d));
    VisitsAll(d);
    if id :| Decide(r, d, id) == Some(Manual) {
      assert id in Visits(d);
    }
  }

  /**
   What recovery cannot repair by itself: journals already marked complete that do not match their
   files, stages it does not own, published directories without a journal or next to a leftover
   stage, packages that Guardian's limits refuse, and stray files in place of packages.
   */
  ghost predicate Repairable(g: Reader, s: Slot) {
    && (s.target.Some? ==>
          s.target.value.Directory? && s.journal.Some? && ValidPackage(g, s.target.value, s.journal.value.archiveSha))
    && (s.stage.Some? && s.stage.value.Directory? ==>
          && s.journal.Some? && s.target.None?
          && (s.journal.value.phase.Prepared? || s.journal.value.phase.Staged?))
    && (s.journal.Some? && s.journal.value.phase.Complete? ==> CleanSlot(g, s))
  }

  /**
   For any disk: after an uninterrupted recovery that answers success, Guardian's import checks are
   silent if and only if every slot was repairable before.
   */
  lemma SuccessfulRecoveryIsClean(r: Reader, g: Reader, d: Disk, x: RecoverInput)
    requires !NeedsHelp(RealActions(r, d, Visits(d), x))
    ensures Clean(g, Recovered(r, d, x)) <==> forall id {:trigger SlotOf(d, id)} :: Repairable(g, SlotOf(d, id))
  {
    StatusMeans(r, d, x);
    var e := Recovered(r, d, x);
    forall id ensures CleanSlot(g, SlotOf(e, id)) <==> Repairable(g, SlotOf(d, id)) {
      RecoveredSlot(r, d, x, id);
      assert Decide(r, d, id) != Some(Manual);
    }
    if Clean(g, e) {
      forall id {:trigger SlotOf(d, id)} ensures Repairable(g, SlotOf(d, id)) {
        assert CleanSlot(g, SlotOf(e, id));
      }
    }
    if forall id {:trigger SlotOf(d, id)} :: Repairable(g, SlotOf(d, id)) {
      forall id {:trigger SlotOf(e, id)} ensures CleanSlot(g, SlotOf(e, id)) {
        assert Repairable(g, SlotOf(d, id));
      }
    }
  }

  /** Nothing lost, nothing refused. */
  ghost predicate Settled(r: Reader, d: Disk) {
    forall id {:trigger SlotOf(d, id)} :: !Lost(SlotOf(d, id)) && !Refused(r, SlotOf(d, id))
  }

  /** Guardian accepts every published package. */
  ghost predicate GuardianAccepts(g: Reader, d: Disk) {
    forall id {:trigger SlotOf(d, id)} :: SlotOf(d, id).target.Some? ==>
      SlotOf(d, id).journal.Some? && ValidPackage(g, SlotOf(d, id).target.value, SlotOf(d, id).journal.value.archiveSha)
  }

  lemma SoundSlotRepairable(r: Reader, g: Reader, s: Slot, id: string)
    requires SlotSound(r, s, id) && !Lost(s) && !Refused(r, s)
    ensures Repairable(g, s) <==> (s.target.Some? ==> ValidPackage(g, s.target.value, s.journal.value.archiveSha))
  {
  }

  lemma UnsettledIsNotClean(r: Reader, g: Reader, d: Disk, x: RecoverInput, id: string)
    requires Sound(r, d) && (Lost(SlotOf(d, id)) || Refused(r, SlotOf(d, id)))
    ensures Decide(r, d, id) == Some(Manual) && !Clean(g, Recovered(r, d, x))
  {
    assert SlotSound(r, SlotOf(d, id), id);
    SoundIsOrdinary(r, d, id);
    RecoveredSlot(r, d, x, id);
    assert !CleanSlot(g, SlotOf(Recovered(r, d, x), id));
  }

  /**
   Over every run: one uninterrupted recovery answers success if and only if the run lost no import
   and published no package that its own checks refuse; it leaves Guardian nothing to find if and only
   if, besides, Guardian's limits accept every published package.
   */
  lemma RecoveredRunIsClean(r: Reader, g: Reader, events: seq<Event>, x: RecoverInput)
    requires ReceiptsRead(r)
    ensures var d := Run(r, events);
      && (!NeedsHelp(RealActions(r, d, Visits(d), x)) <==> Settled(r, d))
      && (Clean(g, Recovered(r, d, x)) <==> Settled(r, d) && GuardianAccepts(g, d))
  {
    var d := Run(r, events);
    EveryRunIsSound(r, events);
    StatusMeans(r, d, x);
    if Settled(r, d) {
      forall id ensures Decide(r, d, id) != Some(Manual) {
        SoundIsOrdinary(r, d, id);
        assert !Lost(SlotOf(d, id));
      }
      SuccessfulRecoveryIsClean(r, g, d, x);
      forall id ensures Repairable(g, SlotOf(d, id)) <==> (SlotOf(d, id).target.Some? ==>
        SlotOf(d, id).journal.Some? && ValidPackage(g, SlotOf(d, id).target.value, SlotOf(d, id).journal.value.archiveSha))
      {
        assert SlotSound(r, SlotOf(d, id), id) && !Lost(SlotOf(d, id));
        SoundSlotRepairable(r, g, SlotOf(d, id), id);
      }
    } else {
      var id :| Lost(SlotOf(d, id)) || Refused(r, SlotOf(d, id));
      UnsettledIsNotClean(r, g, d, x, id);
    }
  }

  /** When Guardian reads with the service's own limits, a recovery that answers success leaves it nothing to find. */
  lemma OneReaderIsClean(r: Reader, events: seq<Event>, x: RecoverInput)
    requires ReceiptsRead(r)
    ensures var d := Run(r, events); Clean(r, Recovered(r, d, x)) <==> !NeedsHelp(RealActions(r, d, Visits(d), x))
  {
    var d := Run(r, events);
    RecoveredRunIsClean(r, r, events, x);
    EveryRunIsSound(r, events);
    if Settled(r, d) {
      forall id {:trigger SlotOf(d, id)} | SlotOf(d, id).target.Some?
        ensures SlotOf(d, id).journal.Some? && ValidPackage(r, SlotOf(d, id).target.value, SlotOf(d, id).journal.value.archiveSha)
      {
        assert SlotSound(r, SlotOf(d, id), id);
      }
    }
  }
}
