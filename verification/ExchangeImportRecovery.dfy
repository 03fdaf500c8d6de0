/** What recovery guarantees: settling every crash point, the two ways to need help, and dry runs. */
module ExchangeImportRecovery {
  import opened Wrappers
  import opened ExchangeImport
  import Listing

  /**
   From every crash point of an import, one uninterrupted recovery ends in one of three ways. Before
   the rename it discards the import. From the rename on it completes the import if the published
   package passes its own checks, and otherwise asks for manual resolution and leaves the package.
   */
  lemma EveryCrashPointSettles(r: Reader, d: Disk, x: ApplyInput, k: nat, y: RecoverInput)
    requires ReceiptsRead(r)
    requires 1 <= k < |ApplyTrace(r, d, x).states|
    ensures var crashed := ApplyTrace(r, d, x).states[k];
      var s := SlotOf(Recovered(r, crashed, y), x.importId);
      && s.journal.Some? && s.stage.None? && s.target == SlotOf(crashed, x.importId).target
      && (s.target.Some? <==> k >= RENAME)
      && (k < RENAME ==> Settles(s, Complete, Failure))
      && (k >= RENAME ==>
            && StagingFault(r, x).None?
            && if r.sound(Package(r, x)) then
                 Settles(s, Complete, Success) && ValidPackage(r, s.target.value, r.digest(x.archive))
               else Settles(s, NeedsResolution, Unresolved) && Refused(r, s))
  {
    ApplySlot(r, d, x, k);
    RecoveredSlot(r, ApplyTrace(r, d, x).states[k], y, x.importId);
  }

  predicate Settles(s: Slot, phase: Phase, outcome: Outcome) {
    s.journal.Some? && s.journal.value.phase == phase && s.journal.value.outcome == outcome
  }

  /** Recovery gives up on an import exactly when it was renamed into place and its package is refused. */
  lemma CrashPointNeedsHelp(r: Reader, d: Disk, x: ApplyInput, k: nat)
    requires ReceiptsRead(r)
    requires 1 <= k < |ApplyTrace(r, d, x).states|
    ensures Decide(r, ApplyTrace(r, d, x).states[k], x.importId) == Some(Manual) <==>
      k >= RENAME && StagingFault(r, x).None? && !r.sound(Package(r, x))
  {
    ApplySlot(r, d, x, k);
  }

  // ----- Published packages are permanent -----

  /** Where a state of the pass comes from: the first slot's trace or the rest of the pass. */
  lemma RecoverTraceAt(r: Reader, d: Disk, ids: seq<string>, x: RecoverInput, k: nat)
    requires ids != [] && k < |RecoverTrace(r, d, ids, x)|
    ensures var here := SlotTrace(r, d, ids[0], x);
      && (k < |here| ==> RecoverTrace(r, d, ids, x)[k] == here[k])
      && (k >= |here| ==>
            && k - |here| + 1 < |RecoverTrace(r, Last(here), ids[1..], x)|
            && RecoverTrace(r, d, ids, x)[k] == RecoverTrace(r, Last(here), ids[1..], x)[k - |here| + 1])
  {
  }

  lemma {:induction false} RecoverKeepsTargets(r: Reader, d: Disk, ids: seq<string>, x: RecoverInput, k: nat)
    requires k < |RecoverTrace(r, d, ids, x)|
    ensures RecoverTrace(r, d, ids, x)[k].targets == d.targets
    decreases |ids|
  {
    if ids != [] {
      var here := SlotTrace(r, d, ids[0], x);
      RecoverTraceAt(r, d, ids, x, k);
      SlotTraceIsLocal(r, d, ids[0], x, |here| - 1, ids[0]);
      if k < |here| {
        SlotTraceIsLocal(r, d, ids[0], x, k, ids[0]);
      } else {
        RecoverKeepsTargets(r, Last(here), ids[1..], x, k - |here| + 1);
      }
    }
  }

  /** No operation, finished or cut off, on any disk, removes or alters a published package. */
  lemma PublishedIsPermanent(r: Reader, d: Disk, e: Event, id: string)
    requires id in d.targets
    ensures id in After(r, d, e).targets && After(r, d, e).targets[id] == d.targets[id]
  {
    match e
    case ApplyRun(x, cut) =>
      var t := ApplyTrace(r, d, x).states;
      var k := if cut < |t| then cut else |t| - 1;
      ApplyIsLocal(r, d, x, k, id);
      if t[k] != d {
        assert id != x.importId;
        assert SlotOf(t[k], id).target == SlotOf(d, id).target;
      }
    case RecoverRun(x, cut) =>
      var t := RecoverTrace(r, d, Visits(d), x);
      RecoverKeepsTargets(r, d, Visits(d), x, if cut < |t| then cut else |t| - 1);
    case DryRun =>
  }

  lemma {:induction false} PublishedStaysOverRuns(r: Reader, events: seq<Event>, n: nat, id: string)
    requires n <= |events| && id in Run(r, events[..n]).targets
    ensures id in Run(r, events).targets
    ensures Run(r, events).targets[id] == Run(r, events[..n]).targets[id]
    decreases |events|
  {
    if n == |events| {
      assert events[..n] == events;
    } else {
      var init := events[..|events| - 1];
      assert init[..n] == events[..n];
      PublishedStaysOverRuns(r, init, n, id);
      PublishedIsPermanent(r, Run(r, init), events[|events| - 1], id);
    }
  }

  /** In any run, the packages published under two import ids carry the digests of different archives. */
  lemma PublishedArchivesDiffer(r: Reader, events: seq<Event>, a: string, b: string)
    requires ReceiptsRead(r)
    requires a in Run(r, events).targets && b in Run(r, events).targets && a != b
    ensures var d := Run(r, events);
      && d.targets[a].Directory? && d.targets[b].Directory?
      && ReceiptIn(r, d.targets[a].tree).Some? && ReceiptIn(r, d.targets[b].tree).Some?
      && ReceiptIn(r, d.targets[a].tree).value.archiveSha != ReceiptIn(r, d.targets[b].tree).value.archiveSha
  {
    var d := Run(r, events);
    EveryRunIsSound(r, events);
    assert SlotSound(r, SlotOf(d, a), a) && SlotSound(r, SlotOf(d, b), b);
  }

  // ----- The one way an import is lost -----

  /** Phase staged with neither a stage nor a target left. */
  predicate Orphaned(s: Slot) {
    s.journal.Some? && s.journal.value.phase.Staged? && s.stage.None? && s.target.None?
  }

  /** Given up on, with nothing published. */
  predicate Parked(s: Slot) {
    s.journal.Some? && s.journal.value.phase.NeedsResolution? && s.target.None?
  }

  predicate Lost(s: Slot) {
    Orphaned(s) || Parked(s)
  }

  /** The steps recovery takes for one journal; removing a stage takes two, as it can die half-way. */
  function Steps(action: Option<Action>): nat {
    match action
    case None => 0
    case Some(DiscardStage) => 3
    case Some(_) => 1
  }

  /** The steps recovery takes before it comes to `id`, read off the disk it starts from. */
  function StepsBefore(r: Reader, d: Disk, ids: seq<string>, id: string): nat {
    if ids == [] || ids[0] == id then 0 else Steps(Decide(r, d, ids[0])) + StepsBefore(r, d, ids[1..], id)
  }

  /** A staged import that was not renamed yet. */
  predicate Unpublished(s: Slot) {
    s.journal.Some? && s.journal.value.phase.Staged? && s.stage.Some? && s.target.None?
  }

  /**
   A recovery that dies two steps into a staged, unpublished import: after removing its stage and
   before rewriting its journal.
   */
  ghost predicate CutAfterUnstaging(r: Reader, d: Disk, e: Event, id: string) {
    && e.RecoverRun? && Unpublished(SlotOf(d, id))
    && e.cut == StepsBefore(r, d, Visits(d), id) + 2
  }

  lemma {:induction false} RecoverTraceElsewhere(r: Reader, d: Disk, ids: seq<string>, x: RecoverInput, k: nat, id: string)
    requires k < |RecoverTrace(r, d, ids, x)| && id !in ids
    ensures SlotOf(RecoverTrace(r, d, ids, x)[k], id) == SlotOf(d, id)
    decreases |ids|
  {
    if ids != [] {
      var here := SlotTrace(r, d, ids[0], x);
      assert ids[0] in ids && forall other :: other in ids[1..] ==> other in ids;
      SlotTraceIsLocal(r, d, ids[0], x, if k < |here| then k else |here| - 1, id);
      if k >= |here| {
        RecoverTraceElsewhere(r, Last(here), ids[1..], x, k - |here| + 1, id);
      }
    }
  }

  lemma TraceSteps(r: Reader, d: Disk, id: string, x: RecoverInput)
    ensures |SlotTrace(r, d, id, x)| == Steps(Decide(r, d, id)) + 1
  {
  }

  lemma {:induction false} StepsAreLocal(r: Reader, d: Disk, e: Disk, ids: seq<string>, id: string)
    requires forall other :: other in ids ==> SlotOf(e, other) == SlotOf(d, other)
    ensures StepsBefore(r, e, ids, id) == StepsBefore(r, d, ids, id)
  {
    if ids != [] {
      assert ids[0] in ids && forall other :: other in ids[1..] ==> other in ids;
      DecideIsLocal(r, d, e, ids[0]);
      StepsAreLocal(r, d, e, ids[1..], id);
    }
  }

  lemma StepsAfterFirst(r: Reader, d: Disk, ids: seq<string>, x: RecoverInput, id: string)
    requires forall i, j :: 0 <= i < j < |ids| ==> ids[i] != ids[j]
    requires ids != [] && id in ids
    ensures StepsBefore(r, Last(SlotTrace(r, d, ids[0], x)), ids[1..], id) == StepsBefore(r, d, ids[1..], id)
  {
    var here := SlotTrace(r, d, ids[0], x);
    forall other | other in ids[1..] ensures SlotOf(Last(here), other) == SlotOf(d, other) {
      SlotTraceIsLocal(r, d, ids[0], x, |here| - 1, other);
    }
    StepsAreLocal(r, d, Last(here), ids[1..], id);
  }

  /** How a journal's own slot moves through the trace of its settling depends on that slot only. */
  lemma SlotMovesAlike(r: Reader, d: Disk, e: Disk, id: string, x: RecoverInput, k: nat)
    requires SlotOf(e, id) == SlotOf(d, id) && k < |SlotTrace(r, d, id, x)|
    ensures |SlotTrace(r, e, id, x)| == |SlotTrace(r, d, id, x)|
    ensures SlotOf(SlotTrace(r, e, id, x)[k], id) == SlotOf(SlotTrace(r, d, id, x)[k], id)
  {
    DecideIsLocal(r, d, e, id);
  }

  /** How far the settling of one journal has come when `k` steps are made and `before` were made for others. */
  function Progress(k: nat, before: nat, length: nat): nat
    requires length > 0
  {
    if k <= before then 0 else if k - before < length then k - before else length - 1
  }

  lemma ProgressShifts(k: nat, first: nat, before: nat, length: nat)
    requires length > 0
    ensures Progress(k, first + before, length) == if k <= first then 0 else Progress(k - first, before, length)
  {
  }

  /** On the disk `t` the settling of `id` is where `k` steps of a pass from `d` take it. */
  ghost predicate ProgressedTo(r: Reader, d: Disk, ids: seq<string>, x: RecoverInput, k: nat, id: string, t: Disk) {
    var here := SlotTrace(r, d, id, x);
    SlotOf(t, id) == SlotOf(here[Progress(k, StepsBefore(r, d, ids, id), |here|)], id)
  }

  lemma ProgressHere(r: Reader, d: Disk, ids: seq<string>, x: RecoverInput, k: nat, t: Disk)
    requires ids != []
    requires var here := SlotTrace(r, d, ids[0], x); SlotOf(t, ids[0]) == SlotOf(here[if k < |here| then k else |here| - 1], ids[0])
    ensures ProgressedTo(r, d, ids, x, k, ids[0], t)
  {
  }

  lemma ProgressOfFirst(r: Reader, d: Disk, ids: seq<string>, x: RecoverInput, k: nat)
    requires ids != [] && ids[0] !in ids[1..] && k < |RecoverTrace(r, d, ids, x)|
    ensures ProgressedTo(r, d, ids, x, k, ids[0], RecoverTrace(r, d, ids, x)[k])
  {
    var here := SlotTrace(r, d, ids[0], x);
    var t := RecoverTrace(r, d, ids, x)[k];
    RecoverTraceAt(r, d, ids, x, k);
    if k >= |here| {
      RecoverTraceElsewhere(r, Last(here), ids[1..], x, k - |here| + 1, ids[0]);
    }
    ProgressHere(r, d, ids, x, k, t);
  }

  lemma NoProgressYet(r: Reader, d: Disk, ids: seq<string>, x: RecoverInput, k: nat, id: string, t: Disk)
    requires ids != [] && id != ids[0] && k <= Steps(Decide(r, d, ids[0])) && SlotOf(t, id) == SlotOf(d, id)
    ensures ProgressedTo(r, d, ids, x, k, id, t)
  {
  }

  lemma ProgressInRest(r: Reader, d: Disk, e: Disk, ids: seq<string>, x: RecoverInput, k: nat, id: string, t: Disk)
    requires ids != [] && id != ids[0] && SlotOf(e, id) == SlotOf(d, id)
    requires StepsBefore(r, e, ids[1..], id) == StepsBefore(r, d, ids[1..], id)
    requires k > Steps(Decide(r, d, ids[0]))
    requires ProgressedTo(r, e, ids[1..], x, k - Steps(Decide(r, d, ids[0])), id, t)
    ensures ProgressedTo(r, d, ids, x, k, id, t)
  {
    var own, before, first := SlotTrace(r, d, id, x), StepsBefore(r, d, ids[1..], id), Steps(Decide(r, d, ids[0]));
    ProgressShifts(k, first, before, |own|);
    SlotMovesAlike(r, d, e, id, x, Progress(k - first, before, |own|));
  }

  /** After any number of steps of a pass, each visited slot is where its own settling has come to. */
  lemma {:induction false} RecoverTraceProgress(r: Reader, d: Disk, ids: seq<string>, x: RecoverInput, k: nat, id: string)
    requires forall i, j :: 0 <= i < j < |ids| ==> ids[i] != ids[j]
    requires id in ids && k < |RecoverTrace(r, d, ids, x)|
    ensures ProgressedTo(r, d, ids, x, k, id, RecoverTrace(r, d, ids, x)[k])
    decreases |ids|
  {
    if id == ids[0] {
      ProgressOfFirst(r, d, ids, x, k);
    } else {
      var here := SlotTrace(r, d, ids[0], x);
      var t := RecoverTrace(r, d, ids, x)[k];
      TraceSteps(r, d, ids[0], x);
      RecoverTraceAt(r, d, ids, x, k);
      SlotTraceIsLocal(r, d, ids[0], x, if k < |here| then k else |here| - 1, id);
      if k < |here| {
        NoProgressYet(r, d, ids, x, k, id, t);
      } else {
        RecoverTraceProgress(r, Last(here), ids[1..], x, k - |here| + 1, id);
        StepsAfterFirst(r, d, ids, x, id);
        ProgressInRest(r, d, Last(here), ids, x, k, id, t);
      }
    }
  }

  /** The pass is long enough for every visited journal to be settled. */
  lemma {:induction false} RecoverTraceLength(r: Reader, d: Disk, ids: seq<string>, x: RecoverInput, id: string)
    requires forall i, j :: 0 <= i < j < |ids| ==> ids[i] != ids[j]
    requires id in ids
    ensures StepsBefore(r, d, ids, id) + Steps(Decide(r, d, id)) < |RecoverTrace(r, d, ids, x)|
    decreases |ids|
  {
    var here := SlotTrace(r, d, ids[0], x);
    TraceSteps(r, d, ids[0], x);
    var rest := RecoverTrace(r, Last(here), ids[1..], x);
    assert |RecoverTrace(r, d, ids, x)| == |here| + |rest| - 1;
    if id != ids[0] {
      RecoverTraceLength(r, Last(here), ids[1..], x, id);
      StepsAfterFirst(r, d, ids, x, id);
      SlotTraceIsLocal(r, d, ids[0], x, |here| - 1, id);
      DecideIsLocal(r, d, Last(here), id);
    }
  }

  /** Manual resolution is what lost and refused slots need, and staged, unpublished ones are discarded. */
  ghost predicate Ordinary(r: Reader, d: Disk, id: string) {
    && (Decide(r, d, id) == Some(Manual) <==> Lost(SlotOf(d, id)) || Refused(r, SlotOf(d, id)))
    && (Unpublished(SlotOf(d, id)) ==> Decide(r, d, id) == Some(DiscardStage))
  }

  lemma SoundIsOrdinary(r: Reader, d: Disk, id: string)
    requires SlotSound(r, SlotOf(d, id), id)
    ensures Ordinary(r, d, id)
  {
  }

  /** Settling one slot loses it two steps in, when the slot is staged and unpublished, and nowhere else. */
  lemma SlotTraceLoses(r: Reader, d: Disk, id: string, x: RecoverInput, k: nat)
    requires Ordinary(r, d, id) && k < |SlotTrace(r, d, id, x)|
    ensures Lost(SlotOf(SlotTrace(r, d, id, x)[k], id)) <==>
      Lost(SlotOf(d, id)) || (Unpublished(SlotOf(d, id)) && k == 2)
  {
  }

  /** Two steps into the settling of one journal is one place in the whole pass. */
  lemma ProgressOfTwo(cut: nat, before: nat, own: nat, length: nat)
    requires own == 4 && before + 3 < length
    ensures Progress(if cut < length then cut else length - 1, before, own) == 2 <==> cut == before + 2
  {
  }

  lemma LosingProgress(r: Reader, d: Disk, ids: seq<string>, x: RecoverInput, cut: nat, id: string, length: nat, t: Disk)
    requires Ordinary(r, d, id) && StepsBefore(r, d, ids, id) + Steps(Decide(r, d, id)) < length
    requires ProgressedTo(r, d, ids, x, if cut < length then cut else length - 1, id, t)
    ensures Lost(SlotOf(t, id)) <==>
      Lost(SlotOf(d, id)) || (Unpublished(SlotOf(d, id)) && cut == StepsBefore(r, d, ids, id) + 2)
  {
    var before, own := StepsBefore(r, d, ids, id), |SlotTrace(r, d, id, x)|;
    TraceSteps(r, d, id, x);
    SlotTraceLoses(r, d, id, x, Progress(if cut < length then cut else length - 1, before, own));
    if Unpublished(SlotOf(d, id)) {
      ProgressOfTwo(cut, before, own, length);
    }
  }

  lemma LosingVisit(r: Reader, d: Disk, ids: seq<string>, x: RecoverInput, cut: nat, id: string)
    requires Ordinary(r, d, id) && id in ids
    requires forall i, j :: 0 <= i < j < |ids| ==> ids[i] != ids[j]
    ensures Lost(SlotOf(At(RecoverTrace(r, d, ids, x), cut), id)) <==>
      Lost(SlotOf(d, id)) || (Unpublished(SlotOf(d, id)) && cut == StepsBefore(r, d, ids, id) + 2)
  {
    var length := |RecoverTrace(r, d, ids, x)|;
    RecoverTraceLength(r, d, ids, x, id);
    RecoverTraceProgress(r, d, ids, x, if cut < length then cut else length - 1, id);
    LosingProgress(r, d, ids, x, cut, id, length, At(RecoverTrace(r, d, ids, x), cut));
  }

  /** A recovery loses a slot exactly when it is cut off after unstaging it. */
  lemma LosingRecovery(r: Reader, d: Disk, x: RecoverInput, cut: nat, id: string)
    requires Ordinary(r, d, id)
    ensures Lost(SlotOf(After(r, d, RecoverRun(x, cut)), id)) <==>
      Lost(SlotOf(d, id)) || CutAfterUnstaging(r, d, RecoverRun(x, cut), id)
  {
    var ids := Visits(d);
    VisitsAll(d);
    if id in ids {
      LosingVisit(r, d, ids, x, cut, id);
    } else {
      var t := RecoverTrace(r, d, ids, x);
      RecoverTraceElsewhere(r, d, ids, x, if cut < |t| then cut else |t| - 1, id);
    }
  }

  /** No import is lost by an import, at any of its crash points. */
  lemma ApplyLosesNothing(r: Reader, d: Disk, x: ApplyInput, k: nat, id: string)
    requires ReceiptsRead(r) && k < |ApplyTrace(r, d, x).states|
    ensures Lost(SlotOf(ApplyTrace(r, d, x).states[k], id)) <==> Lost(SlotOf(d, id))
  {
    var t := ApplyTrace(r, d, x).states;
    ApplyIsLocal(r, d, x, k, id);
    if t[k] != d && id == x.importId {
      assert k >= 1;
      ApplySlot(r, d, x, k);
    }
  }

  /**
   One operation loses an import exactly by being a recovery cut off at one step: two after the steps
   it takes for the journals before, when the import is staged and unpublished.
   */
  lemma LosingStep(r: Reader, d: Disk, e: Event, id: string)
    requires ReceiptsRead(r) && Sound(r, d)
    ensures Lost(SlotOf(After(r, d, e), id)) <==> Lost(SlotOf(d, id)) || CutAfterUnstaging(r, d, e, id)
  {
    match e
    case ApplyRun(x, cut) =>
      var t := ApplyTrace(r, d, x).states;
      ApplyLosesNothing(r, d, x, if cut < |t| then cut else |t| - 1, id);
    case RecoverRun(x, cut) =>
      SoundIsOrdinary(r, d, id);
      LosingRecovery(r, d, x, cut, id);
    case DryRun =>
  }

  ghost predicate CutAt(r: Reader, events: seq<Event>, i: nat, id: string)
    requires i < |events|
  {
    CutAfterUnstaging(r, Run(r, events[..i]), events[i], id)
  }

  lemma LostAtEvent(r: Reader, events: seq<Event>, i: nat, id: string)
    requires ReceiptsRead(r) && i < |events|
    ensures Lost(SlotOf(Run(r, events[..i + 1]), id)) <==> Lost(SlotOf(Run(r, events[..i]), id)) || CutAt(r, events, i, id)
  {
    LostByLast(r, events[..i + 1], id);
    assert events[..i + 1][..i] == events[..i];
  }

  /** What is lost after each prefix of a run, and which events lose it. */
  ghost function LostAfter(r: Reader, events: seq<Event>, id: string): seq<bool> {
    seq(|events| + 1, n requires 0 <= n <= |events| => Lost(SlotOf(Run(r, events[..n]), id)))
  }

  ghost function CutsIn(r: Reader, events: seq<Event>, id: string): seq<bool> {
    seq(|events|, i requires 0 <= i < |events| => CutAt(r, events, i, id))
  }

  lemma {:induction false} LostFromCuts(lost: seq<bool>, cuts: seq<bool>, n: nat)
    requires |lost| == |cuts| + 1 && n <= |cuts| && !lost[0]
    requires forall i :: 0 <= i < |cuts| ==> (lost[i + 1] <==> lost[i] || cuts[i])
    ensures lost[n] <==> exists i :: 0 <= i < n && cuts[i]
  {
    if n > 0 {
      LostFromCuts(lost, cuts, n - 1);
    }
  }

  /**
   Over every run from the empty disk, an import is lost if and only if some recovery in the run was
   cut off after removing its staged stage and before rewriting its journal.
   */
  lemma LostExactlyByCut(r: Reader, events: seq<Event>, id: string)
    requires ReceiptsRead(r)
    ensures Lost(SlotOf(Run(r, events), id)) <==> exists i: nat :: i < |events| && CutAt(r, events, i, id)
  {
    var lost, cuts := LostAfter(r, events, id), CutsIn(r, events, id);
    forall i | 0 <= i < |cuts| ensures lost[i + 1] <==> lost[i] || cuts[i] {
      LostAtEvent(r, events, i, id);
    }
    assert events[..0] == [] && events[..|events|] == events;
    LostFromCuts(lost, cuts, |events|);
    forall i: nat | i < |events| ensures cuts[i] <==> CutAt(r, events, i, id) {
    }
  }

  lemma LostByLast(r: Reader, events: seq<Event>, id: string)
    requires ReceiptsRead(r) && events != []
    ensures var n := |events| - 1;
      Lost(SlotOf(Run(r, events), id)) <==> Lost(SlotOf(Run(r, events[..n]), id)) || CutAt(r, events, n, id)
  {
    var init := events[..|events| - 1];
    EveryRunIsSound(r, init);
    LosingStep(r, Run(r, init), events[|events| - 1], id);
  }

  // ----- The one way a published package is refused -----

  /** An import that got as far as the rename, of an archive whose package does not pass its own checks. */
  ghost predicate PublishesRefused(r: Reader, d: Disk, e: Event, id: string) {
    && e.ApplyRun? && e.apply.importId == id && e.cut >= RENAME
    && Begins(r, d, e.apply) && StagingFault(r, e.apply).None? && !r.sound(Package(r, e.apply))
  }

  lemma RefusedByApply(r: Reader, d: Disk, x: ApplyInput, cut: nat, id: string)
    requires ReceiptsRead(r) && Sound(r, d)
    ensures Refused(r, SlotOf(After(r, d, ApplyRun(x, cut)), id)) <==>
      Refused(r, SlotOf(d, id)) || PublishesRefused(r, d, ApplyRun(x, cut), id)
  {
    var t := ApplyTrace(r, d, x).states;
    var k := if cut < |t| then cut else |t| - 1;
    ApplyIsLocal(r, d, x, k, id);
    BeginsMeans(r, d, x);
    if Begins(r, d, x) {
      PublishLength(r, d, x);
      if id == x.importId {
        assert SlotOf(d, id).target.None?;
        if k >= 1 {
          ApplySlot(r, d, x, k);
        }
      }
    }
  }

  /** One operation makes a slot refused exactly by publishing a package that its own checks refuse. */
  lemma RefusedStep(r: Reader, d: Disk, e: Event, id: string)
    requires ReceiptsRead(r) && Sound(r, d)
    ensures Refused(r, SlotOf(After(r, d, e), id)) <==> Refused(r, SlotOf(d, id)) || PublishesRefused(r, d, e, id)
  {
    match e
    case ApplyRun(x, cut) => RefusedByApply(r, d, x, cut, id);
    case RecoverRun(x, cut) =>
      var t := RecoverTrace(r, d, Visits(d), x);
      RecoverKeepsTargets(r, d, Visits(d), x, if cut < |t| then cut else |t| - 1);
    case DryRun =>
  }

  ghost predicate RefusedAt(r: Reader, events: seq<Event>, i: nat, id: string)
    requires i < |events|
  {
    PublishesRefused(r, Run(r, events[..i]), events[i], id)
  }

  ghost function RefusedAfter(r: Reader, events: seq<Event>, id: string): seq<bool> {
    seq(|events| + 1, n requires 0 <= n <= |events| => Refused(r, SlotOf(Run(r, events[..n]), id)))
  }

  ghost function RefusalsIn(r: Reader, events: seq<Event>, id: string): seq<bool> {
    seq(|events|, i requires 0 <= i < |events| => RefusedAt(r, events, i, id))
  }

  lemma RefusedAtEvent(r: Reader, events: seq<Event>, i: nat, id: string)
    requires ReceiptsRead(r) && i < |events|
    ensures Refused(r, SlotOf(Run(r, events[..i + 1]), id)) <==>
      Refused(r, SlotOf(Run(r, events[..i]), id)) || RefusedAt(r, events, i, id)
  {
    assert events[..i + 1][..i] == events[..i] && events[..i + 1][i] == events[i];
    EveryRunIsSound(r, events[..i]);
    RefusedStep(r, Run(r, events[..i]), events[i], id);
  }

  /**
   Over every run, a published package is refused if and only if some import in the run got as far as
   the rename with an archive whose package does not pass its own checks.
   */
  lemma RefusedExactlyByArchive(r: Reader, events: seq<Event>, id: string)
    requires ReceiptsRead(r)
    ensures Refused(r, SlotOf(Run(r, events), id)) <==> exists i: nat :: i < |events| && RefusedAt(r, events, i, id)
  {
    var refused, refusals := RefusedAfter(r, events, id), RefusalsIn(r, events, id);
    forall i | 0 <= i < |refusals| ensures refused[i + 1] <==> refused[i] || refusals[i] {
      RefusedAtEvent(r, events, i, id);
    }
    assert events[..0] == [] && events[..|events|] == events;
    LostFromCuts(refused, refusals, |events|);
    forall i: nat | i < |events| ensures refusals[i] <==> RefusedAt(r, events, i, id) {
    }
  }

  /** A refused package stops every later import before its first write. */
  lemma RefusedPackageBlocks(r: Reader, d: Disk, id: string, x: ApplyInput)
    requires Refused(r, SlotOf(d, id))
    ensures ApplyTrace(r, d, x) == Trace([d], Failed(if r.supported(x.archive) then CorruptPackage else UnsupportedBundle))
  {
    if Existing(r, d, r.digest(x.archive)).Some? {
      var listing := Listing.Sorted(d.targets.Keys);
      Listing.SortedListsSet(d.targets.Keys);
      ImportsReadable(r, d.targets, listing, id);
    }
  }

  /** So no run publishes two refused packages. */
  lemma {:induction false} OneRefusedPackage(r: Reader, events: seq<Event>, a: string, b: string)
    requires ReceiptsRead(r)
    requires Refused(r, SlotOf(Run(r, events), a)) && Refused(r, SlotOf(Run(r, events), b))
    ensures a == b
  {
    if events != [] {
      var init, last := events[..|events| - 1], events[|events| - 1];
      var d := Run(r, init);
      EveryRunIsSound(r, init);
      RefusedStep(r, d, last, a);
      RefusedStep(r, d, last, b);
      if Refused(r, SlotOf(d, a)) && Refused(r, SlotOf(d, b)) {
        OneRefusedPackage(r, init, a, b);
      } else if last.ApplyRun? {
        BeginsMeans(r, d, last.apply);
        if Refused(r, SlotOf(d, a)) {
          RefusedPackageBlocks(r, d, a, last.apply);
        }
        if Refused(r, SlotOf(d, b)) {
          RefusedPackageBlocks(r, d, b, last.apply);
        }
      }
    }
  }

  /** In an uncorrupted run, recovery asks for manual resolution exactly for lost imports and refused packages. */
  lemma ManualExactlyFor(r: Reader, events: seq<Event>, id: string)
    requires ReceiptsRead(r)
    ensures Decide(r, Run(r, events), id) == Some(Manual) <==>
      || (exists i: nat :: i < |events| && CutAt(r, events, i, id))
      || (exists i: nat :: i < |events| && RefusedAt(r, events, i, id))
  {
    EveryRunIsSound(r, events);
    assert SlotSound(r, SlotOf(Run(r, events), id), id);
    SoundIsOrdinary(r, Run(r, events), id);
    LostExactlyByCut(r, events, id);
    RefusedExactlyByArchive(r, events, id);
  }

  /** The cut exists, and is the only one: a recovery of a staged, unpublished import loses it at exactly one step. */
  lemma StagedImportCanBeLost(r: Reader, d: Disk, id: string, x: RecoverInput, cut: nat)
    requires id in d.journals && d.journals[id].phase.Staged?
    requires id in d.stages && d.stages[id].Directory? && id !in d.targets
    ensures CutAfterUnstaging(r, d, RecoverRun(x, cut), id) <==> cut == StepsBefore(r, d, Visits(d), id) + 2
    ensures cut == StepsBefore(r, d, Visits(d), id) + 2 <==> Lost(SlotOf(After(r, d, RecoverRun(x, cut)), id))
    ensures cut == StepsBefore(r, d, Visits(d), id) + 2 ==>
      SlotOf(After(r, d, RecoverRun(x, cut)), id) == SlotOf(d, id).(stage := None)
  {
    LosingRecovery(r, d, x, cut, id);
    if cut == StepsBefore(r, d, Visits(d), id) + 2 {
      VisitsAll(d);
      RecoverTraceLength(r, d, Visits(d), x, id);
      RecoverTraceProgress(r, d, Visits(d), x, cut, id);
    }
  }

  // ----- Dry runs and second runs -----

  /** For any disk whatsoever, a dry run reports exactly the actions the real run takes. */
  lemma {:induction false} DryRunPredicts(r: Reader, d: Disk, e: Disk, ids: seq<string>, x: RecoverInput)
    requires forall i, j :: 0 <= i < j < |ids| ==> ids[i] != ids[j]
    requires forall id :: id in ids ==> SlotOf(e, id) == SlotOf(d, id)
    ensures RealActions(r, e, ids, x) == DryActions(r, d, ids)
    decreases |ids|
  {
    if ids != [] {
      assert ids[0] in ids;
      DecideIsLocal(r, d, e, ids[0]);
      var here := SlotTrace(r, e, ids[0], x);
      forall id | id in ids[1..] ensures SlotOf(Last(here), id) == SlotOf(d, id) {
        assert id in ids && id != ids[0];
        SlotTraceIsLocal(r, e, ids[0], x, |here| - 1, id);
      }
      DryRunPredicts(r, d, Last(here), ids[1..], x);
    }
  }

  lemma DryRunReportsRealActions(r: Reader, d: Disk, x: RecoverInput)
    ensures RealActions(r, d, Visits(d), x) == DryActions(r, d, Visits(d))
  {
    VisitsAll(d);
    DryRunPredicts(r, d, d, Visits(d), x);
  }

  ghost predicate SameJournalButTime(a: Option<Journal>, b: Option<Journal>) {
    || a == b
    || (a.Some? && b.Some? && a.value.(updatedAt := "") == b.value.(updatedAt := ""))
  }

  ghost predicate SameButTimes(a: Slot, b: Slot) {
    SameJournalButTime(a.journal, b.journal) && a.stage == b.stage && a.target == b.target
  }

  /**
   On any disk, once an uninterrupted recovery has run, another one changes nothing but times, and
   reports again exactly the journals the first one could not settle.
   */
  lemma SecondRecoveryIsNoOp(r: Reader, d: Disk, x: RecoverInput, y: RecoverInput, id: string)
    ensures SameButTimes(SlotOf(Recovered(r, Recovered(r, d, x), y), id), SlotOf(Recovered(r, d, x), id))
    ensures Decide(r, Recovered(r, d, x), id) == if Decide(r, d, id) == Some(Manual) then Some(Manual) else None
  {
    RecoveredSlot(r, d, x, id);
    RecoveredSlot(r, Recovered(r, d, x), y, id);
  }
}
