/** The import service itself: it rewrites journal, stage and target one write at a time. */
module ExchangeImportService {
  import opened Wrappers
  import opened ExchangeImport
  import ExchangeImportAnswers
  import Listing

  datatype RecoveryAnswer = RecoveryAnswer(needsResolution: bool, actions: seq<Report>)

  class ImportService {
    const reader: Reader
    var journals: map<string, Journal>
    var stages: map<string, Node>
    var targets: map<string, Node>

    constructor (reader: Reader)
      ensures this.reader == reader && Now() == EMPTY
    {
      this.reader := reader;
      journals, stages, targets := map[], map[], map[];
    }

    ghost function Now(): Disk
      reads this
    {
      Disk(journals, stages, targets)
    }

    /** Rewrites one journal with a new phase and time. */
    method SetJournal(id: string, phase: Phase, outcome: Outcome, at: string)
      requires id in journals
      modifies this`journals
      ensures Now() == SetPhase(old(Now()), id, phase, outcome, at)
    {
      var journal := journals[id];
      journals := journals[id := journal.(phase := phase, outcome := outcome, updatedAt := at)];
    }

    /** Reads every published package in name order; the first unreadable one is an error. */
    method ListImports() returns (receipts: Option<seq<Receipt>>)
      ensures receipts == Imports(reader, targets, Listing.Sorted(targets.Keys))
    {
      var listing := Listing.List(targets.Keys);
      var found := [];
      for i := 0 to |listing|
        invariant Imports(reader, targets, listing[..i]) == Some(found)
      {
        var name := listing[i];
        assert listing[..i + 1][..i] == listing[..i];
        if name in targets && targets[name].Directory? {
          var receipt := Inspect(reader, targets[name].tree);
          if receipt.None? {
            UnreadableSpoils(listing, i);
            return None;
          }
          found := found + [receipt.value];
        }
      }
      assert listing[..|listing|] == listing;
      return Some(found);
    }

    lemma {:induction false} UnreadableSpoils(listing: seq<string>, i: nat)
      requires i < |listing| && Imports(reader, targets, listing[..i + 1]).None?
      ensures Imports(reader, targets, listing).None?
      decreases |listing|
    {
      if i + 1 == |listing| {
        assert listing[..i + 1] == listing;
      } else {
        assert listing[..|listing| - 1][..i + 1] == listing[..i + 1];
        UnreadableSpoils(listing[..|listing| - 1], i);
      }
    }

    /** The id already holding this archive, `None` when some package is unreadable. */
    method FindExistingImport(sha: string) returns (found: Option<Option<string>>)
      ensures found == Existing(reader, Now(), sha)
    {
      var receipts := ListImports();
      if receipts.None? {
        return None;
      }
      var all := receipts.value;
      for i := 0 to |all|
        invariant FirstWithSha(all, sha) == FirstWithSha(all[i..], sha)
      {
        if all[i].archiveSha == sha {
          return Some(Some(all[i].importId));
        }
      }
      return Some(None);
    }

    /**
     One import that dies after `cut` writes, or finishes if it makes no more. The disk it leaves is
     the `cut`-th disk of the import's trace; an import that finishes answers what the disk it found
     and the disk it leaves show.
     */
    method ApplyLocked(x: ApplyInput, cut: nat) returns (result: ApplyResult)
      modifies this
      ensures Now() == old(At(ApplyTrace(reader, Now(), x).states, cut))
      ensures result == old(
        if cut < |ApplyTrace(reader, Now(), x).states| - 1 then Died else ApplyTrace(reader, Now(), x).result)
      ensures ReceiptsRead(reader) && result != Died ==>
        ExchangeImportAnswers.Answered(reader, old(Now()), x, Now(), result)
    {
      ghost var before := Now();
      result := ApplySteps(x, cut);
      if ReceiptsRead(reader) {
        ExchangeImportAnswers.ApplyAnswers(reader, before, x);
      }
    }

    /** The checks of an import, in order, and then its writes. */
    method ApplySteps(x: ApplyInput, cut: nat) returns (result: ApplyResult)
      modifies this
      ensures Now() == old(At(ApplyTrace(reader, Now(), x).states, cut))
      ensures result == old(
        if cut < |ApplyTrace(reader, Now(), x).states| - 1 then Died else ApplyTrace(reader, Now(), x).result)
    {
      if !reader.supported(x.archive) {
        return Failed(UnsupportedBundle);
      }
      var sha := reader.digest(x.archive);
      var existing := FindExistingImport(sha);
      if existing.None? {
        return Failed(CorruptPackage);
      }
      if sha != x.expectedSha || reader.basis(sha, existing.value) != x.expectedBasis {
        return Failed(BasisChanged);
      }
      if existing.value.Some? {
        return NoChange(existing.value.value);
      }
      var id := x.importId;
      if id in targets || id in stages || id in journals {
        return Failed(IdInUse);
      }
      result := PublishLocked(x, sha, cut);
    }

    /** The journal and the start of the extraction: the first two writes of an import. */
    method OpenLocked(x: ApplyInput, sha: string, cut: nat) returns (alive: bool)
      requires !IdTaken(Now(), x.importId) && sha == reader.digest(x.archive)
      modifies this`journals, this`stages
      ensures Now() == old(At(PublishTrace(reader, Now(), x).states, if cut < 2 then cut else 2))
      ensures alive <==> cut >= 2
    {
      var id := x.importId;
      ghost var t := PublishTrace(reader, Now(), x).states;
      if cut == 0 { return false; }
      journals := journals[id := Journal(sha, x.expectedBasis, Prepared, Pending, x.createdAt, x.createdAt)];
      assert Now() == t[1];
      if cut == 1 { return false; }
      stages := stages[id := Directory(x.torn)];
      assert Now() == t[2];
      return true;
    }

    /** The whole extraction, and what stops an import after it. */
    method ExtractLocked(x: ApplyInput, sha: string, cut: nat) returns (stopped: Option<ApplyResult>)
      requires !IdTaken(Now(), x.importId) && sha == reader.digest(x.archive)
      modifies this`journals, this`stages
      ensures stopped.Some? ==> Now() == old(At(PublishTrace(reader, Now(), x).states, cut))
      ensures stopped.Some? ==> stopped.value == old(
        if cut < |PublishTrace(reader, Now(), x).states| - 1 then Died else PublishTrace(reader, Now(), x).result)
      ensures stopped.None? ==> cut > 3 && StagingFault(reader, x).None?
      ensures stopped.None? ==> Now() == old(PublishTrace(reader, Now(), x).states[3])
    {
      var id := x.importId;
      ghost var d1 := Prepare(reader, Now(), x);
      ghost var whole := PublishTrace(reader, Now(), x);
      var alive := OpenLocked(x, sha, cut);
      var extracted := reader.extract(x.reread);
      if extracted.None? {
        assert |whole.states| == 3;
        return Some(if alive then Failed(ExtractionFailed) else Died);
      }
      if !alive { return Some(Died); }
      if cut == 2 { return Some(Died); }
      assert Now() == StageAs(d1, id, x.torn);
      stages := stages[id := Directory(extracted.value)];
      assert Now() == StageAs(d1, id, extracted.value) == whole.states[3];
      var fault := StagingFault(reader, x);
      if fault.Some? {
        return Some(Failed(fault.value));
      }
      if cut == 3 { return Some(Died); }
      return None;
    }

    /** Extraction, receipt and phase staged. */
    method StageLocked(x: ApplyInput, sha: string, cut: nat) returns (stopped: Option<ApplyResult>)
      requires !IdTaken(Now(), x.importId) && sha == reader.digest(x.archive)
      modifies this`journals, this`stages
      ensures stopped.Some? ==> Now() == old(At(PublishTrace(reader, Now(), x).states, cut))
      ensures stopped.Some? ==> stopped.value == old(
        if cut < |PublishTrace(reader, Now(), x).states| - 1 then Died else PublishTrace(reader, Now(), x).result)
      ensures stopped.None? ==> cut > 5 && StagingFault(reader, x).None?
      ensures stopped.None? ==> Now() == old(PublishTrace(reader, Now(), x).states[5])
    {
      var id := x.importId;
      ghost var d1 := Prepare(reader, Now(), x);
      ghost var t := PublishTrace(reader, Now(), x).states;
      stopped := ExtractLocked(x, sha, cut);
      if stopped.Some? { return; }
      assert Now() == t[3] == StageAs(d1, id, reader.extract(x.reread).value);
      var package := Seal(reader, reader.extract(x.reread).value, ReceiptOf(reader, x));
      stages := stages[id := Directory(package)];
      assert Now() == StageAs(d1, id, package) == t[4];
      if cut == 4 { return Some(Died); }
      SetJournal(id, Staged, Pending, x.clock(Staged));
      assert Now() == t[5];
      if cut == 5 { return Some(Died); }
      return None;
    }

    /** The writing half of an import: stage it, rename it into place, complete the journal. */
    method PublishLocked(x: ApplyInput, sha: string, cut: nat) returns (result: ApplyResult)
      requires !IdTaken(Now(), x.importId) && sha == reader.digest(x.archive)
      modifies this
      ensures Now() == old(At(PublishTrace(reader, Now(), x).states, cut))
      ensures result == old(
        if cut < |PublishTrace(reader, Now(), x).states| - 1 then Died else PublishTrace(reader, Now(), x).result)
    {
      var id := x.importId;
      ghost var whole := PublishTrace(reader, Now(), x);
      ghost var t := whole.states;
      var stopped := StageLocked(x, sha, cut);
      if stopped.Some? {
        return stopped.value;
      }
      assert id in stages && id in journals;
      stages, targets := stages - {id}, targets[id := stages[id]];
      assert Now() == t[6];
      if cut == 6 { return Died; }
      SetJournal(id, Published, Pending, x.clock(Published));
      assert Now() == t[7];
      if !ValidPackage(reader, targets[id], sha) {
        assert |t| == 8 && whole.result == Failed(PackageInvalid);
        return Failed(PackageInvalid);
      }
      if cut == 7 { return Died; }
      SetJournal(id, Complete, Success, x.clock(Complete));
      return Imported(id);
    }

    /** Settles one journal with at most `budget` writes. */
    method SettleOne(id: string, dryRun: bool, x: RecoverInput, budget: nat)
      returns (alive: bool, used: nat, action: Option<Action>)
      requires id in journals
      modifies this
      ensures action == old(Decide(reader, Now(), id))
      ensures dryRun ==> alive && used == 0 && Now() == old(Now())
      ensures !dryRun ==> Now() == old(At(SlotTrace(reader, Now(), id, x), budget))
      ensures !dryRun ==> alive == old(|SlotTrace(reader, Now(), id, x)| <= budget + 1)
      ensures !dryRun && alive ==> used == old(|SlotTrace(reader, Now(), id, x)|) - 1
    {
      alive, used, action := true, 0, None;
      var journal := journals[id];
      if journal.phase.Complete? {
        return;
      }
      if id in targets && targets[id].Directory? {
        if ValidPackage(reader, targets[id], journal.archiveSha) {
          action := Some(CompletePublished);
          if !dryRun {
            if budget == 0 { return false, 0, action; }
            SetJournal(id, Complete, Success, x.clock(id));
            used := 1;
          }
        } else {
          action := Some(Manual);
          if !dryRun {
            if budget == 0 { return false, 0, action; }
            SetJournal(id, NeedsResolution, Unresolved, x.clock(id));
            used := 1;
          }
        }
      } else if id in stages && stages[id].Directory? && (journal.phase.Prepared? || journal.phase.Staged?) {
        action := Some(DiscardStage);
        if !dryRun {
          if budget == 0 { return false, 0, action; }
          ghost var d := Now();
          stages := stages[id := Directory(x.torn(id))];
          if budget == 1 { return false, 1, action; }
          stages := stages - {id};
          assert Now() == Unstage(d, id);
          if budget == 2 { return false, 2, action; }
          SetJournal(id, Complete, Failure, x.clock(id));
          used := 3;
        }
      } else if id !in stages && id !in targets && journal.phase.Prepared? {
        action := Some(FailPrepare);
        if !dryRun {
          if budget == 0 { return false, 0, action; }
          SetJournal(id, Complete, Failure, x.clock(id));
          used := 1;
        }
      } else {
        action := Some(Manual);
        if !dryRun {
          if budget == 0 { return false, 0, action; }
          SetJournal(id, NeedsResolution, Unresolved, x.clock(id));
          used := 1;
        }
      }
    }

    /**
     Recovery over all journals in file order. A dry run only reports; a real run that dies after
     `cut` writes leaves the `cut`-th disk of the recovery's trace.
     */
    method RecoverLocked(dryRun: bool, x: RecoverInput, cut: nat) returns (answer: Option<RecoveryAnswer>)
      modifies this
      ensures dryRun ==> Now() == old(Now())
      ensures dryRun ==> answer.Some? && answer.value.actions == old(DryActions(reader, Now(), Visits(Now())))
      ensures !dryRun ==> Now() == old(After(reader, Now(), RecoverRun(x, cut)))
      ensures !dryRun ==> answer.Some? == old(|RecoverTrace(reader, Now(), Visits(Now()), x)| <= cut + 1)
      ensures !dryRun && answer.Some? ==>
        answer.value.actions == old(RealActions(reader, Now(), Visits(Now()), x))
      ensures answer.Some? ==> answer.value.needsResolution == NeedsHelp(answer.value.actions)
    {
      if dryRun {
        answer := DryRecovery();
      } else {
        answer := RealRecovery(x, cut);
      }
    }

    /** The journal files in name order. */
    method ListJournals() returns (ids: seq<string>)
      ensures ids == Visits(Now())
      ensures forall i :: 0 <= i < |ids| ==> ids[i] in journals
    {
      ids := Listing.List(journals.Keys);
      VisitsAll(Now());
      forall i | 0 <= i < |ids| ensures ids[i] in journals {
        assert ids[i] in ids;
      }
    }

    method DryRecovery() returns (answer: Option<RecoveryAnswer>)
      modifies this
      ensures Now() == old(Now())
      ensures answer.Some? && answer.value.actions == old(DryActions(reader, Now(), Visits(Now())))
      ensures answer.value.needsResolution == NeedsHelp(answer.value.actions)
    {
      ghost var d := Now();
      var ids := ListJournals();
      var actions: seq<Report> := [];
      for i := 0 to |ids|
        invariant Now() == d
        invariant DryActions(reader, d, ids) == actions + DryActions(reader, d, ids[i..])
      {
        assert ids[i..][1..] == ids[i + 1..];
        var action := Preview(ids[i]);
        actions := actions + if action.Some? then [Report(ids[i], action.value)] else [];
      }
      assert ids[|ids|..] == [];
      answer := Some(RecoveryAnswer(NeedsHelp(actions), actions));
    }

    /** A dry look at one journal. */
    method Preview(id: string) returns (action: Option<Action>)
      requires id in journals
      modifies this
      ensures action == old(Decide(reader, Now(), id)) && Now() == old(Now())
    {
      var x := RecoverInput(_ => "", _ => Tree(map[], {}));
      var _, _, decided := SettleOne(id, true, x, 0);
      action := decided;
    }

    method RealRecovery(x: RecoverInput, cut: nat) returns (answer: Option<RecoveryAnswer>)
      modifies this
      ensures Now() == old(After(reader, Now(), RecoverRun(x, cut)))
      ensures answer.Some? == old(|RecoverTrace(reader, Now(), Visits(Now()), x)| <= cut + 1)
      ensures answer.Some? ==> answer.value.actions == old(RealActions(reader, Now(), Visits(Now()), x))
      ensures answer.Some? ==> answer.value.needsResolution == NeedsHelp(answer.value.actions)
    {
      var ids := ListJournals();
      ghost var whole := RecoverTrace(reader, Now(), ids, x);
      var alive, actions := RecoverEach(ids, x, cut, whole);
      answer := if alive then Some(RecoveryAnswer(NeedsHelp(actions), actions)) else None;
    }

    /** A recovery under way: what is left of its trace and of its actions, from the disk as it is now. */
    ghost predicate Recovering(
        whole: seq<Disk>, every: seq<Report>, writes: nat, actions: seq<Report>, rest: seq<string>, x: RecoverInput)
      reads this
    {
      && writes < |whole| && whole[writes..] == RecoverTrace(reader, Now(), rest, x)
      && every == actions + RealActions(reader, Now(), rest, x)
      && forall id :: id in rest ==> id in journals
    }

    lemma RecoveryStarts(ids: seq<string>, x: RecoverInput)
      requires forall i :: 0 <= i < |ids| ==> ids[i] in journals
      ensures Recovering(
        RecoverTrace(reader, Now(), ids, x), RealActions(reader, Now(), ids, x), 0, [], ids[0..], x)
    {
      var whole := RecoverTrace(reader, Now(), ids, x);
      assert ids[0..] == ids && whole[0..] == whole;
    }

    lemma RecoveryEnds(
        whole: seq<Disk>, every: seq<Report>, writes: nat, actions: seq<Report>, rest: seq<string>, x: RecoverInput)
      requires Recovering(whole, every, writes, actions, rest, x) && rest == []
      ensures |whole| == writes + 1 && whole[writes] == Now() && actions == every
    {
      assert whole[writes..] == [Now()];
      assert whole[writes..][0] == whole[writes];
    }

    /** The recovery loop over a listing of journals. */
    method RecoverEach(ids: seq<string>, x: RecoverInput, cut: nat, ghost whole: seq<Disk>)
      returns (alive: bool, actions: seq<Report>)
      requires forall i :: 0 <= i < |ids| ==> ids[i] in journals
      requires whole == RecoverTrace(reader, Now(), ids, x)
      modifies this
      ensures Now() == At(whole, cut)
      ensures alive <==> |whole| <= cut + 1
      ensures alive ==> actions == old(RealActions(reader, Now(), ids, x))
    {
      ghost var every := RealActions(reader, Now(), ids, x);
      actions := [];
      var writes: nat := 0;
      RecoveryStarts(ids, x);
      for i := 0 to |ids|
        invariant writes <= cut && Recovering(whole, every, writes, actions, ids[i..], x)
      {
        alive, writes, actions := RecoverNext(ids, i, x, cut, whole, every, writes, actions);
        if !alive {
          return;
        }
      }
      alive := true;
      RecoveryEnds(whole, every, writes, actions, ids[|ids|..], x);
    }

    /** One turn of the recovery loop, with its place in the whole recovery. */
    method RecoverNext(
        ids: seq<string>, i: nat, x: RecoverInput, cut: nat, ghost whole: seq<Disk>, ghost every: seq<Report>,
        writes: nat, actions: seq<Report>)
      returns (alive: bool, writes': nat, actions': seq<Report>)
      requires i < |ids| && writes <= cut && Recovering(whole, every, writes, actions, ids[i..], x)
      modifies this
      ensures !alive ==> cut < |whole| - 1 && Now() == whole[cut]
      ensures alive ==> writes' <= cut && Recovering(whole, every, writes', actions', ids[i + 1..], x)
    {
      ghost var here := Now();
      assert ids[i] == ids[i..][0];
      var budget := cut - writes;
      var used, action;
      alive, used, action := SettleOne(ids[i], false, x, budget);
      writes', actions' := writes + used, actions + Reports(ids[i], action);
      if alive {
        TurnFinished(reader, here, ids, i, x, whole, every, writes, actions);
        JournalsStay(reader, here, ids, i, x);
      } else {
        TurnCut(reader, here, ids, i, x, whole, writes, budget);
      }
    }
  }

  function Reports(id: string, action: Option<Action>): seq<Report> {
    if action.Some? then [Report(id, action.value)] else []
  }

  /** Settling one journal leaves the journals still to be visited. */
  lemma JournalsStay(r: Reader, d: Disk, ids: seq<string>, i: nat, x: RecoverInput)
    requires i < |ids| && forall id :: id in ids[i..] ==> id in d.journals
    ensures forall id :: id in ids[i + 1..] ==> id in Last(SlotTrace(r, d, ids[i], x)).journals
  {
    SlotTraceIsLocal(r, d, ids[i], x, |SlotTrace(r, d, ids[i], x)| - 1, ids[i]);
    forall id | id in ids[i + 1..] ensures id in d.journals.Keys {
      assert ids[i..] == [ids[i]] + ids[i + 1..];
    }
  }

  /** Settling one journal leaves the trace and the actions of the journals after it. */
  lemma TurnFinished(
      r: Reader, d: Disk, ids: seq<string>, i: nat, x: RecoverInput, whole: seq<Disk>, every: seq<Report>, writes: nat,
      actions: seq<Report>)
    requires i < |ids| && writes < |whole| && whole[writes..] == RecoverTrace(r, d, ids[i..], x)
    requires every == actions + RealActions(r, d, ids[i..], x)
    ensures var states := SlotTrace(r, d, ids[i], x);
      var writes' := writes + |states| - 1;
      && writes' < |whole| && whole[writes'..] == RecoverTrace(r, Last(states), ids[i + 1..], x)
      && every == actions + Reports(ids[i], Decide(r, d, ids[i])) + RealActions(r, Last(states), ids[i + 1..], x)
  {
    var states := SlotTrace(r, d, ids[i], x);
    var tail := RecoverTrace(r, Last(states), ids[i + 1..], x);
    assert ids[i..][1..] == ids[i + 1..];
    assert RecoverTrace(r, d, ids[i..], x) == states + tail[1..];
    PastStates(whole[writes..], states, tail);
    assert whole[writes..][|states| - 1..] == whole[writes + |states| - 1..];
  }

  /** A recovery cut off while it settles one journal is that far into the trace. */
  lemma TurnCut(
      r: Reader, d: Disk, ids: seq<string>, i: nat, x: RecoverInput, whole: seq<Disk>, writes: nat, budget: nat)
    requires i < |ids| && writes < |whole| && whole[writes..] == RecoverTrace(r, d, ids[i..], x)
    requires budget + 1 < |SlotTrace(r, d, ids[i], x)|
    ensures writes + budget < |whole| - 1 && whole[writes + budget] == SlotTrace(r, d, ids[i], x)[budget]
  {
    var states := SlotTrace(r, d, ids[i], x);
    RecoverTraceStarts(r, d, ids[i..], x);
    assert whole[writes..][budget] == whole[writes + budget];
  }

  lemma RecoverTraceStarts(r: Reader, d: Disk, ids: seq<string>, x: RecoverInput)
    requires ids != []
    ensures SlotTrace(r, d, ids[0], x) <= RecoverTrace(r, d, ids, x)
  {
  }

  lemma PastStates(rest: seq<Disk>, states: seq<Disk>, tail: seq<Disk>)
    requires states != [] && tail != [] && tail[0] == Last(states) && rest == states + tail[1..]
    ensures rest[|states| - 1..] == tail
  {
  }
}
