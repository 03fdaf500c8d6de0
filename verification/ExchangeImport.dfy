/**
 Exchange import as a crash-recovery protocol. An import writes a journal through
 prepared, staged, published and complete while it extracts a stage directory and renames it into
 place; the process may die between any two writes, also inside recovery. The disk is the state of
 the protocol, and every operation is the sequence of disks its writes pass through.
 */
module ExchangeImport {
  import opened Wrappers
  import Listing

  type Bytes = seq<int>

  type Files = map<string, Bytes>

  const RECEIPT := "import_receipt.json"

  /** A directory: its files by relative path, and the directories below it. */
  datatype Tree = Tree(files: Files, directories: set<string>)

  datatype Node = Loose | Directory(tree: Tree)

  datatype Phase = Prepared | Staged | Published | Complete | NeedsResolution

  datatype Outcome = Pending | Success | Failure | Unresolved

  datatype Journal = Journal(
    archiveSha: string,
    basisDigest: string,
    phase: Phase,
    outcome: Outcome,
    createdAt: string,
    updatedAt: string)

  /** What an import receipt repeats from the bundle it belongs to. */
  datatype Binding = Binding(
    manifestSha: string,
    originId: string,
    exportId: string,
    recordCount: nat,
    sourceCount: nat)

  /** `rest` stands for the local workspace, the conflict counts and the time. */
  datatype Receipt = Receipt(importId: string, archiveSha: string, binding: Binding, rest: string)

  /** The imports area: one journal, one stage and one target per import id. */
  datatype Disk = Disk(journals: map<string, Journal>, stages: map<string, Node>, targets: map<string, Node>)

  const EMPTY := Disk(map[], map[], map[])

  /**
   What the service asks of the archive reader: the archive digest, the bundle checks and what they
   read, the basis digest, the extraction of an archive into a directory (nothing when two entries
   get into each other's way), the validation, writing and reading of receipts, and the checks of an
   extracted package.
   */
  datatype Reader = Reader(
    digest: Files -> string,
    supported: Files -> bool,
    binding: Files -> Binding,
    basis: (string, Option<string>) -> string,
    extract: Files -> Option<Tree>,
    receiptOk: Receipt -> bool,
    writeReceipt: Receipt -> Bytes,
    readReceipt: Bytes -> Option<Receipt>,
    sound: Tree -> bool)

  /** A written receipt reads back as itself. */
  ghost predicate ReceiptsRead(r: Reader) {
    forall x: Receipt {:trigger r.writeReceipt(x)} :: r.readReceipt(r.writeReceipt(x)) == Some(x)
  }

  /** The receipt found in a directory, if it holds one that validates. */
  function ReceiptIn(r: Reader, tree: Tree): Option<Receipt> {
    if RECEIPT !in tree.files then None
    else
      var receipt := r.readReceipt(tree.files[RECEIPT]);
      if receipt.Some? && r.receiptOk(receipt.value) then receipt else None
  }

  /** The package checks: a receipt, and a directory that matches it and its own manifest. */
  function Inspect(r: Reader, tree: Tree): Option<Receipt> {
    if r.sound(tree) then ReceiptIn(r, tree) else None
  }

  /** The package checks of one directory against an expected archive digest. */
  predicate ValidPackage(r: Reader, node: Node, sha: string) {
    && node.Directory?
    && Inspect(r, node.tree).Some?
    && Inspect(r, node.tree).value.archiveSha == sha
  }

  function Seal(r: Reader, tree: Tree, receipt: Receipt): Tree {
    tree.(files := tree.files[RECEIPT := r.writeReceipt(receipt)])
  }

  // ----- Apply -----

  /**
   `archive` is what the preview read, `reread` what the extraction read; `torn` is the stage content
   a death inside the extraction leaves; `clock` gives the time of each journal write; `rest` is the
   local part of the receipt.
   */
  datatype ApplyInput = ApplyInput(
    archive: Files,
    reread: Files,
    importId: string,
    expectedSha: string,
    expectedBasis: string,
    createdAt: string,
    clock: Phase -> string,
    torn: Tree,
    rest: string)

  datatype ApplyError =
    | UnsupportedBundle | CorruptPackage | BasisChanged | IdInUse | ExtractionFailed | ArchiveChanged
    | ReceiptRefused | PackageInvalid

  datatype ApplyResult = Died | Imported(importId: string) | NoChange(existing: string) | Failed(error: ApplyError)

  /** The disks an operation passes through, first to last, and what it answers when it gets to the end. */
  datatype Trace = Trace(states: seq<Disk>, result: ApplyResult)

  function SetPhase(d: Disk, id: string, phase: Phase, outcome: Outcome, at: string): Disk
    requires id in d.journals
  {
    d.(journals := d.journals[id := d.journals[id].(phase := phase, outcome := outcome, updatedAt := at)])
  }

  /** The package directories of a listing, each by its receipt; an unreadable one is an error. */
  function Imports(r: Reader, targets: map<string, Node>, listing: seq<string>): Option<seq<Receipt>> {
    if listing == [] then Some([])
    else
      var init, last := listing[..|listing| - 1], listing[|listing| - 1];
      var earlier := Imports(r, targets, init);
      if earlier.None? then None
      else if last !in targets || targets[last].Loose? then earlier
      else match Inspect(r, targets[last].tree)
        case None => None
        case Some(receipt) => Some(earlier.value + [receipt])
  }

  function FirstWithSha(receipts: seq<Receipt>, sha: string): Option<string> {
    if receipts == [] then None
    else if receipts[0].archiveSha == sha then Some(receipts[0].importId)
    else FirstWithSha(receipts[1..], sha)
  }

  /** The import id already holding this archive; `None` when a package is unreadable. */
  ghost function Existing(r: Reader, d: Disk, sha: string): Option<Option<string>> {
    var imports := Imports(r, d.targets, Listing.Sorted(d.targets.Keys));
    if imports.None? then None else Some(FirstWithSha(imports.value, sha))
  }

  predicate IdTaken(d: Disk, id: string) {
    id in d.targets || id in d.stages || id in d.journals
  }

  /** The import gets past its checks and starts to write. */
  ghost predicate Begins(r: Reader, d: Disk, x: ApplyInput) {
    var sha := r.digest(x.archive);
    && r.supported(x.archive) && Existing(r, d, sha) == Some(None)
    && sha == x.expectedSha && r.basis(sha, None) == x.expectedBasis
    && !IdTaken(d, x.importId)
  }

  ghost function ApplyTrace(r: Reader, d: Disk, x: ApplyInput): Trace {
    var sha := r.digest(x.archive);
    if !r.supported(x.archive) then Trace([d], Failed(UnsupportedBundle))
    else match Existing(r, d, sha)
      case None => Trace([d], Failed(CorruptPackage))
      case Some(existing) =>
        if sha != x.expectedSha || r.basis(sha, existing) != x.expectedBasis then Trace([d], Failed(BasisChanged))
        else if existing.Some? then Trace([d], NoChange(existing.value))
        else if IdTaken(d, x.importId) then Trace([d], Failed(IdInUse))
        else PublishTrace(r, d, x)
  }

  lemma BeginsMeans(r: Reader, d: Disk, x: ApplyInput)
    ensures Begins(r, d, x) ==> ApplyTrace(r, d, x) == PublishTrace(r, d, x)
    ensures !Begins(r, d, x) ==> ApplyTrace(r, d, x).states == [d]
  {
  }

  function Prepare(r: Reader, d: Disk, x: ApplyInput): Disk {
    d.(journals := d.journals[x.importId :=
      Journal(r.digest(x.archive), x.expectedBasis, Prepared, Pending, x.createdAt, x.createdAt)])
  }

  function StageAs(d: Disk, id: string, tree: Tree): Disk {
    d.(stages := d.stages[id := Directory(tree)])
  }

  function Unstage(d: Disk, id: string): Disk {
    d.(stages := d.stages - {id})
  }

  /** The atomic rename of a stage onto its target. */
  function Rename(d: Disk, id: string): Disk
    requires id in d.stages
  {
    Unstage(d, id).(targets := d.targets[id := d.stages[id]])
  }

  function ReceiptOf(r: Reader, x: ApplyInput): Receipt {
    Receipt(x.importId, r.digest(x.archive), r.binding(x.archive), x.rest)
  }

  /** Why an import stops before it writes its receipt. */
  function StagingFault(r: Reader, x: ApplyInput): Option<ApplyError> {
    if r.extract(x.reread).None? then Some(ExtractionFailed)
    else if r.digest(x.reread) != r.digest(x.archive) then Some(ArchiveChanged)
    else if !r.receiptOk(ReceiptOf(r, x)) then Some(ReceiptRefused)
    else None
  }

  /** The package an import publishes. */
  function Package(r: Reader, x: ApplyInput): Tree
    requires r.extract(x.reread).Some?
  {
    Seal(r, r.extract(x.reread).value, ReceiptOf(r, x))
  }

  function PublishTrace(r: Reader, d: Disk, x: ApplyInput): Trace
    requires !IdTaken(d, x.importId)
  {
    var id := x.importId;
    var d1 := Prepare(r, d, x);
    var d2 := StageAs(d1, id, x.torn);
    if r.extract(x.reread).None? then Trace([d, d1, d2], Failed(ExtractionFailed))
    else
      var d3 := StageAs(d1, id, r.extract(x.reread).value);
      if StagingFault(r, x).Some? then Trace([d, d1, d2, d3], Failed(StagingFault(r, x).value))
      else
        var package := Package(r, x);
        var d4 := StageAs(d1, id, package);
        var d5 := SetPhase(d4, id, Staged, Pending, x.clock(Staged));
        var d6 := Rename(d5, id);
        var d7 := SetPhase(d6, id, Published, Pending, x.clock(Published));
        if !ValidPackage(r, Directory(package), r.digest(x.archive)) then
          Trace([d, d1, d2, d3, d4, d5, d6, d7], Failed(PackageInvalid))
        else
          Trace([d, d1, d2, d3, d4, d5, d6, d7, SetPhase(d7, id, Complete, Success, x.clock(Complete))], Imported(id))
  }

  /** The number of the write that renames the stage into place. */
  const RENAME: nat := 6

  // ----- Recovery -----

  datatype Action = CompletePublished | DiscardStage | FailPrepare | Manual

  /** What recovery decides for one journal from the journal, its target and its stage. */
  function Decide(r: Reader, d: Disk, id: string): Option<Action> {
    if id !in d.journals || d.journals[id].phase.Complete? then None
    else if id in d.targets && d.targets[id].Directory? then
      if ValidPackage(r, d.targets[id], d.journals[id].archiveSha) then Some(CompletePublished) else Some(Manual)
    else if id in d.stages && d.stages[id].Directory?
      && (d.journals[id].phase.Prepared? || d.journals[id].phase.Staged?) then Some(DiscardStage)
    else if id !in d.stages && id !in d.targets && d.journals[id].phase.Prepared? then Some(FailPrepare)
    else Some(Manual)
  }

  /** `clock` and `torn` are per journal: a run writes each journal at most once. */
  datatype RecoverInput = RecoverInput(clock: string -> string, torn: string -> Tree)

  /** The disks recovery passes through while it settles one journal. */
  function SlotTrace(r: Reader, d: Disk, id: string, x: RecoverInput): (t: seq<Disk>)
    ensures t != [] && t[0] == d
  {
    match Decide(r, d, id)
    case None => [d]
    case Some(CompletePublished) => [d, SetPhase(d, id, Complete, Success, x.clock(id))]
    case Some(DiscardStage) =>
      [d, StageAs(d, id, x.torn(id)), Unstage(d, id), SetPhase(Unstage(d, id), id, Complete, Failure, x.clock(id))]
    case Some(FailPrepare) => [d, SetPhase(d, id, Complete, Failure, x.clock(id))]
    case Some(Manual) => [d, SetPhase(d, id, NeedsResolution, Unresolved, x.clock(id))]
  }

  function Last(t: seq<Disk>): Disk
    requires t != []
  {
    t[|t| - 1]
  }

  function RecoverTrace(r: Reader, d: Disk, ids: seq<string>, x: RecoverInput): (t: seq<Disk>)
    ensures t != [] && t[0] == d
    decreases |ids|
  {
    if ids == [] then [d]
    else
      var here := SlotTrace(r, d, ids[0], x);
      here + RecoverTrace(r, Last(here), ids[1..], x)[1..]
  }

  datatype Report = Report(importId: string, action: Action)

  /** The actions of a real run, each decided on the disk the earlier ones left. */
  function RealActions(r: Reader, d: Disk, ids: seq<string>, x: RecoverInput): seq<Report>
    decreases |ids|
  {
    if ids == [] then []
    else
      var action := Decide(r, d, ids[0]);
      (if action.Some? then [Report(ids[0], action.value)] else []) +
      RealActions(r, Last(SlotTrace(r, d, ids[0], x)), ids[1..], x)
  }

  /** The actions of a dry run, all decided on the same disk. */
  function DryActions(r: Reader, d: Disk, ids: seq<string>): seq<Report> {
    if ids == [] then []
    else
      var action := Decide(r, d, ids[0]);
      (if action.Some? then [Report(ids[0], action.value)] else []) + DryActions(r, d, ids[1..])
  }

  predicate NeedsHelp(actions: seq<Report>) {
    exists i :: 0 <= i < |actions| && actions[i].action.Manual?
  }

  /** The journals a recovery visits, in file order. */
  ghost function Visits(d: Disk): seq<string> {
    Listing.Sorted(d.journals.Keys)
  }

  /** The disk a real recovery leaves when nothing cuts it off. */
  ghost function Recovered(r: Reader, d: Disk, x: RecoverInput): Disk {
    Last(RecoverTrace(r, d, Visits(d), x))
  }

  // ----- One journal's slot -----

  /** What one import id owns on the disk. */
  datatype Slot = Slot(journal: Option<Journal>, stage: Option<Node>, target: Option<Node>)

  function Lookup<T>(m: map<string, T>, id: string): Option<T> {
    if id in m then Some(m[id]) else None
  }

  function SlotOf(d: Disk, id: string): Slot {
    Slot(Lookup(d.journals, id), Lookup(d.stages, id), Lookup(d.targets, id))
  }

  /** The slot after an uninterrupted recovery. */
  function Settle(r: Reader, d: Disk, id: string, at: string): Slot {
    var s := SlotOf(d, id);
    match Decide(r, d, id)
    case None => s
    case Some(CompletePublished) => s.(journal := Some(s.journal.value.(phase := Complete, outcome := Success, updatedAt := at)))
    case Some(DiscardStage) =>
      s.(stage := None, journal := Some(s.journal.value.(phase := Complete, outcome := Failure, updatedAt := at)))
    case Some(FailPrepare) => s.(journal := Some(s.journal.value.(phase := Complete, outcome := Failure, updatedAt := at)))
    case Some(Manual) =>
      s.(journal := Some(s.journal.value.(phase := NeedsResolution, outcome := Unresolved, updatedAt := at)))
  }

  lemma DecideIsLocal(r: Reader, d: Disk, e: Disk, id: string)
    requires SlotOf(d, id) == SlotOf(e, id)
    ensures Decide(r, d, id) == Decide(r, e, id)
  {
  }

  /** Settling one journal touches that journal's slot only, at every intermediate disk. */
  lemma SlotTraceIsLocal(r: Reader, d: Disk, id: string, x: RecoverInput, k: nat, other: string)
    requires k < |SlotTrace(r, d, id, x)|
    ensures other != id ==> SlotOf(SlotTrace(r, d, id, x)[k], other) == SlotOf(d, other)
    ensures SlotTrace(r, d, id, x)[k].journals.Keys == d.journals.Keys
    ensures SlotTrace(r, d, id, x)[k].targets == d.targets
  {
  }

  lemma SlotTraceSettles(r: Reader, d: Disk, id: string, x: RecoverInput)
    ensures SlotOf(Last(SlotTrace(r, d, id, x)), id) == Settle(r, d, id, x.clock(id))
  {
  }

  lemma RecoveryEndsWithItsRest(r: Reader, d: Disk, ids: seq<string>, x: RecoverInput)
    requires ids != []
    ensures Last(RecoverTrace(r, d, ids, x)) ==
      Last(RecoverTrace(r, Last(SlotTrace(r, d, ids[0], x)), ids[1..], x))
  {
    var here := SlotTrace(r, d, ids[0], x);
    var rest := RecoverTrace(r, Last(here), ids[1..], x);
    assert RecoverTrace(r, d, ids, x) == here + rest[1..];
    if |rest| == 1 {
      assert rest[1..] == [];
    }
  }

  /** An uninterrupted pass over distinct journals settles exactly those, each as if it were alone. */
  lemma {:induction false} RecoverySettlesEachSlot(r: Reader, d: Disk, ids: seq<string>, x: RecoverInput, id: string)
    requires forall i, j :: 0 <= i < j < |ids| ==> ids[i] != ids[j]
    ensures SlotOf(Last(RecoverTrace(r, d, ids, x)), id) ==
      if id in ids then Settle(r, d, id, x.clock(id)) else SlotOf(d, id)
    ensures Last(RecoverTrace(r, d, ids, x)).journals.Keys == d.journals.Keys
    ensures Last(RecoverTrace(r, d, ids, x)).targets == d.targets
    decreases |ids|
  {
    if ids != [] {
      var here := SlotTrace(r, d, ids[0], x);
      SlotTraceIsLocal(r, d, ids[0], x, |here| - 1, id);
      SlotTraceSettles(r, d, ids[0], x);
      RecoverySettlesEachSlot(r, Last(here), ids[1..], x, id);
      RecoveryEndsWithItsRest(r, d, ids, x);
      assert id in ids <==> id == ids[0] || id in ids[1..] by {
        assert ids == [ids[0]] + ids[1..];
      }
      if id != ids[0] {
        DecideIsLocal(r, d, Last(here), id);
      } else {
        assert id !in ids[1..];
      }
    }
  }

  lemma VisitsAll(d: Disk)
    ensures forall id :: id in Visits(d) <==> id in d.journals
    ensures forall i, j :: 0 <= i < j < |Visits(d)| ==> Visits(d)[i] != Visits(d)[j]
  {
    Listing.SortedListsSet(d.journals.Keys);
  }

  lemma RecoveredSlot(r: Reader, d: Disk, x: RecoverInput, id: string)
    ensures SlotOf(Recovered(r, d, x), id) == Settle(r, d, id, x.clock(id))
    ensures Recovered(r, d, x).journals.Keys == d.journals.Keys
    ensures Recovered(r, d, x).targets == d.targets
  {
    VisitsAll(d);
    RecoverySettlesEachSlot(r, d, Visits(d), x, id);
  }

  // ----- What every run keeps -----

  /** The target carries the receipt of its own import; whether the package passes its checks is another matter. */
  ghost predicate Carries(r: Reader, s: Slot, id: string) {
    && s.journal.Some? && s.target.Some? && s.target.value.Directory?
    && var receipt := ReceiptIn(r, s.target.value.tree);
       receipt.Some? && receipt.value.importId == id && receipt.value.archiveSha == s.journal.value.archiveSha
  }

  /** A published package that its own checks refuse. */
  predicate Refused(r: Reader, s: Slot) {
    s.target.Some? && s.target.value.Directory? && Inspect(r, s.target.value.tree).None?
  }

  ghost predicate StageIsDirectory(s: Slot) {
    s.stage.Some? ==> s.stage.value.Directory?
  }

  /** The slots an uncorrupted run can produce. */
  ghost predicate SlotSound(r: Reader, s: Slot, id: string) {
    match s.journal
    case None => s.stage.None? && s.target.None?
    case Some(j) =>
      match j.phase
      case Prepared => j.outcome.Pending? && s.target.None? && StageIsDirectory(s)
      case Staged =>
        && j.outcome.Pending?
        && ((s.target.None? && StageIsDirectory(s)) || (s.stage.None? && Carries(r, s, id)))
      case Published => j.outcome.Pending? && s.stage.None? && Carries(r, s, id)
      case Complete =>
        && s.stage.None?
        && ((j.outcome.Success? && Carries(r, s, id) && !Refused(r, s)) || (j.outcome.Failure? && s.target.None?))
      case NeedsResolution =>
        && j.outcome.Unresolved? && s.stage.None?
        && (s.target.None? || (Carries(r, s, id) && Refused(r, s)))
  }

  /** No two published packages came from one archive. */
  ghost predicate DistinctArchives(d: Disk) {
    forall a, b :: a in d.targets && b in d.targets && a != b && a in d.journals && b in d.journals ==>
      d.journals[a].archiveSha != d.journals[b].archiveSha
  }

  ghost predicate Sound(r: Reader, d: Disk) {
    && (forall id {:trigger SlotOf(d, id)} :: SlotSound(r, SlotOf(d, id), id))
    && DistinctArchives(d)
  }

  datatype Event =
    | ApplyRun(apply: ApplyInput, cut: nat)
    | RecoverRun(recover: RecoverInput, cut: nat)
    | DryRun

  function At(t: seq<Disk>, cut: nat): Disk
    requires t != []
  {
    t[if cut < |t| then cut else |t| - 1]
  }

  /** The disk after one operation that died after `cut` writes, or finished if it made fewer. */
  ghost function After(r: Reader, d: Disk, e: Event): Disk {
    match e
    case ApplyRun(x, cut) => At(ApplyTrace(r, d, x).states, cut)
    case RecoverRun(x, cut) => At(RecoverTrace(r, d, Visits(d), x), cut)
    case DryRun => d
  }

  ghost function Run(r: Reader, events: seq<Event>): Disk {
    if events == [] then EMPTY
    else After(r, Run(r, events[..|events| - 1]), events[|events| - 1])
  }

  /** Apply changes its own slot only, and only when that slot was empty. */
  lemma ApplyIsLocal(r: Reader, d: Disk, x: ApplyInput, k: nat, other: string)
    requires k < |ApplyTrace(r, d, x).states|
    ensures other != x.importId ==> SlotOf(ApplyTrace(r, d, x).states[k], other) == SlotOf(d, other)
    ensures ApplyTrace(r, d, x).states[k] != d ==> !IdTaken(d, x.importId)
  {
    if |ApplyTrace(r, d, x).states| > 1 && other != x.importId {
      PublishIsLocal(r, d, x, k, other);
    }
  }

  lemma PublishIsLocal(r: Reader, d: Disk, x: ApplyInput, k: nat, other: string)
    requires !IdTaken(d, x.importId) && k < |PublishTrace(r, d, x).states| && other != x.importId
    ensures SlotOf(PublishTrace(r, d, x).states[k], other) == SlotOf(d, other)
  {
    var id := x.importId;
    var d1 := Prepare(r, d, x);
    assert SlotOf(d1, other) == SlotOf(d, other);
    assert SlotOf(StageAs(d1, id, x.torn), other) == SlotOf(d, other);
    if r.extract(x.reread).Some? {
      assert SlotOf(StageAs(d1, id, r.extract(x.reread).value), other) == SlotOf(d, other);
      if StagingFault(r, x).None? {
        var d4 := StageAs(d1, id, Package(r, x));
        assert SlotOf(d4, other) == SlotOf(d, other);
        var d5 := SetPhase(d4, id, Staged, Pending, x.clock(Staged));
        assert SlotOf(d5, other) == SlotOf(d4, other);
        var d6 := Rename(d5, id);
        assert SlotOf(d6, other) == SlotOf(d5, other);
        var d7 := SetPhase(d6, id, Published, Pending, x.clock(Published));
        assert SlotOf(d7, other) == SlotOf(d6, other);
      }
    }
  }

  /** The states of an import's own slot, write by write, when its extraction yields `extracted`. */
  function PublishSlots(r: Reader, x: ApplyInput, extracted: Tree): seq<Slot> {
    var j := Journal(r.digest(x.archive), x.expectedBasis, Prepared, Pending, x.createdAt, x.createdAt);
    var package := Some(Directory(Seal(r, extracted, ReceiptOf(r, x))));
    var staged := j.(phase := Staged, updatedAt := x.clock(Staged));
    var published := j.(phase := Published, updatedAt := x.clock(Published));
    [ Slot(None, None, None),
      Slot(Some(j), None, None),
      Slot(Some(j), Some(Directory(x.torn)), None),
      Slot(Some(j), Some(Directory(extracted)), None),
      Slot(Some(j), package, None),
      Slot(Some(staged), package, None),
      Slot(Some(staged), None, package),
      Slot(Some(published), None, package),
      Slot(Some(j.(phase := Complete, outcome := Success, updatedAt := x.clock(Complete))), None, package) ]
  }

  /** What the extraction yields; when it fails no state shows it. */
  function Extraction(r: Reader, x: ApplyInput): Tree {
    if r.extract(x.reread).Some? then r.extract(x.reread).value else x.torn
  }

  lemma EarlySlots(r: Reader, d: Disk, x: ApplyInput, k: nat)
    requires !IdTaken(d, x.importId) && k < |PublishTrace(r, d, x).states| && k < 4
    ensures SlotOf(PublishTrace(r, d, x).states[k], x.importId) == PublishSlots(r, x, Extraction(r, x))[k]
  {
    var id, slots := x.importId, PublishSlots(r, x, Extraction(r, x));
    var d1 := Prepare(r, d, x);
    assert SlotOf(d, id) == slots[0] && SlotOf(d1, id) == slots[1];
    assert SlotOf(StageAs(d1, id, x.torn), id) == slots[2];
    if r.extract(x.reread).Some? {
      assert SlotOf(StageAs(d1, id, r.extract(x.reread).value), id) == slots[3];
    }
  }

  lemma LateSlots(r: Reader, d: Disk, x: ApplyInput, k: nat)
    requires !IdTaken(d, x.importId) && StagingFault(r, x).None? && 4 <= k < |PublishTrace(r, d, x).states|
    ensures SlotOf(PublishTrace(r, d, x).states[k], x.importId) == PublishSlots(r, x, Extraction(r, x))[k]
  {
    var id, slots := x.importId, PublishSlots(r, x, Extraction(r, x));
    var d4 := StageAs(Prepare(r, d, x), id, Package(r, x));
    assert SlotOf(d4, id) == slots[4];
    var d5 := SetPhase(d4, id, Staged, Pending, x.clock(Staged));
    assert SlotOf(d5, id) == slots[5];
    var d6 := Rename(d5, id);
    assert SlotOf(d6, id) == slots[6];
    var d7 := SetPhase(d6, id, Published, Pending, x.clock(Published));
    assert SlotOf(d7, id) == slots[7];
    assert SlotOf(SetPhase(d7, id, Complete, Success, x.clock(Complete)), id) == slots[8];
  }

  lemma PublishSlotsAreStates(r: Reader, d: Disk, x: ApplyInput, k: nat)
    requires !IdTaken(d, x.importId) && k < |PublishTrace(r, d, x).states|
    ensures SlotOf(PublishTrace(r, d, x).states[k], x.importId) == PublishSlots(r, x, Extraction(r, x))[k]
  {
    PublishLength(r, d, x);
    if k < 4 {
      EarlySlots(r, d, x, k);
    } else {
      LateSlots(r, d, x, k);
    }
  }

  lemma PublishLength(r: Reader, d: Disk, x: ApplyInput)
    requires !IdTaken(d, x.importId)
    ensures |PublishTrace(r, d, x).states| <= 9
    ensures |PublishTrace(r, d, x).states| > 4 ==> StagingFault(r, x).None? && Package(r, x) == Seal(r, Extraction(r, x), ReceiptOf(r, x))
    ensures |PublishTrace(r, d, x).states| == 9 ==> r.sound(Package(r, x))
    ensures StagingFault(r, x).None? ==> |PublishTrace(r, d, x).states| >= 8
  {
  }

  /** A sealed package carries its own receipt. */
  lemma SealedReceipt(r: Reader, tree: Tree, receipt: Receipt)
    requires ReceiptsRead(r) && r.receiptOk(receipt)
    ensures ReceiptIn(r, Seal(r, tree, receipt)) == Some(receipt)
    ensures Inspect(r, Seal(r, tree, receipt)) == if r.sound(Seal(r, tree, receipt)) then Some(receipt) else None
  {
  }

  /** What a half-done import looks like at each of its crash points. */
  ghost predicate ImportUnderway(r: Reader, s: Slot, x: ApplyInput) {
    && SlotSound(r, s, x.importId)
    && s.journal.Some? && s.journal.value.archiveSha == r.digest(x.archive)
    && !s.journal.value.phase.NeedsResolution?
    && (s.journal.value.phase.Staged? ==> s.stage.Some? || s.target.Some?)
  }

  lemma PublishSlotsUnderway(r: Reader, x: ApplyInput, extracted: Tree, k: nat)
    requires ReceiptsRead(r) && 1 <= k < 9
    requires k >= 4 ==> r.receiptOk(ReceiptOf(r, x))
    requires k == 8 ==> r.sound(Seal(r, extracted, ReceiptOf(r, x)))
    ensures ImportUnderway(r, PublishSlots(r, x, extracted)[k], x)
    ensures PublishSlots(r, x, extracted)[k].target.Some? <==> k >= RENAME
    ensures k >= RENAME ==>
      (Refused(r, PublishSlots(r, x, extracted)[k]) <==> !r.sound(Seal(r, extracted, ReceiptOf(r, x))))
  {
    if k >= 4 {
      SealedReceipt(r, extracted, ReceiptOf(r, x));
    }
  }

  /**
   The slot of an import at each of its crash points: it has a target from the rename on, and that
   target is refused exactly when the package it publishes does not pass its own checks.
   */
  lemma ApplySlot(r: Reader, d: Disk, x: ApplyInput, k: nat)
    requires ReceiptsRead(r)
    requires 1 <= k < |ApplyTrace(r, d, x).states|
    ensures Begins(r, d, x)
    ensures var s := SlotOf(ApplyTrace(r, d, x).states[k], x.importId);
      && ImportUnderway(r, s, x)
      && (s.target.Some? <==> k >= RENAME)
      && (k >= RENAME ==> StagingFault(r, x).None? && (Refused(r, s) <==> !r.sound(Package(r, x))))
  {
    BeginsMeans(r, d, x);
    PublishLength(r, d, x);
    PublishSlotsAreStates(r, d, x, k);
    PublishSlotsUnderway(r, x, Extraction(r, x), k);
  }

  lemma {:induction false} ImportsReadable(r: Reader, targets: map<string, Node>, listing: seq<string>, id: string)
    requires Imports(r, targets, listing).Some?
    requires id in listing && id in targets && targets[id].Directory?
    ensures Inspect(r, targets[id].tree).Some?
    ensures Inspect(r, targets[id].tree).value in Imports(r, targets, listing).value
  {
    var init, last := listing[..|listing| - 1], listing[|listing| - 1];
    assert listing == init + [last];
    if id != last {
      ImportsReadable(r, targets, init, id);
    }
  }

  lemma {:induction false} NoneWithSha(receipts: seq<Receipt>, sha: string)
    requires FirstWithSha(receipts, sha).None?
    ensures forall x :: x in receipts ==> x.archiveSha != sha
  {
    if receipts != [] {
      NoneWithSha(receipts[1..], sha);
      assert receipts == [receipts[0]] + receipts[1..];
    }
  }

  /** An import that starts writing finds every published package readable, and none made from its archive. */
  lemma StartedImportIsNew(r: Reader, d: Disk, x: ApplyInput, id: string)
    requires |ApplyTrace(r, d, x).states| > 1
    requires id in d.targets && d.targets[id].Directory?
    ensures Inspect(r, d.targets[id].tree).Some?
    ensures Inspect(r, d.targets[id].tree).value.archiveSha != r.digest(x.archive)
  {
    var listing := Listing.Sorted(d.targets.Keys);
    Listing.SortedListsSet(d.targets.Keys);
    ImportsReadable(r, d.targets, listing, id);
    NoneWithSha(Imports(r, d.targets, listing).value, r.digest(x.archive));
  }

  lemma ApplyKeepsSlots(r: Reader, d: Disk, x: ApplyInput, k: nat, id: string)
    requires ReceiptsRead(r) && Sound(r, d)
    requires k < |ApplyTrace(r, d, x).states|
    ensures SlotSound(r, SlotOf(ApplyTrace(r, d, x).states[k], id), id)
  {
    ApplyIsLocal(r, d, x, k, id);
    assert SlotSound(r, SlotOf(d, id), id);
    if id == x.importId && k > 0 {
      ApplySlot(r, d, x, k);
    }
  }

  /** A new import's archive differs from that of every other published package. */
  lemma ApplyKeepsArchives(r: Reader, d: Disk, x: ApplyInput, k: nat, other: string)
    requires ReceiptsRead(r) && Sound(r, d)
    requires 1 <= k < |ApplyTrace(r, d, x).states|
    requires other != x.importId && other in ApplyTrace(r, d, x).states[k].targets
    ensures var s, t := SlotOf(ApplyTrace(r, d, x).states[k], x.importId), SlotOf(ApplyTrace(r, d, x).states[k], other);
      s.journal.Some? && t.journal.Some? && s.journal.value.archiveSha != t.journal.value.archiveSha
  {
    ApplyIsLocal(r, d, x, k, other);
    ApplySlot(r, d, x, k);
    assert SlotOf(d, other).target.Some?;
    assert SlotSound(r, SlotOf(d, other), other);
    StartedImportIsNew(r, d, x, other);
  }

  lemma ApplyKeepsSound(r: Reader, d: Disk, x: ApplyInput, k: nat)
    requires ReceiptsRead(r) && Sound(r, d)
    requires k < |ApplyTrace(r, d, x).states|
    ensures Sound(r, ApplyTrace(r, d, x).states[k])
  {
    var e := ApplyTrace(r, d, x).states[k];
    forall id {:trigger SlotOf(e, id)} ensures SlotSound(r, SlotOf(e, id), id) {
      ApplyKeepsSlots(r, d, x, k, id);
    }
    if k > 0 {
      forall a, b | a in e.targets && b in e.targets && a != b && a in e.journals && b in e.journals
        ensures e.journals[a].archiveSha != e.journals[b].archiveSha
      {
        if a == x.importId || b == x.importId {
          ApplyKeepsArchives(r, d, x, k, if a == x.importId then b else a);
        } else {
          ApplyIsLocal(r, d, x, k, a);
          ApplyIsLocal(r, d, x, k, b);
          assert SlotOf(e, a) == SlotOf(d, a) && SlotOf(e, b) == SlotOf(d, b);
        }
      }
    }
  }

  lemma SlotTraceKeepsSound(r: Reader, d: Disk, id: string, x: RecoverInput, k: nat)
    requires Sound(r, d) && k < |SlotTrace(r, d, id, x)|
    ensures Sound(r, SlotTrace(r, d, id, x)[k])
  {
    var e := SlotTrace(r, d, id, x)[k];
    assert SlotSound(r, SlotOf(d, id), id);
    forall other {:trigger SlotOf(e, other)} ensures SlotSound(r, SlotOf(e, other), other) {
      SlotTraceIsLocal(r, d, id, x, k, other);
      assert SlotSound(r, SlotOf(d, other), other);
    }
    forall a, b | a in e.targets && b in e.targets && a != b && a in e.journals && b in e.journals
      ensures e.journals[a].archiveSha != e.journals[b].archiveSha
    {
      SlotTraceIsLocal(r, d, id, x, k, a);
      assert e.journals[a].archiveSha == d.journals[a].archiveSha;
      assert e.journals[b].archiveSha == d.journals[b].archiveSha;
    }
  }

  lemma {:induction false} RecoverKeepsSound(r: Reader, d: Disk, ids: seq<string>, x: RecoverInput, k: nat)
    requires Sound(r, d) && k < |RecoverTrace(r, d, ids, x)|
    ensures Sound(r, RecoverTrace(r, d, ids, x)[k])
    decreases |ids|
  {
    if ids != [] {
      var here := SlotTrace(r, d, ids[0], x);
      if k < |here| {
        SlotTraceKeepsSound(r, d, ids[0], x, k);
      } else {
        SlotTraceKeepsSound(r, d, ids[0], x, |here| - 1);
        RecoverKeepsSound(r, Last(here), ids[1..], x, k - |here| + 1);
      }
    }
  }

  /** Over every interleaving of imports, crashes and recoveries, crashes inside recovery included. */
  lemma {:induction false} EveryRunIsSound(r: Reader, events: seq<Event>)
    requires ReceiptsRead(r)
    ensures Sound(r, Run(r, events))
  {
    if events == [] {
      forall id {:trigger SlotOf(EMPTY, id)} ensures SlotSound(r, SlotOf(EMPTY, id), id) {
      }
    } else {
      var before := Run(r, events[..|events| - 1]);
      EveryRunIsSound(r, events[..|events| - 1]);
      match events[|events| - 1]
      case ApplyRun(x, cut) =>
        var t := ApplyTrace(r, before, x).states;
        ApplyKeepsSound(r, before, x, if cut < |t| then cut else |t| - 1);
      case RecoverRun(x, cut) =>
        var t := RecoverTrace(r, before, Visits(before), x);
        RecoverKeepsSound(r, before, Visits(before), x, if cut < |t| then cut else |t| - 1);
      case DryRun =>
    }
  }
}
