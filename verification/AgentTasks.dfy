/**
 Agent Task states: an append-only log in which every task is a hash-linked chain of revisions and
 tasks continue one another through a reciprocated lineage.
 */
module AgentTasks {
  import opened Wrappers
  import opened AgentTaskRegistry
  import opened Concatenation
  import StringOrder
  import Sorting

  datatype Status =
    | Created | Leased | Submitted | RevisionRequested | Superseded | Rejected | Approved | Cancelled

  datatype Reason =
    | InputRefreshed | UserRejected | RouteConfirmed | PrimaryBundleCommitted | ReviewBundleCommitted
    | ReportAccepted | OrganizationRevisionCommitted | ScreeningRevisionCommitted | ResearchSynthesisCommitted

  datatype Decision = Decision(
    action: Status,
    reason: Option<Reason>,
    feedback: Option<string>,
    successorTaskId: Option<string>,
    appliedJobStateId: Option<string>,
    decidedAt: int)

  datatype Lease = Lease(leaseId: string, handoffDigest: string, issuedAt: int)

  datatype StagedResult = StagedResult(taskId: string, inputBasisDigest: string, body: string)

  datatype Lineage =
    | ResultLineage(predecessor: string, resultDigest: string, feedback: string)
    | RefreshLineage(predecessor: string, handoffDigest: string)

  datatype Link = Link(stateId: string, stateDigest: string)

  /** The fields that may never change after creation; `rest` gathers those no other rule reads. */
  datatype Frozen = Frozen(
    taskId: string,
    kind: TaskKind,
    resultContract: string,
    registryVersion: string,
    classes: seq<string>,
    inputBasis: string,
    inputBasisDigest: string,
    idempotencyKey: string,
    lineage: Option<Lineage>,
    createdAt: int,
    rest: string)

  datatype State = State(
    stateId: string,
    revision: int,
    predecessor: Option<Link>,
    frozen: Frozen,
    status: Status,
    lease: Option<Lease>,
    staged: Option<StagedResult>,
    decision: Option<Decision>,
    terminalReceipt: bool,
    updatedAt: int)

  datatype Digests = Digests(
    state: State -> string,
    basis: string -> string,
    result: Option<StagedResult> -> string)

  datatype Fault =
    // one state
    | BasisDigest | ClassesUnsorted | KindUnavailable | ResultContract | ContentClasses | TerminalReceipt
    | RootPredecessor | RootStatus | RootContents | LeasedContents | SubmittedContents | DecidedContents
    | DecisionAction | SuccessorMissing | SuccessorForbidden | JobStateMissing | JobStateForbidden
    | FeedbackMissing | FeedbackForbidden | ReasonForbidden | ReasonMismatch
    | SupersededDecision | ResultTask | ResultBasis
    // one step
    | TerminalSuccessor | Transition | PredecessorLink | FrozenField(field: nat) | LeaseChanged
    | ResultChanged | TimeBackwards
    // the whole log
    | DuplicateStateId | IdempotencyKey | RevisionsNotContiguous
    | LineageUnresolved | LineageSelf | LineageNotReciprocated | LineageResult | LineageFeedback
    | LineageHandoff | LineageCycle

  datatype Diagnostic = Diagnostic(stateId: string, fault: Fault)

  // ----- One state -----

  predicate Terminal(s: Status) {
    s.RevisionRequested? || s.Superseded? || s.Rejected? || s.Approved? || s.Cancelled?
  }

  predicate Allowed(previous: Status, next: Status) {
    match previous
    case Created => next.Leased? || next.Superseded? || next.Cancelled?
    case Leased => next.Submitted? || next.Superseded? || next.Cancelled?
    case Submitted => next.RevisionRequested? || next.Superseded? || next.Rejected? || next.Approved?
    case _ => false
  }

  predicate StringLeq(a: string, b: string) { StringOrder.Leq(a, b) }

  /** Kinds whose approval commits directly and so names no applied job. */
  predicate CommitsDirectly(k: TaskKind) {
    k.KnowledgeQueryReport? || k.OrganizationProposal? || k.ScreeningCriteriaProposal?
    || k.ScreeningDecisionProposal? || k.ResearchSynthesisDrafting?
  }

  function ApprovalReason(k: TaskKind): Reason {
    match k
    case PrimarySemanticProcessing => PrimaryBundleCommitted
    case ReviewSemanticProcessing => ReviewBundleCommitted
    case KnowledgeQueryReport => ReportAccepted
    case OrganizationProposal => OrganizationRevisionCommitted
    case ScreeningCriteriaProposal => ScreeningRevisionCommitted
    case ScreeningDecisionProposal => ScreeningRevisionCommitted
    case ResearchSynthesisDrafting => ResearchSynthesisCommitted
    case _ => RouteConfirmed
  }

  /** The characters Python's `str.strip` removes. */
  predicate IsSpace(c: char) {
    var n := c as int;
    || 9 <= n <= 13 || 28 <= n <= 32 || n == 133 || n == 160 || n == 5760 || 8192 <= n <= 8202
    || n == 8232 || n == 8233 || n == 8239 || n == 8287 || n == 12288
  }

  predicate IsBlank(s: string) {
    forall c :: c in s ==> IsSpace(c)
  }

  /** The rules for a decided state, in the order they are checked. */
  function DecidedFault(s: State): Option<Fault> {
    if s.lease.None? || s.staged.None? || s.decision.None? then Some(DecidedContents)
    else
      var d := s.decision.value;
      var direct := s.status.Approved? && CommitsDirectly(s.frozen.kind);
      if d.action != s.status then Some(DecisionAction)
      else if s.status.RevisionRequested? && d.successorTaskId.None? then Some(SuccessorMissing)
      else if !s.status.RevisionRequested? && d.successorTaskId.Some? then Some(SuccessorForbidden)
      else if s.status.Approved? && !direct && d.appliedJobStateId.None? then Some(JobStateMissing)
      else if direct && d.appliedJobStateId.Some? then Some(JobStateForbidden)
      else if !s.status.Approved? && d.appliedJobStateId.Some? then Some(JobStateForbidden)
      else if s.status.RevisionRequested? && (d.feedback.None? || IsBlank(d.feedback.value)) then Some(FeedbackMissing)
      else if s.status.RevisionRequested? && d.reason.Some? then Some(ReasonForbidden)
      else if !s.status.RevisionRequested? && d.feedback.Some? then Some(FeedbackForbidden)
      else if s.status.Rejected? && d.reason != Some(UserRejected) then Some(ReasonMismatch)
      else if s.status.Approved? && d.reason != Some(ApprovalReason(s.frozen.kind)) then Some(ReasonMismatch)
      else None
  }

  function SupersededFault(s: State): Option<Fault> {
    if s.decision.None? then Some(SupersededDecision)
    else
      var d := s.decision.value;
      if d.action != Superseded || d.reason != Some(InputRefreshed) then Some(SupersededDecision)
      else if d.successorTaskId.None? || d.appliedJobStateId.Some? then Some(SupersededDecision)
      else if d.feedback.Some? then Some(FeedbackForbidden)
      else None
  }

  function StatusFault(s: State): Option<Fault> {
    match s.status
    case Leased => if s.lease.None? || s.staged.Some? || s.decision.Some? then Some(LeasedContents) else None
    case Submitted => if s.lease.None? || s.staged.None? || s.decision.Some? then Some(SubmittedContents) else None
    case Superseded => SupersededFault(s)
    case Created => None
    case Cancelled => None
    case _ => DecidedFault(s)
  }

  function RootFault(s: State): Option<Fault> {
    if s.revision != 1 then None
    else if s.predecessor.Some? then Some(RootPredecessor)
    else if !s.status.Created? then Some(RootStatus)
    else if s.lease.Some? || s.staged.Some? || s.decision.Some? then Some(RootContents)
    else None
  }

  /** The first rule one state breaks. */
  function StateFault(s: State, digests: Digests): Option<Fault> {
    var f := s.frozen;
    var definition := DefinitionOf(f.registryVersion, f.kind);
    var classes := set c | c in f.classes;
    if f.inputBasisDigest != digests.basis(f.inputBasis) then Some(BasisDigest)
    else if !Sorting.IsSorted(f.classes, StringLeq) then Some(ClassesUnsorted)
    else if definition.None? then Some(KindUnavailable)
    else if f.resultContract != definition.value.contract then Some(ResultContract)
    else if !(definition.value.required <= classes) || !(classes <= definition.value.required + definition.value.optional)
      then Some(ContentClasses)
    else if s.terminalReceipt != Terminal(s.status) then Some(TerminalReceipt)
    else if RootFault(s).Some? then RootFault(s)
    else if StatusFault(s).Some? then StatusFault(s)
    else if s.staged.Some? && s.staged.value.taskId != f.taskId then Some(ResultTask)
    else if s.staged.Some? && s.staged.value.inputBasisDigest != f.inputBasisDigest then Some(ResultBasis)
    else None
  }

  function TransitionFault(previous: Status, next: Status): Option<Fault> {
    if Terminal(previous) then Some(TerminalSuccessor)
    else if !Allowed(previous, next) then Some(Transition)
    else None
  }

  // ----- One task's chain -----

  function When(faulty: bool, s: State, fault: Fault): seq<Diagnostic> {
    if faulty then [Diagnostic(s.stateId, fault)] else []
  }

  function Raised(s: State, fault: Option<Fault>): seq<Diagnostic> {
    if fault.Some? then [Diagnostic(s.stateId, fault.value)] else []
  }

  /** For each frozen field, whether it differs from the root's. */
  function Changes(a: Frozen, b: Frozen): seq<bool> {
    [ a.taskId != b.taskId, a.kind != b.kind, a.resultContract != b.resultContract,
      a.registryVersion != b.registryVersion, a.classes != b.classes, a.inputBasis != b.inputBasis,
      a.inputBasisDigest != b.inputBasisDigest, a.idempotencyKey != b.idempotencyKey,
      a.lineage != b.lineage, a.createdAt != b.createdAt, a.rest != b.rest ]
  }

  /** One report for each frozen field that changed. */
  function FrozenFaults(root: State, s: State): seq<Diagnostic> {
    var changes := Changes(root.frozen, s.frozen);
    Flatten(seq(|changes|, i requires 0 <= i < |changes| => When(changes[i], s, FrozenField(i))), |changes|)
  }

  lemma FrozenFaultsEmpty(root: State, s: State)
    ensures FrozenFaults(root, s) == [] <==> s.frozen == root.frozen
  {
    var changes := Changes(root.frozen, s.frozen);
    var reports := seq(|changes|, i requires 0 <= i < |changes| => When(changes[i], s, FrozenField(i)));
    FlattenEmpty(reports, |changes|);
    assert forall i :: 0 <= i < |changes| ==> (reports[i] == [] <==> !changes[i]);
    if forall i :: 0 <= i < |changes| ==> !changes[i] {
      assert !changes[0] && !changes[1] && !changes[2] && !changes[3] && !changes[4] && !changes[5];
      assert !changes[6] && !changes[7] && !changes[8] && !changes[9] && !changes[10];
    }
  }

  function StepFaults(root: State, previous: State, s: State, digests: Digests): seq<Diagnostic> {
    When(s.predecessor != Some(Link(previous.stateId, digests.state(previous))), s, PredecessorLink) +
    FrozenFaults(root, s) +
    When(previous.lease.Some? && s.lease != previous.lease, s, LeaseChanged) +
    When(previous.staged.Some? && s.staged != previous.staged, s, ResultChanged) +
    Raised(s, if TransitionFault(previous.status, s.status).Some? then TransitionFault(previous.status, s.status)
              else StateFault(s, digests)) +
    When(s.updatedAt < previous.updatedAt, s, TimeBackwards)
  }

  /** A sound step of a task: linked, frozen, allowed, well-formed and not back in time. */
  ghost predicate StepOk(previous: State, s: State, digests: Digests) {
    && s.predecessor == Some(Link(previous.stateId, digests.state(previous)))
    && s.frozen == previous.frozen
    && (previous.lease.Some? ==> s.lease == previous.lease)
    && (previous.staged.Some? ==> s.staged == previous.staged)
    && Allowed(previous.status, s.status)
    && StateFault(s, digests).None?
    && s.updatedAt >= previous.updatedAt
  }

  /** One task's states in revision order. */
  ghost predicate ChainOk(chain: seq<State>, digests: Digests) {
    && chain != []
    && (forall k :: 0 <= k < |chain| ==> chain[k].revision == k + 1)
    && StateFault(chain[0], digests).None?
    && forall k :: 1 <= k < |chain| ==> StepOk(chain[k - 1], chain[k], digests)
  }

  lemma StepFaultsEmpty(root: State, previous: State, s: State, digests: Digests)
    requires previous.frozen == root.frozen
    ensures StepFaults(root, previous, s, digests) == [] <==> StepOk(previous, s, digests)
  {
    FrozenFaultsEmpty(root, s);
  }

  /** The root of a chain has just been created: nothing leased, staged or decided. */
  lemma ChainRoot(chain: seq<State>, digests: Digests)
    requires ChainOk(chain, digests)
    ensures chain[0].status.Created? && chain[0].predecessor.None?
    ensures chain[0].lease.None? && chain[0].staged.None? && chain[0].decision.None?
  {
    assert RootFault(chain[0]).None?;
  }

  lemma ChainStep(chain: seq<State>, digests: Digests, k: nat)
    requires ChainOk(chain, digests) && 1 <= k < |chain|
    ensures StepOk(chain[k - 1], chain[k], digests)
  {
  }

  /** How far along the transition table a status is. */
  function Depth(s: Status): nat {
    match s
    case Created => 0
    case Leased => 1
    case Submitted => 2
    case _ => 3
  }

  lemma {:induction false} DepthGrows(chain: seq<State>, digests: Digests, k: nat)
    requires ChainOk(chain, digests) && k < |chain|
    ensures Depth(chain[k].status) >= k
  {
    if k > 0 {
      DepthGrows(chain, digests, k - 1);
      ChainStep(chain, digests, k);
    }
  }

  /**
   A sound chain is a path of the transition table from `created`: at most four revisions, only the
   last of which may be terminal.
   */
  lemma ChainIsTransitionPath(chain: seq<State>, digests: Digests)
    requires ChainOk(chain, digests)
    ensures 1 <= |chain| <= 4
    ensures chain[0].status.Created?
    ensures forall k :: 1 <= k < |chain| ==> Allowed(chain[k - 1].status, chain[k].status)
    ensures forall k :: 0 <= k < |chain| - 1 ==> !Terminal(chain[k].status)
  {
    ChainRoot(chain, digests);
    if |chain| > 4 {
      DepthGrows(chain, digests, 4);
    }
    forall k | 1 <= k < |chain| ensures Allowed(chain[k - 1].status, chain[k].status) {
      ChainStep(chain, digests, k);
    }
    forall k | 0 <= k < |chain| - 1 ensures !Terminal(chain[k].status) {
      ChainStep(chain, digests, k + 1);
    }
  }

  /** Creation data never changes; lease and staged result never change once set. */
  lemma {:induction false} ChainFreezes(chain: seq<State>, digests: Digests, i: nat, j: nat)
    requires ChainOk(chain, digests) && i <= j < |chain|
    ensures chain[j].frozen == chain[i].frozen
    ensures chain[i].lease.Some? ==> chain[j].lease == chain[i].lease
    ensures chain[i].staged.Some? ==> chain[j].staged == chain[i].staged
    ensures chain[i].updatedAt <= chain[j].updatedAt
    decreases j
  {
    if i < j {
      ChainFreezes(chain, digests, i, j - 1);
      ChainStep(chain, digests, j);
    }
  }

  lemma ChainPrefix(chain: seq<State>, digests: Digests, n: nat)
    requires ChainOk(chain, digests) && 1 <= n <= |chain|
    ensures ChainOk(chain[..n], digests)
  {
    forall k | 1 <= k < n ensures StepOk(chain[..n][k - 1], chain[..n][k], digests) {
      ChainStep(chain, digests, k);
    }
  }

  lemma PreviousIsFixed(a: seq<State>, b: seq<State>, digests: Digests)
    requires Injective(digests.state)
    requires ChainOk(a, digests) && ChainOk(b, digests) && a[|a| - 1] == b[|b| - 1]
    ensures |a| == |b|
    ensures |a| > 1 ==> a[|a| - 2] == b[|b| - 2]
  {
    assert a[|a| - 1].revision == b[|b| - 1].revision;
    if |a| > 1 {
      ChainStep(a, digests, |a| - 1);
      ChainStep(b, digests, |b| - 1);
      var p, q := a[|a| - 2], b[|b| - 2];
      assert digests.state(p) == digests.state(q);
    }
  }

  /** With a collision-free state digest, the head of a task fixes all its earlier revisions. */
  lemma {:induction false} HeadDeterminesChain(a: seq<State>, b: seq<State>, digests: Digests)
    requires Injective(digests.state)
    requires ChainOk(a, digests) && ChainOk(b, digests) && a[|a| - 1] == b[|b| - 1]
    ensures a == b
    decreases |a|
  {
    var m := |a| - 1;
    PreviousIsFixed(a, b, digests);
    if m > 0 {
      ChainPrefix(a, digests, m);
      ChainPrefix(b, digests, m);
      HeadDeterminesChain(a[..m], b[..m], digests);
    }
    assert a == a[..m] + [a[m]] && b == b[..m] + [b[m]];
  }
}
