/** What an Agent Task may go through and what each of its states holds, spelled out status by status. */
module AgentTaskRules {
  import opened Wrappers
  import opened AgentTaskRegistry
  import opened AgentTasks
  import opened AgentTaskLog
  import StringOrder
  import Sorting

  // ----- One state -----

  /** The five statuses a task can end in. */
  const Ended: set<Status> := {RevisionRequested, Superseded, Rejected, Approved, Cancelled}

  /** The kinds whose approval commits without a job. */
  const Direct: set<TaskKind> := {
    KnowledgeQueryReport, OrganizationProposal, ScreeningCriteriaProposal, ScreeningDecisionProposal, ResearchSynthesisDrafting }

  /** The reason an approval gives, kind by kind. */
  predicate ApprovedFor(kind: TaskKind, reason: Reason) {
    && (kind == PrimarySemanticProcessing ==> reason == PrimaryBundleCommitted)
    && (kind == ReviewSemanticProcessing ==> reason == ReviewBundleCommitted)
    && (kind == KnowledgeQueryReport ==> reason == ReportAccepted)
    && (kind == OrganizationProposal ==> reason == OrganizationRevisionCommitted)
    && (kind in {ScreeningCriteriaProposal, ScreeningDecisionProposal} ==> reason == ScreeningRevisionCommitted)
    && (kind == ResearchSynthesisDrafting ==> reason == ResearchSynthesisCommitted)
    && (kind in {DocumentRouteResolution, SourceAdequacyAssessment, QuestionDirectionMapping, SemanticReview} ==>
          reason == RouteConfirmed)
  }

  /** Feedback with something in it besides white space. */
  predicate HasText(s: string) { exists i :: 0 <= i < |s| && !IsSpace(s[i]) }

  predicate Revised(d: Decision) {
    && d.action == RevisionRequested && d.successorTaskId.Some? && d.appliedJobStateId.None?
    && d.feedback.Some? && HasText(d.feedback.value) && d.reason.None?
  }

  predicate Refused(d: Decision) {
    && d.action == Rejected && d.successorTaskId.None? && d.appliedJobStateId.None?
    && d.feedback.None? && d.reason == Some(UserRejected)
  }

  predicate Accepted(d: Decision, kind: TaskKind) {
    && d.action == Approved && d.successorTaskId.None? && (d.appliedJobStateId.None? <==> kind in Direct)
    && d.feedback.None? && d.reason.Some? && ApprovedFor(kind, d.reason.value)
  }

  predicate Replaced(d: Decision) {
    && d.action == Superseded && d.successorTaskId.Some? && d.appliedJobStateId.None?
    && d.feedback.None? && d.reason == Some(InputRefreshed)
  }

  /** Lease, staged result and decision of a state, by its status. */
  predicate HoldsRight(s: State) {
    && (s.status == Leased ==> s.lease.Some? && s.staged.None? && s.decision.None?)
    && (s.status == Submitted ==> s.lease.Some? && s.staged.Some? && s.decision.None?)
    && (s.status in {RevisionRequested, Rejected, Approved} ==> s.lease.Some? && s.staged.Some? && s.decision.Some?)
    && (s.status == Superseded ==> s.decision.Some?)
    && (s.status == RevisionRequested ==> Revised(s.decision.value))
    && (s.status == Rejected ==> Refused(s.decision.value))
    && (s.status == Approved ==> Accepted(s.decision.value, s.frozen.kind))
    && (s.status == Superseded ==> Replaced(s.decision.value))
  }

  /** The creation data fit the registry: sorted content classes, all the required ones and no others than allowed. */
  predicate CreatedRight(f: Frozen, digests: Digests) {
    var definition := DefinitionOf(f.registryVersion, f.kind);
    && f.inputBasisDigest == digests.basis(f.inputBasis)
    && (forall i, j :: 0 <= i < j < |f.classes| ==> StringOrder.Leq(f.classes[i], f.classes[j]))
    && definition.Some? && f.resultContract == definition.value.contract
    && (forall c :: c in definition.value.required ==> c in f.classes)
    && (forall c :: c in f.classes ==> c in definition.value.required || c in definition.value.optional)
  }

  /** A state that satisfies every rule about single states. */
  predicate InOrder(s: State, digests: Digests) {
    && CreatedRight(s.frozen, digests) && HoldsRight(s)
    && (s.terminalReceipt <==> s.status in Ended)
    && (s.revision == 1 ==>
          s.status == Created && s.predecessor.None? && s.lease.None? && s.staged.None? && s.decision.None?)
    && (s.staged.Some? ==>
          s.staged.value.taskId == s.frozen.taskId && s.staged.value.inputBasisDigest == s.frozen.inputBasisDigest)
  }

  lemma BlankHasNoText(s: string)
    ensures IsBlank(s) <==> !HasText(s)
  {
    if !HasText(s) {
      forall c | c in s ensures IsSpace(c) {
        var i :| 0 <= i < |s| && s[i] == c;
      }
    }
  }

  lemma DecidedRules(s: State)
    requires s.status in {RevisionRequested, Rejected, Approved}
    ensures DecidedFault(s).None? <==> HoldsRight(s)
  {
    if s.decision.Some? && s.decision.value.feedback.Some? {
      BlankHasNoText(s.decision.value.feedback.value);
    }
  }

  lemma StatusRules(s: State)
    ensures StatusFault(s).None? <==> HoldsRight(s)
  {
    if s.status in {RevisionRequested, Rejected, Approved} {
      DecidedRules(s);
    }
  }

  lemma CreationRules(f: Frozen, digests: Digests)
    ensures CreatedRight(f, digests) <==>
      var definition := DefinitionOf(f.registryVersion, f.kind);
      var classes := set c | c in f.classes;
      && f.inputBasisDigest == digests.basis(f.inputBasis) && Sorting.IsSorted(f.classes, StringLeq)
      && definition.Some? && f.resultContract == definition.value.contract
      && definition.value.required <= classes && classes <= definition.value.required + definition.value.optional
  {
  }

  /** The rules of single states let through exactly the states that are in order. */
  lemma StateRules(s: State, digests: Digests)
    ensures StateFault(s, digests).None? <==> InOrder(s, digests)
  {
    StatusRules(s);
    CreationRules(s.frozen, digests);
  }

  /** Every state of a sound chain is in order. */
  lemma ChainInOrder(chain: seq<State>, digests: Digests, k: nat)
    requires ChainOk(chain, digests) && k < |chain|
    ensures InOrder(chain[k], digests)
  {
    if k > 0 {
      ChainStep(chain, digests, k);
    }
    StateRules(chain[k], digests);
  }

  // ----- Lineage -----

  /** The newest state of the task a root says it continues: terminal, decided, and naming the root's task. */
  predicate Reciprocates(h: State, s: State, l: Lineage, digests: Digests) {
    && h.status == (if l.ResultLineage? then RevisionRequested else Superseded)
    && h.decision.Some? && h.decision.value.successorTaskId == Some(s.frozen.taskId)
    && (l.ResultLineage? ==>
          digests.result(h.staged) == l.resultDigest && h.decision.value.feedback == Some(l.feedback))
    && (l.RefreshLineage? ==>
          l.handoffDigest == (if h.lease.Some? then h.lease.value.handoffDigest else h.frozen.inputBasisDigest))
  }

  /** The lineage rules let through exactly the roots whose other task reciprocates, and all later states. */
  lemma LineageRules(log: seq<State>, s: State, digests: Digests)
    ensures LineageFault(log, s, digests).None? <==>
      (s.revision == 1 && s.frozen.lineage.Some? ==>
         var l := s.frozen.lineage.value;
         l.predecessor != s.frozen.taskId && Head(log, l.predecessor).Some?
         && Reciprocates(Head(log, l.predecessor).value, s, l, digests))
  {
  }
}
