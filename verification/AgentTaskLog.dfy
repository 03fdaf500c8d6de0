/** The log of all Agent Task states: its validator, its lineage, and the current state of every task. */
module AgentTaskLog {
  import opened Wrappers
  import opened AgentTasks
  import opened LineageGraph
  import opened Concatenation
  import Listing
  import Sorting
  import StringOrder

  // ----- States of one task -----

  function StatesOf(log: seq<State>, task: string): seq<State> {
    if log == [] then []
    else
      var init, last := log[..|log| - 1], log[|log| - 1];
      StatesOf(init, task) + if last.frozen.taskId == task then [last] else []
  }

  function Tasks(log: seq<State>): set<string> {
    set s | s in log :: s.frozen.taskId
  }

  /** Tasks in the order their first states appear. */
  function TaskOrder(log: seq<State>): seq<string> {
    if log == [] then []
    else
      var init, t := log[..|log| - 1], log[|log| - 1].frozen.taskId;
      TaskOrder(init) + if t in Tasks(init) then [] else [t]
  }

  predicate RevisionLeq(a: State, b: State) {
    a.revision < b.revision || (a.revision == b.revision && StringOrder.Leq(a.stateId, b.stateId))
  }

  function Ordered(log: seq<State>, task: string): seq<State> {
    Sorting.Sorted(StatesOf(log, task), RevisionLeq)
  }

  lemma {:induction false} StatesOfContents(log: seq<State>, task: string)
    ensures forall s :: s in StatesOf(log, task) <==> s in log && s.frozen.taskId == task
  {
    if log != [] {
      StatesOfContents(log[..|log| - 1], task);
      assert log == log[..|log| - 1] + [log[|log| - 1]];
    }
  }

  lemma {:induction false} StatesOfAbsent(log: seq<State>, task: string)
    requires task !in Tasks(log)
    ensures StatesOf(log, task) == []
  {
    if log != [] {
      assert log[|log| - 1] in log && forall s :: s in log[..|log| - 1] ==> s in log;
      StatesOfAbsent(log[..|log| - 1], task);
    }
  }

  lemma OrderedContents(log: seq<State>, task: string)
    ensures forall s :: s in Ordered(log, task) <==> s in log && s.frozen.taskId == task
    ensures task in Tasks(log) <==> Ordered(log, task) != []
  {
    StatesOfContents(log, task);
    Sorting.SortedContents(StatesOf(log, task), RevisionLeq);
    if Ordered(log, task) != [] {
      assert Ordered(log, task)[0] in Ordered(log, task);
    }
  }

  lemma RevisionOrder()
    ensures Sorting.TotalPreorder(RevisionLeq)
  {
    forall x, y ensures RevisionLeq(x, y) || RevisionLeq(y, x) {
      StringOrder.LeqTotal(x.stateId, y.stateId);
    }
    forall x, y, z | RevisionLeq(x, y) && RevisionLeq(y, z) ensures RevisionLeq(x, z) {
      if x.revision == y.revision == z.revision {
        StringOrder.LeqTransitive(x.stateId, y.stateId, z.stateId);
      }
    }
  }

  /** The newest state of a task. */
  function Head(log: seq<State>, task: string): Option<State> {
    var chain := Ordered(log, task);
    if chain == [] then None else Some(chain[|chain| - 1])
  }

  // ----- Lineage of one root -----

  function ExpectedStatus(l: Lineage): Status {
    if l.ResultLineage? then RevisionRequested else Superseded
  }

  /** The digest a refreshed successor must quote. */
  function HandoffOf(s: State): string {
    if s.lease.Some? then s.lease.value.handoffDigest else s.frozen.inputBasisDigest
  }

  /** Reading the predecessor's decision fails when it has the expected status but no decision. */
  predicate LineageBreaks(log: seq<State>, s: State) {
    && s.revision == 1 && s.frozen.lineage.Some?
    && var p := s.frozen.lineage.value.predecessor;
       && p != s.frozen.taskId && Head(log, p).Some?
       && Head(log, p).value.status == ExpectedStatus(s.frozen.lineage.value)
       && Head(log, p).value.decision.None?
  }

  function LineageFault(log: seq<State>, s: State, digests: Digests): Option<Fault> {
    if s.revision != 1 || s.frozen.lineage.None? then None
    else
      var l := s.frozen.lineage.value;
      var head := Head(log, l.predecessor);
      if head.None? then Some(LineageUnresolved)
      else if l.predecessor == s.frozen.taskId then Some(LineageSelf)
      else if head.value.status != ExpectedStatus(l)
        || head.value.decision.None?
        || head.value.decision.value.successorTaskId != Some(s.frozen.taskId)
      then Some(LineageNotReciprocated)
      else if l.ResultLineage? && digests.result(head.value.staged) != l.resultDigest then Some(LineageResult)
      else if l.ResultLineage? && head.value.decision.value.feedback != Some(l.feedback) then Some(LineageFeedback)
      else if l.RefreshLineage? && HandoffOf(head.value) != l.handoffDigest then Some(LineageHandoff)
      else None
  }

  /** The first state of least revision, as `min` picks it. */
  function RootOf(states: seq<State>): State
    requires states != []
  {
    if |states| == 1 then states[0]
    else
      var r := RootOf(states[..|states| - 1]);
      if states[|states| - 1].revision < r.revision then states[|states| - 1] else r
  }

  /** The predecessor the root of these states names, if any. */
  function NamedPredecessor(states: seq<State>): Option<string> {
    if states == [] || RootOf(states).frozen.lineage.None? then None
    else Some(RootOf(states).frozen.lineage.value.predecessor)
  }

  function PredecessorsOf(log: seq<State>): Predecessors {
    map t | t in Tasks(log) && NamedPredecessor(StatesOf(log, t)).Some? :: NamedPredecessor(StatesOf(log, t)).value
  }

  // ----- The whole log -----

  ghost predicate DistinctStateIds(log: seq<State>) {
    forall i, j :: 0 <= i < j < |log| ==> log[i].stateId != log[j].stateId
  }

  /** One idempotency key belongs to one task. */
  ghost predicate KeysBindOneTask(log: seq<State>) {
    forall a, b :: a in log && b in log && a.frozen.idempotencyKey == b.frozen.idempotencyKey != "" ==>
      a.frozen.taskId == b.frozen.taskId
  }

  ghost predicate Accepted(log: seq<State>, digests: Digests) {
    && DistinctStateIds(log)
    && KeysBindOneTask(log)
    && (forall t {:trigger Ordered(log, t)} :: t in Tasks(log) ==> ChainOk(Ordered(log, t), digests))
    && (forall s {:trigger LineageFault(log, s, digests)} :: s in log ==> LineageFault(log, s, digests).None?)
    && Acyclic(PredecessorsOf(log))
  }

  // ----- What acceptance means for lineage -----

  lemma {:induction false} RootOfIsMember(states: seq<State>)
    requires states != []
    ensures RootOf(states) in states
    ensures forall s :: s in states ==> RootOf(states).revision <= s.revision
  {
    if |states| > 1 {
      RootOfIsMember(states[..|states| - 1]);
      assert states == states[..|states| - 1] + [states[|states| - 1]];
    }
  }

  /** The root of a sound task is the first state of its chain. */
  lemma RootIsFirst(log: seq<State>, digests: Digests, t: string)
    requires t in Tasks(log) && ChainOk(Ordered(log, t), digests)
    ensures StatesOf(log, t) != []
    ensures RootOf(StatesOf(log, t)) == Ordered(log, t)[0]
    ensures RootOf(StatesOf(log, t)).revision == 1
    ensures RootOf(StatesOf(log, t)) in log && RootOf(StatesOf(log, t)).frozen.taskId == t
  {
    OrderedContents(log, t);
    StatesOfContents(log, t);
    Sorting.SortedContents(StatesOf(log, t), RevisionLeq);
    var chain := Ordered(log, t);
    RootOfIsMember(StatesOf(log, t));
    var r := RootOf(StatesOf(log, t));
    assert r in chain && chain[0] in StatesOf(log, t);
    var k :| 0 <= k < |chain| && chain[k] == r;
    assert chain[k].revision == k + 1 && chain[0].revision == 1;
  }

  lemma PredecessorReciprocates(log: seq<State>, digests: Digests, t: string)
    requires Accepted(log, digests) && t in PredecessorsOf(log)
    ensures var p := PredecessorsOf(log)[t];
      && p in Tasks(log) && p != t
      && Head(log, p).Some? && Terminal(Head(log, p).value.status)
      && Head(log, p).value.decision.Some?
      && Head(log, p).value.decision.value.successorTaskId == Some(t)
  {
    assert ChainOk(Ordered(log, t), digests);
    RootIsFirst(log, digests, t);
    var root := RootOf(StatesOf(log, t));
    assert LineageFault(log, root, digests).None?;
    OrderedContents(log, PredecessorsOf(log)[t]);
  }

  /** Lineage is injective: no task has two successors. */
  lemma LineageInjective(log: seq<State>, digests: Digests)
    requires Accepted(log, digests)
    ensures InjectiveMap(PredecessorsOf(log))
  {
    var m := PredecessorsOf(log);
    forall a, b | a in m && b in m && m[a] == m[b] ensures a == b {
      PredecessorReciprocates(log, digests, a);
      PredecessorReciprocates(log, digests, b);
    }
  }

  ghost predicate Live(log: seq<State>, t: string) {
    Head(log, t).Some? && !Terminal(Head(log, t).value.status)
  }

  /**
   Tasks form disjoint finite chains: following predecessors always ends, two tasks with a common
   ancestor lie on one line, every task that is someone's predecessor is terminal, and a chain has at
   most one live task.
   */
  lemma LineageChains(log: seq<State>, digests: Digests)
    requires Accepted(log, digests)
    ensures forall t :: t in Tasks(log) ==> Ends(PredecessorsOf(log), t)
    ensures forall a, b, i: nat, j: nat ::
      Walk(PredecessorsOf(log), a, i).Some? && Walk(PredecessorsOf(log), a, i) == Walk(PredecessorsOf(log), b, j) ==>
        (i >= j && Walk(PredecessorsOf(log), a, i - j) == Some(b)) || (j >= i && Walk(PredecessorsOf(log), b, j - i) == Some(a))
    ensures forall t :: t in PredecessorsOf(log) ==> !Live(log, PredecessorsOf(log)[t])
  {
    var m := PredecessorsOf(log);
    LineageInjective(log, digests);
    forall t | t in Tasks(log) ensures Ends(m, t) {
      if t !in m {
        assert Walk(m, t, 1).None?;
      }
    }
    forall a, b, i: nat, j: nat | Walk(m, a, i).Some? && Walk(m, a, i) == Walk(m, b, j)
      ensures (i >= j && Walk(m, a, i - j) == Some(b)) || (j >= i && Walk(m, b, j - i) == Some(a))
    {
      CommonAncestorComparable(m, a, b, i, j);
    }
    forall t | t in m ensures !Live(log, m[t]) {
      PredecessorReciprocates(log, digests, t);
    }
  }

  ghost function LiveTasks(log: seq<State>): set<string> {
    set t | t in Tasks(log) && Live(log, t)
  }

  /** Two live tasks never descend from a common ancestor. */
  lemma OneLiveTaskPerChain(log: seq<State>, digests: Digests, a: string, b: string, i: nat, j: nat)
    requires Accepted(log, digests) && a in LiveTasks(log) && b in LiveTasks(log)
    requires Walk(PredecessorsOf(log), a, i).Some?
    requires Walk(PredecessorsOf(log), a, i) == Walk(PredecessorsOf(log), b, j)
    ensures a == b
  {
    LineageInjective(log, digests);
    PredecessorsNotLive(log, digests);
    LiveTasksAreLast(PredecessorsOf(log), LiveTasks(log), a, b, i, j);
  }

  lemma PredecessorsNotLive(log: seq<State>, digests: Digests)
    requires Accepted(log, digests)
    ensures forall t :: t in PredecessorsOf(log) ==> PredecessorsOf(log)[t] !in LiveTasks(log)
  {
    forall t | t in PredecessorsOf(log) ensures PredecessorsOf(log)[t] !in LiveTasks(log) {
      PredecessorReciprocates(log, digests, t);
    }
  }

  // ----- The validator -----

  /** The first task among the first `n` states that used the key. */
  function KeyHolder(log: seq<State>, n: nat, key: string): Option<string>
    requires n <= |log|
  {
    if n == 0 then None
    else if KeyHolder(log, n - 1, key).Some? then KeyHolder(log, n - 1, key)
    else if log[n - 1].frozen.idempotencyKey == key then Some(log[n - 1].frozen.taskId)
    else None
  }

  function IdentityFaults(log: seq<State>, i: nat): seq<Diagnostic>
    requires i < |log|
  {
    var s := log[i];
    var key := s.frozen.idempotencyKey;
    When(exists j :: 0 <= j < i && log[j].stateId == s.stateId, s, DuplicateStateId) +
    When(key != "" && KeyHolder(log, i + 1, key) != Some(s.frozen.taskId), s, IdempotencyKey)
  }

  function IdentityPass(log: seq<State>, n: nat): seq<Diagnostic>
    requires n <= |log|
  {
    if n == 0 then [] else IdentityPass(log, n - 1) + IdentityFaults(log, n - 1)
  }

  predicate Contiguous(chain: seq<State>) {
    forall k :: 0 <= k < |chain| ==> chain[k].revision == k + 1
  }

  /** What each step of a chain reports. */
  function StepReports(chain: seq<State>, digests: Digests): (reports: seq<seq<Diagnostic>>)
    requires chain != []
    ensures |reports| == |chain| - 1
  {
    seq(|chain| - 1, k requires 0 <= k < |chain| - 1 => StepFaults(chain[0], chain[k], chain[k + 1], digests))
  }

  /** What the pass over one task reports. */
  function ChainFaults(chain: seq<State>, digests: Digests): seq<Diagnostic>
    requires chain != []
  {
    if !Contiguous(chain) then [Diagnostic(chain[0].stateId, RevisionsNotContiguous)]
    else
      Raised(chain[0], StateFault(chain[0], digests)) + Flatten(StepReports(chain, digests), |chain| - 1)
  }

  function TaskPass(log: seq<State>, tasks: seq<string>, digests: Digests): seq<Diagnostic> {
    if tasks == [] then []
    else
      var t := tasks[|tasks| - 1];
      TaskPass(log, tasks[..|tasks| - 1], digests) +
      if Ordered(log, t) == [] then [] else ChainFaults(Ordered(log, t), digests)
  }

  /** One verdict per state: what the lineage pass finds there. */
  function Verdicts(log: seq<State>, digests: Digests): (v: seq<Option<Fault>>)
    ensures |v| == |log|
  {
    seq(|log|, i requires 0 <= i < |log| => LineageFault(log, log[i], digests))
  }

  function ReportVerdicts(log: seq<State>, verdicts: seq<Option<Fault>>, n: nat): seq<Diagnostic>
    requires n <= |log| == |verdicts|
  {
    if n == 0 then [] else ReportVerdicts(log, verdicts, n - 1) + Raised(log[n - 1], verdicts[n - 1])
  }

  function LineagePass(log: seq<State>, digests: Digests): seq<Diagnostic> {
    ReportVerdicts(log, Verdicts(log, digests), |log|)
  }

  ghost function CyclePass(log: seq<State>, m: Predecessors, tasks: seq<string>): seq<Diagnostic> {
    if tasks == [] then []
    else
      var t := tasks[|tasks| - 1];
      CyclePass(log, m, tasks[..|tasks| - 1]) +
      if StatesOf(log, t) == [] || Ends(m, t) then [] else [Diagnostic(RootOf(StatesOf(log, t)).stateId, LineageCycle)]
  }

  /** Everything the four passes report, before repetitions are dropped. */
  ghost function LogFaults(log: seq<State>, digests: Digests): seq<Diagnostic> {
    var m := PredecessorsOf(log);
    IdentityPass(log, |log|) + TaskPass(log, TaskOrder(log), digests) +
    LineagePass(log, digests) + CyclePass(log, m, Listing.Sorted(m.Keys))
  }

  // ----- Silence of each pass -----

  lemma {:induction false} KeyHolderMeans(log: seq<State>, n: nat, key: string)
    requires n <= |log|
    ensures KeyHolder(log, n, key).Some? ==>
      exists j :: 0 <= j < n && log[j].frozen.idempotencyKey == key && KeyHolder(log, n, key) == Some(log[j].frozen.taskId)
    ensures KeyHolder(log, n, key).None? <==> forall j :: 0 <= j < n ==> log[j].frozen.idempotencyKey != key
  {
    if n > 0 {
      KeyHolderMeans(log, n - 1, key);
    }
  }

  lemma {:induction false} KeyHolderStays(log: seq<State>, m: nat, n: nat, key: string)
    requires m <= n <= |log| && KeyHolder(log, m, key).Some?
    ensures KeyHolder(log, n, key) == KeyHolder(log, m, key)
    decreases n
  {
    if m < n {
      KeyHolderStays(log, m, n - 1, key);
    }
  }

  lemma {:induction false} IdentityPassIsSum(log: seq<State>, n: nat)
    requires n <= |log|
    ensures IdentityPass(log, n) == [] <==> forall i: nat {:trigger IdentityFaults(log, i)} :: i < n ==> IdentityFaults(log, i) == []
  {
    if n > 0 {
      IdentityPassIsSum(log, n - 1);
    }
  }

  lemma KeysAgree(log: seq<State>, i: nat, j: nat)
    requires i < |log| && j < |log|
    requires IdentityFaults(log, i) == [] && IdentityFaults(log, j) == []
    requires log[i].frozen.idempotencyKey == log[j].frozen.idempotencyKey != ""
    ensures log[i].frozen.taskId == log[j].frozen.taskId
  {
    var key := log[i].frozen.idempotencyKey;
    KeyHolderStays(log, i + 1, |log|, key);
    KeyHolderStays(log, j + 1, |log|, key);
  }

  lemma SilentKeysBind(log: seq<State>)
    requires forall i: nat {:trigger IdentityFaults(log, i)} :: i < |log| ==> IdentityFaults(log, i) == []
    ensures KeysBindOneTask(log)
  {
    forall a, b | a in log && b in log && a.frozen.idempotencyKey == b.frozen.idempotencyKey != ""
      ensures a.frozen.taskId == b.frozen.taskId
    {
      var i :| 0 <= i < |log| && log[i] == a;
      var j :| 0 <= j < |log| && log[j] == b;
      KeysAgree(log, i, j);
    }
  }

  lemma DistinctAndBoundIsSilent(log: seq<State>, i: nat)
    requires DistinctStateIds(log) && KeysBindOneTask(log) && i < |log|
    ensures IdentityFaults(log, i) == []
  {
    var key := log[i].frozen.idempotencyKey;
    KeyHolderMeans(log, i + 1, key);
    if key != "" {
      var j :| 0 <= j < i + 1 && log[j].frozen.idempotencyKey == key
        && KeyHolder(log, i + 1, key) == Some(log[j].frozen.taskId);
      assert log[j] in log && log[i] in log;
    }
  }

  lemma IdentityPassEmpty(log: seq<State>)
    ensures IdentityPass(log, |log|) == [] <==> DistinctStateIds(log) && KeysBindOneTask(log)
  {
    IdentityPassIsSum(log, |log|);
    if IdentityPass(log, |log|) == [] {
      forall i, j | 0 <= i < j < |log| ensures log[i].stateId != log[j].stateId {
        assert IdentityFaults(log, j) == [];
      }
      SilentKeysBind(log);
    }
    if DistinctStateIds(log) && KeysBindOneTask(log) {
      forall i: nat {:trigger IdentityFaults(log, i)} | i < |log| ensures IdentityFaults(log, i) == [] {
        DistinctAndBoundIsSilent(log, i);
      }
    }
  }

  /** A chain's steps are silent exactly when every one of them is sound. */
  lemma {:induction false} SilentSteps(chain: seq<State>, n: nat, digests: Digests)
    requires n < |chain|
    ensures (forall k :: 0 <= k < n ==> StepReports(chain, digests)[k] == []) <==>
      forall k :: 1 <= k <= n ==> StepOk(chain[k - 1], chain[k], digests)
    ensures (forall k :: 0 <= k < n ==> StepReports(chain, digests)[k] == []) ==> chain[n].frozen == chain[0].frozen
  {
    if n > 0 {
      SilentSteps(chain, n - 1, digests);
      if chain[n - 1].frozen == chain[0].frozen {
        StepFaultsEmpty(chain[0], chain[n - 1], chain[n], digests);
        assert StepReports(chain, digests)[n - 1] == StepFaults(chain[0], chain[n - 1], chain[n], digests);
      }
    }
  }

  lemma ChainPassEmpty(chain: seq<State>, digests: Digests)
    requires chain != []
    ensures ChainFaults(chain, digests) == [] <==> ChainOk(chain, digests)
  {
    FlattenEmpty(StepReports(chain, digests), |chain| - 1);
    SilentSteps(chain, |chain| - 1, digests);
  }

  lemma {:induction false} TaskOrderContents(log: seq<State>)
    ensures forall t :: t in TaskOrder(log) <==> t in Tasks(log)
  {
    if log != [] {
      TaskOrderContents(log[..|log| - 1]);
      assert log == log[..|log| - 1] + [log[|log| - 1]];
    }
  }

  lemma {:induction false} TaskPassEmpty(log: seq<State>, tasks: seq<string>, digests: Digests)
    requires forall t :: t in tasks ==> Ordered(log, t) != []
    ensures TaskPass(log, tasks, digests) == [] <==> forall t :: t in tasks ==> ChainOk(Ordered(log, t), digests)
  {
    if tasks != [] {
      var init, t := tasks[..|tasks| - 1], tasks[|tasks| - 1];
      assert tasks == init + [t];
      TaskPassEmpty(log, init, digests);
      ChainPassEmpty(Ordered(log, t), digests);
    }
  }

  lemma {:induction false} VerdictsEmpty(log: seq<State>, verdicts: seq<Option<Fault>>, n: nat)
    requires n <= |log| == |verdicts|
    ensures ReportVerdicts(log, verdicts, n) == [] <==> forall i :: 0 <= i < n ==> verdicts[i].None?
  {
    if n > 0 {
      VerdictsEmpty(log, verdicts, n - 1);
    }
  }

  lemma {:induction false} CyclePassEmpty(log: seq<State>, m: Predecessors, tasks: seq<string>)
    requires forall t :: t in tasks ==> StatesOf(log, t) != []
    ensures CyclePass(log, m, tasks) == [] <==> forall t :: t in tasks ==> Ends(m, t)
  {
    if tasks != [] {
      var init, t := tasks[..|tasks| - 1], tasks[|tasks| - 1];
      assert tasks == init + [t];
      CyclePassEmpty(log, m, init);
    }
  }

  /** The four passes together are silent exactly on accepted logs. */
  lemma LogFaultsEmpty(log: seq<State>, digests: Digests)
    ensures LogFaults(log, digests) == [] <==> Accepted(log, digests)
  {
    var m := PredecessorsOf(log);
    var order := TaskOrder(log);
    var chained := Listing.Sorted(m.Keys);
    IdentityPassEmpty(log);
    TaskOrderContents(log);
    forall t | t in order ensures Ordered(log, t) != [] {
      OrderedContents(log, t);
    }
    TaskPassEmpty(log, order, digests);
    VerdictsEmpty(log, Verdicts(log, digests), |log|);
    Listing.SortedListsSet(m.Keys);
    CyclePassEmpty(log, m, chained);
    AcceptedUnfolds(log, digests, order, chained);
  }

  lemma AcceptedUnfolds(log: seq<State>, digests: Digests, order: seq<string>, chained: seq<string>)
    requires forall t :: t in order <==> t in Tasks(log)
    requires forall t :: t in chained <==> t in PredecessorsOf(log)
    ensures Accepted(log, digests) <==>
      && DistinctStateIds(log) && KeysBindOneTask(log)
      && (forall t :: t in order ==> ChainOk(Ordered(log, t), digests))
      && (forall i :: 0 <= i < |log| ==> Verdicts(log, digests)[i].None?)
      && (forall t :: t in chained ==> Ends(PredecessorsOf(log), t))
  {
    VerdictsMean(log, digests);
  }

  lemma VerdictsMean(log: seq<State>, digests: Digests)
    ensures (forall i :: 0 <= i < |log| ==> Verdicts(log, digests)[i].None?) <==>
      forall s {:trigger LineageFault(log, s, digests)} :: s in log ==> LineageFault(log, s, digests).None?
  {
    var v := Verdicts(log, digests);
    if forall i :: 0 <= i < |log| ==> v[i].None? {
      forall s {:trigger LineageFault(log, s, digests)} | s in log ensures LineageFault(log, s, digests).None? {
        var i :| 0 <= i < |log| && log[i] == s;
        assert v[i].None?;
      }
    }
  }
}
