/** The synthetic Agent Task states and process events, and why the independent checks accept them. */
module OperationalGenerator {
  import opened Wrappers
  import opened OperationalProfiles
  import opened AgentTaskRegistry
  import opened AgentTasks
  import opened AgentTaskLog
  import opened Concatenation
  import Sorting
  import StringOrder

  /**
   The identifier families, the fixed inputs of every task, the digests the chain quotes, and the
   moments its written timestamps are read as.
   */
  datatype Generator = Generator(
    taskId: nat -> string,
    stateId: nat -> string,
    leaseId: nat -> string,
    clock: nat -> int,
    basis: string,
    resultBody: string,
    rest: string,
    digests: Digests)

  ghost predicate InjectiveIds(g: Generator) { Injective(g.taskId) && Injective(g.stateId) }

  /** The clock is what reading the written timestamps yields. */
  ghost predicate ReadsTimestamps(g: Generator) {
    forall o: nat :: o < January ==> Parse(Format(o)) == Some(g.clock(o))
  }

  ghost predicate ClockRuns(g: Generator) {
    forall o: nat :: o < January ==> g.clock(o) == o
  }

  lemma TimestampsRun(g: Generator)
    requires ReadsTimestamps(g)
    ensures ClockRuns(g)
  {
    forall o: nat | o < January ensures g.clock(o) == o {
      TimestampsRoundTrip(o);
    }
  }

  // ----- One task -----

  function TaskKey(index: nat): string { "p11-task-" + Padded(index, 8) }

  const QueryClasses: seq<string> := ["canonical_evidence", "operational_context", "paper_card_content"]

  function Creation(g: Generator, index: nat): Frozen {
    Frozen(
      g.taskId(index + 1), KnowledgeQueryReport, "p5c-knowledge-query-report@1.0", "p8-v1", QueryClasses,
      g.basis, g.digests.basis(g.basis), TaskKey(index), None, g.clock(index), g.rest)
  }

  function LinkTo(s: State, g: Generator): Option<Link> { Some(Link(s.stateId, g.digests.state(s))) }

  function Root(g: Generator, f: Frozen, index: nat): State {
    State(g.stateId(index * 4 + 1), 1, None, f, Created, None, None, None, false, f.createdAt)
  }

  function CancelledState(g: Generator, root: State, index: nat): State {
    root.(stateId := g.stateId(index * 4 + 2), revision := 2, predecessor := LinkTo(root, g), status := Cancelled,
          terminalReceipt := true, updatedAt := g.clock(index + 1))
  }

  function LeasedState(g: Generator, root: State, index: nat): State {
    root.(stateId := g.stateId(index * 4 + 2), revision := 2, predecessor := LinkTo(root, g), status := Leased,
          lease := Some(Lease(g.leaseId(index), root.frozen.inputBasisDigest, root.frozen.createdAt)),
          updatedAt := g.clock(index + 1))
  }

  function SubmittedState(g: Generator, leased: State, index: nat): State {
    leased.(stateId := g.stateId(index * 4 + 3), revision := 3, predecessor := LinkTo(leased, g), status := Submitted,
            staged := Some(StagedResult(leased.frozen.taskId, leased.frozen.inputBasisDigest, g.resultBody)),
            updatedAt := g.clock(index + 2))
  }

  function ApprovedState(g: Generator, submitted: State, index: nat): State {
    submitted.(stateId := g.stateId(index * 4 + 4), revision := 4, predecessor := LinkTo(submitted, g), status := Approved,
               decision := Some(Decision(Approved, Some(ReportAccepted), None, None, None, g.clock(index + 3))),
               terminalReceipt := true, updatedAt := g.clock(index + 3))
  }

  /** Report-only tasks run through to approval in four states; the others are cancelled in two. */
  function TaskChain(g: Generator, f: Frozen, index: nat, reportOnly: int): seq<State> {
    var root := Root(g, f, index);
    if index < reportOnly then
      var leased := LeasedState(g, root, index);
      var submitted := SubmittedState(g, leased, index);
      [root, leased, submitted, ApprovedState(g, submitted, index)]
    else [root, CancelledState(g, root, index)]
  }

  function StateCount(index: nat, reportOnly: int): nat { if index < reportOnly then 4 else 2 }

  /** The ordinal of a task's last timestamp. */
  function LastOrdinal(index: nat, reportOnly: int): nat { index + StateCount(index, reportOnly) - 1 }

  /** Every timestamp of the generated log stays inside January. */
  predicate InJanuary(tasks: nat, reportOnly: int) {
    tasks < January && (if reportOnly < tasks then reportOnly else tasks) + 2 < January
  }

  /** The bound is exact: it holds if and only if every task's last timestamp is in range. */
  lemma InJanuaryMeans(tasks: nat, reportOnly: int)
    ensures InJanuary(tasks, reportOnly) <==>
      forall index: nat {:trigger LastOrdinal(index, reportOnly)} :: index < tasks ==> LastOrdinal(index, reportOnly) < January
  {
    if tasks > 0 && !InJanuary(tasks, reportOnly) {
      var last := LastOrdinal(tasks - 1, reportOnly);
      if 0 < reportOnly <= tasks {
        assert last >= January || LastOrdinal(reportOnly - 1, reportOnly) >= January;
      }
    }
  }

  function Chains(g: Generator, tasks: nat, reportOnly: int): seq<seq<State>> {
    seq(tasks, i requires 0 <= i < tasks => TaskChain(g, Creation(g, i), i, reportOnly))
  }

  /** All generated states, task by task. */
  function GeneratedLog(g: Generator, tasks: nat, reportOnly: int): seq<State> {
    Flatten(Chains(g, tasks, reportOnly), tasks)
  }

  // ----- One generated chain is sound -----

  lemma ClassesSorted()
    ensures Sorting.IsSorted(QueryClasses, StringLeq)
  {
    var a, b, c := "canonical_evidence", "operational_context", "paper_card_content";
    assert a[0] < b[0] < c[0];
    assert StringLeq(a, b) && StringLeq(b, c) && StringLeq(a, c);
  }

  lemma ClassesComplete()
    ensures (set c | c in QueryClasses) == {"paper_card_content", "canonical_evidence", "operational_context"}
    ensures DefinitionOf("p8-v1", KnowledgeQueryReport).Some?
    ensures var d := DefinitionOf("p8-v1", KnowledgeQueryReport).value;
      && d.required == (set c | c in QueryClasses) && d.contract == "p5c-knowledge-query-report@1.0"
  {
    assert QueryClasses[0] in QueryClasses && QueryClasses[1] in QueryClasses && QueryClasses[2] in QueryClasses;
    assert Generation("p8-v1") == 7;
  }

  /** The creation data of a query task that passes the field rules. */
  ghost predicate CreationSound(f: Frozen, digests: Digests) {
    && f.inputBasisDigest == digests.basis(f.inputBasis) && f.classes == QueryClasses
    && f.kind == KnowledgeQueryReport && f.registryVersion == "p8-v1" && f.resultContract == "p5c-knowledge-query-report@1.0"
  }

  lemma StateSoundWhen(s: State, digests: Digests)
    requires CreationSound(s.frozen, digests)
    requires s.terminalReceipt == Terminal(s.status) && RootFault(s).None? && StatusFault(s).None?
    requires s.staged.Some? ==>
      s.staged.value.taskId == s.frozen.taskId && s.staged.value.inputBasisDigest == s.frozen.inputBasisDigest
    ensures StateFault(s, digests).None?
  {
    ClassesSorted();
    ClassesComplete();
  }

  /** Creation data made at a moment of the clock. */
  ghost predicate CreatedAt(f: Frozen, g: Generator, index: nat, reportOnly: int) {
    && CreationSound(f, g.digests) && f.lineage.None? && f.createdAt == g.clock(index)
    && ClockRuns(g) && LastOrdinal(index, reportOnly) < January
  }

  lemma RootSound(g: Generator, f: Frozen, index: nat, reportOnly: int)
    requires CreatedAt(f, g, index, reportOnly)
    ensures StateFault(Root(g, f, index), g.digests).None?
  {
    StateSoundWhen(Root(g, f, index), g.digests);
  }

  lemma CancelledStep(g: Generator, root: State, index: nat, reportOnly: int)
    requires CreatedAt(root.frozen, g, index, reportOnly) && root == Root(g, root.frozen, index)
    ensures StepOk(root, CancelledState(g, root, index), g.digests)
  {
    StateSoundWhen(CancelledState(g, root, index), g.digests);
  }

  lemma LeasedStep(g: Generator, root: State, index: nat, reportOnly: int)
    requires CreatedAt(root.frozen, g, index, reportOnly) && root == Root(g, root.frozen, index)
    ensures StepOk(root, LeasedState(g, root, index), g.digests)
  {
    StateSoundWhen(LeasedState(g, root, index), g.digests);
  }

  lemma SubmittedStep(g: Generator, leased: State, index: nat, reportOnly: int)
    requires index < reportOnly && CreatedAt(leased.frozen, g, index, reportOnly) && leased.status.Leased? && leased.revision == 2 && leased.lease.Some?
    requires leased.staged.None? && leased.decision.None? && !leased.terminalReceipt && leased.updatedAt == g.clock(index + 1)
    ensures StepOk(leased, SubmittedState(g, leased, index), g.digests)
  {
    StateSoundWhen(SubmittedState(g, leased, index), g.digests);
  }

  lemma ApprovedStep(g: Generator, submitted: State, index: nat, reportOnly: int)
    requires index < reportOnly && CreatedAt(submitted.frozen, g, index, reportOnly) && submitted.status.Submitted? && submitted.lease.Some?
    requires submitted.staged.Some? && submitted.updatedAt == g.clock(index + 2)
    requires submitted.staged.value.taskId == submitted.frozen.taskId
    requires submitted.staged.value.inputBasisDigest == submitted.frozen.inputBasisDigest
    ensures StepOk(submitted, ApprovedState(g, submitted, index), g.digests)
  {
    StateSoundWhen(ApprovedState(g, submitted, index), g.digests);
  }

  lemma TwoStates(a: State, b: State, digests: Digests)
    requires a.revision == 1 && b.revision == 2 && StateFault(a, digests).None? && StepOk(a, b, digests)
    ensures ChainOk([a, b], digests)
  {
  }

  lemma FourStates(a: State, b: State, c: State, d: State, digests: Digests)
    requires a.revision == 1 && b.revision == 2 && c.revision == 3 && d.revision == 4 && StateFault(a, digests).None?
    requires StepOk(a, b, digests) && StepOk(b, c, digests) && StepOk(c, d, digests)
    ensures ChainOk([a, b, c, d], digests)
  {
  }

  /** Every generated task is a sound chain. */
  lemma GeneratedChainSound(g: Generator, f: Frozen, index: nat, reportOnly: int)
    requires CreatedAt(f, g, index, reportOnly)
    ensures ChainOk(TaskChain(g, f, index, reportOnly), g.digests)
  {
    var root := Root(g, f, index);
    RootSound(g, f, index, reportOnly);
    if index < reportOnly {
      var leased := LeasedState(g, root, index);
      var submitted := SubmittedState(g, leased, index);
      LeasedStep(g, root, index, reportOnly);
      SubmittedStep(g, leased, index, reportOnly);
      ApprovedStep(g, submitted, index, reportOnly);
      FourStates(root, leased, submitted, ApprovedState(g, submitted, index), g.digests);
    } else {
      CancelledStep(g, root, index, reportOnly);
      TwoStates(root, CancelledState(g, root, index), g.digests);
    }
  }

  // ----- A log put together from sound chains -----

  /** A sound chain of one task without lineage, under one idempotency key, with distinct state ids. */
  ghost predicate TaskOf(chain: seq<State>, task: string, key: string, digests: Digests) {
    && ChainOk(chain, digests) && DistinctStateIds(chain)
    && forall s :: s in chain ==> s.frozen.taskId == task && s.frozen.idempotencyKey == key && s.frozen.lineage.None?
  }

  ghost predicate NoSharedIds(a: seq<State>, b: seq<State>) {
    forall s, x :: s in a && x in b ==> s.stateId != x.stateId
  }

  ghost predicate Distinct(names: seq<string>) {
    forall i, j :: 0 <= i < j < |names| ==> names[i] != names[j]
  }

  /** Chains of different tasks under different keys, sharing no state id. */
  ghost predicate Independent(chains: seq<seq<State>>, tasks: seq<string>, keys: seq<string>, digests: Digests) {
    && |chains| == |tasks| == |keys| && Distinct(tasks) && Distinct(keys)
    && (forall i {:trigger TaskOf(chains[i], tasks[i], keys[i], digests)} ::
          0 <= i < |chains| ==> TaskOf(chains[i], tasks[i], keys[i], digests))
    && (forall i, j {:trigger NoSharedIds(chains[i], chains[j])} ::
          0 <= i < j < |chains| ==> NoSharedIds(chains[i], chains[j]))
  }

  lemma FlattenIndex(chains: seq<seq<State>>, n: nat, s: State) returns (i: nat)
    requires n <= |chains| && s in Flatten(chains, n)
    ensures i < n && s in chains[i]
  {
    FlattenContents(chains, n, s);
    i :| 0 <= i < n && s in chains[i];
  }

  lemma {:induction false} StatesOfConcat(a: seq<State>, b: seq<State>, task: string)
    ensures StatesOf(a + b, task) == StatesOf(a, task) + StatesOf(b, task)
  {
    if b == [] {
      assert a + b == a;
    } else {
      assert (a + b)[..|a + b| - 1] == a + b[..|b| - 1];
      StatesOfConcat(a, b[..|b| - 1], task);
    }
  }

  lemma {:induction false} AllOfTask(s: seq<State>, task: string)
    requires forall x :: x in s ==> x.frozen.taskId == task
    ensures StatesOf(s, task) == s
  {
    if s != [] {
      AllOfTask(s[..|s| - 1], task);
      assert s == s[..|s| - 1] + [s[|s| - 1]];
    }
  }

  lemma {:induction false} NoneOfTask(s: seq<State>, task: string)
    requires forall x :: x in s ==> x.frozen.taskId != task
    ensures StatesOf(s, task) == []
  {
    if s != [] {
      NoneOfTask(s[..|s| - 1], task);
      assert s[|s| - 1] in s;
    }
  }

  ghost predicate OfTask(chain: seq<State>, task: string) {
    forall s :: s in chain ==> s.frozen.taskId == task
  }

  lemma {:induction false} StatesOfFlatten(chains: seq<seq<State>>, tasks: seq<string>, n: nat, i: nat)
    requires |chains| == |tasks| && n <= |chains| && i < |chains| && Distinct(tasks)
    requires forall k {:trigger OfTask(chains[k], tasks[k])} :: 0 <= k < |chains| ==> OfTask(chains[k], tasks[k])
    ensures StatesOf(Flatten(chains, n), tasks[i]) == if i < n then chains[i] else []
  {
    if n > 0 {
      StatesOfConcat(Flatten(chains, n - 1), chains[n - 1], tasks[i]);
      StatesOfFlatten(chains, tasks, n - 1, i);
      assert OfTask(chains[n - 1], tasks[n - 1]);
      if i == n - 1 {
        AllOfTask(chains[i], tasks[i]);
      } else {
        assert tasks[n - 1] != tasks[i];
        NoneOfTask(chains[n - 1], tasks[i]);
      }
    }
  }

  lemma JoinDistinct(a: seq<State>, b: seq<State>)
    requires DistinctStateIds(a) && DistinctStateIds(b) && NoSharedIds(a, b)
    ensures DistinctStateIds(a + b)
  {
    var all := a + b;
    forall i, j | 0 <= i < j < |all| ensures all[i].stateId != all[j].stateId {
      if i < |a| <= j {
        assert all[i] in a && all[j] in b;
      }
    }
  }

  lemma {:induction false} FlattenDistinct(chains: seq<seq<State>>, n: nat)
    requires n <= |chains|
    requires forall i {:trigger DistinctStateIds(chains[i])} :: 0 <= i < |chains| ==> DistinctStateIds(chains[i])
    requires forall i, j {:trigger NoSharedIds(chains[i], chains[j])} ::
      0 <= i < j < |chains| ==> NoSharedIds(chains[i], chains[j])
    ensures DistinctStateIds(Flatten(chains, n))
  {
    if n > 0 {
      FlattenDistinct(chains, n - 1);
      assert DistinctStateIds(chains[n - 1]);
      forall s, x | s in Flatten(chains, n - 1) && x in chains[n - 1] ensures s.stateId != x.stateId {
        var i := FlattenIndex(chains, n - 1, s);
        assert NoSharedIds(chains[i], chains[n - 1]);
      }
      JoinDistinct(Flatten(chains, n - 1), chains[n - 1]);
    }
  }

  lemma ChainElementAt(chain: seq<State>, digests: Digests, x: State) returns (i: nat)
    requires ChainOk(chain, digests) && x in chain
    ensures i < |chain| && chain[i] == x && x.revision == i + 1
  {
    i :| 0 <= i < |chain| && chain[i] == x;
  }

  /** A chain is already in revision order. */
  lemma ChainSorted(chain: seq<State>, digests: Digests)
    requires ChainOk(chain, digests)
    ensures Sorting.Sorted(chain, RevisionLeq) == chain
  {
    RevisionOrder();
    Sorting.SortedContents(chain, RevisionLeq);
    Sorting.SortedOrders(chain, RevisionLeq);
    forall x, y | x in chain && y in chain && RevisionLeq(x, y) && RevisionLeq(y, x) ensures x == y {
      var i := ChainElementAt(chain, digests, x);
      var j := ChainElementAt(chain, digests, y);
    }
    ChainAscends(chain, digests);
    forall x ensures RevisionLeq(x, x) {
      StringOrder.LeqReflexive(x.stateId);
    }
    Sorting.SortedUnique(chain, Sorting.Sorted(chain, RevisionLeq), RevisionLeq);
  }

  lemma ChainAscends(chain: seq<State>, digests: Digests)
    requires ChainOk(chain, digests)
    ensures Sorting.IsSorted(chain, RevisionLeq)
  {
    forall i, j | 0 <= i < j < |chain| ensures RevisionLeq(chain[i], chain[j]) {
      assert chain[i].revision == i + 1 && chain[j].revision == j + 1;
    }
  }

  lemma OrderedFlatten(
      chains: seq<seq<State>>, tasks: seq<string>, keys: seq<string>, digests: Digests, i: nat)
    requires Independent(chains, tasks, keys, digests) && i < |chains|
    ensures Ordered(Flatten(chains, |chains|), tasks[i]) == chains[i]
    ensures ChainOk(chains[i], digests)
  {
    forall k | 0 <= k < |chains| ensures OfTask(chains[k], tasks[k]) {
      assert TaskOf(chains[k], tasks[k], keys[k], digests);
    }
    StatesOfFlatten(chains, tasks, |chains|, i);
    assert TaskOf(chains[i], tasks[i], keys[i], digests);
    ChainSorted(chains[i], digests);
  }

  lemma NoPredecessors(log: seq<State>)
    requires forall s :: s in log ==> s.frozen.lineage.None?
    ensures PredecessorsOf(log) == map[]
  {
    forall t | t in Tasks(log) ensures NamedPredecessor(StatesOf(log, t)).None? {
      StatesOfContents(log, t);
      if StatesOf(log, t) != [] {
        RootOfIsMember(StatesOf(log, t));
      }
    }
  }

  lemma StateOfChain(
      chains: seq<seq<State>>, tasks: seq<string>, keys: seq<string>, digests: Digests, s: State) returns (i: nat)
    requires Independent(chains, tasks, keys, digests) && s in Flatten(chains, |chains|)
    ensures i < |chains| && s in chains[i] && s.frozen.taskId == tasks[i]
    ensures s.frozen.idempotencyKey == keys[i] && s.frozen.lineage.None?
  {
    i := FlattenIndex(chains, |chains|, s);
    assert TaskOf(chains[i], tasks[i], keys[i], digests);
  }

  lemma KeysBind(chains: seq<seq<State>>, tasks: seq<string>, keys: seq<string>, digests: Digests)
    requires Independent(chains, tasks, keys, digests)
    ensures KeysBindOneTask(Flatten(chains, |chains|))
  {
    var log := Flatten(chains, |chains|);
    forall a, b | a in log && b in log && a.frozen.idempotencyKey == b.frozen.idempotencyKey != ""
      ensures a.frozen.taskId == b.frozen.taskId
    {
      var i := StateOfChain(chains, tasks, keys, digests, a);
      var j := StateOfChain(chains, tasks, keys, digests, b);
      assert i == j;
    }
  }

  /** Independent chains without lineage make an accepted log. */
  lemma IndependentChainsAccepted(chains: seq<seq<State>>, tasks: seq<string>, keys: seq<string>, digests: Digests)
    requires Independent(chains, tasks, keys, digests)
    ensures Accepted(Flatten(chains, |chains|), digests)
  {
    var log := Flatten(chains, |chains|);
    forall i | 0 <= i < |chains| ensures DistinctStateIds(chains[i]) {
      assert TaskOf(chains[i], tasks[i], keys[i], digests);
    }
    FlattenDistinct(chains, |chains|);
    KeysBind(chains, tasks, keys, digests);
    forall t | t in Tasks(log) ensures ChainOk(Ordered(log, t), digests) {
      var s :| s in log && s.frozen.taskId == t;
      var i := StateOfChain(chains, tasks, keys, digests, s);
      OrderedFlatten(chains, tasks, keys, digests, i);
    }
    forall s | s in log ensures s.frozen.lineage.None? {
      var i := StateOfChain(chains, tasks, keys, digests, s);
    }
    NoPredecessors(log);
  }

  // ----- The generated chains are independent -----

  /** State ids and creation data of a generated chain. */
  lemma ChainAt(g: Generator, f: Frozen, index: nat, reportOnly: int, k: nat)
    requires k < StateCount(index, reportOnly)
    ensures |TaskChain(g, f, index, reportOnly)| == StateCount(index, reportOnly)
    ensures TaskChain(g, f, index, reportOnly)[k].stateId == g.stateId(index * 4 + (k + 1))
    ensures TaskChain(g, f, index, reportOnly)[k].frozen == f
  {
    assert k == 0 || k == 1 || k == 2 || k == 3;
  }

  lemma ChainMember(g: Generator, f: Frozen, index: nat, reportOnly: int, s: State) returns (revision: nat)
    requires s in TaskChain(g, f, index, reportOnly)
    ensures 1 <= revision <= StateCount(index, reportOnly) && s.stateId == g.stateId(index * 4 + revision)
    ensures s.frozen == f
  {
    var chain := TaskChain(g, f, index, reportOnly);
    ChainAt(g, f, index, reportOnly, 0);
    var k :| 0 <= k < |chain| && chain[k] == s;
    ChainAt(g, f, index, reportOnly, k);
    revision := k + 1;
  }

  lemma Quotient(i: nat, r: nat, j: nat, t: nat)
    requires 1 <= r <= 4 && 1 <= t <= 4 && i * 4 + r == j * 4 + t
    ensures i == j && r == t
  {
  }

  lemma ChainIdsDistinct(g: Generator, f: Frozen, index: nat, reportOnly: int)
    requires InjectiveIds(g)
    ensures DistinctStateIds(TaskChain(g, f, index, reportOnly))
  {
    var chain := TaskChain(g, f, index, reportOnly);
    ChainAt(g, f, index, reportOnly, 0);
    forall i, j | 0 <= i < j < |chain| ensures chain[i].stateId != chain[j].stateId {
      ChainAt(g, f, index, reportOnly, i);
      ChainAt(g, f, index, reportOnly, j);
      assert g.stateId(index * 4 + (i + 1)) != g.stateId(index * 4 + (j + 1));
    }
  }

  lemma GeneratedTask(g: Generator, f: Frozen, index: nat, reportOnly: int)
    requires InjectiveIds(g) && CreatedAt(f, g, index, reportOnly)
    ensures TaskOf(TaskChain(g, f, index, reportOnly), f.taskId, f.idempotencyKey, g.digests)
  {
    var chain := TaskChain(g, f, index, reportOnly);
    GeneratedChainSound(g, f, index, reportOnly);
    ChainIdsDistinct(g, f, index, reportOnly);
    forall s | s in chain ensures s.frozen == f {
      var r := ChainMember(g, f, index, reportOnly, s);
    }
  }

  lemma GeneratedShareNothing(g: Generator, f: Frozen, i: nat, h: Frozen, j: nat, reportOnly: int)
    requires InjectiveIds(g) && i != j
    ensures NoSharedIds(TaskChain(g, f, i, reportOnly), TaskChain(g, h, j, reportOnly))
  {
    forall s, x | s in TaskChain(g, f, i, reportOnly) && x in TaskChain(g, h, j, reportOnly) ensures s.stateId != x.stateId {
      var r := ChainMember(g, f, i, reportOnly, s);
      var t := ChainMember(g, h, j, reportOnly, x);
      if g.stateId(i * 4 + r) == g.stateId(j * 4 + t) {
        Quotient(i, r, j, t);
      }
    }
  }

  lemma KeysDiffer(i: nat, j: nat)
    requires i != j
    ensures TaskKey(i) != TaskKey(j)
  {
    if TaskKey(i) == TaskKey(j) {
      assert TaskKey(i)[9..] == Padded(i, 8) && TaskKey(j)[9..] == Padded(j, 8);
      PaddedInjective(i, j, 8);
    }
  }

  function TaskNames(g: Generator, tasks: nat): seq<string> {
    seq(tasks, i requires 0 <= i < tasks => g.taskId(i + 1))
  }

  function TaskKeys(tasks: nat): seq<string> {
    seq(tasks, i requires 0 <= i < tasks => TaskKey(i))
  }

  lemma CreationAt(g: Generator, index: nat, reportOnly: int)
    requires ClockRuns(g) && LastOrdinal(index, reportOnly) < January
    ensures CreatedAt(Creation(g, index), g, index, reportOnly)
    ensures Creation(g, index).taskId == g.taskId(index + 1) && Creation(g, index).idempotencyKey == TaskKey(index)
  {
  }

  lemma NamesDistinct(g: Generator, tasks: nat)
    requires InjectiveIds(g)
    ensures Distinct(TaskNames(g, tasks)) && Distinct(TaskKeys(tasks))
  {
    forall i, j | 0 <= i < j < tasks ensures TaskKeys(tasks)[i] != TaskKeys(tasks)[j] {
      KeysDiffer(i, j);
    }
  }

  lemma GeneratedIndependent(g: Generator, tasks: nat, reportOnly: int)
    requires InjectiveIds(g) && ClockRuns(g) && InJanuary(tasks, reportOnly)
    ensures Independent(Chains(g, tasks, reportOnly), TaskNames(g, tasks), TaskKeys(tasks), g.digests)
  {
    var chains, names, keys := Chains(g, tasks, reportOnly), TaskNames(g, tasks), TaskKeys(tasks);
    NamesDistinct(g, tasks);
    InJanuaryMeans(tasks, reportOnly);
    forall i | 0 <= i < tasks ensures TaskOf(chains[i], names[i], keys[i], g.digests) {
      CreationAt(g, i, reportOnly);
      GeneratedTask(g, Creation(g, i), i, reportOnly);
    }
    forall i, j | 0 <= i < j < tasks ensures NoSharedIds(chains[i], chains[j]) {
      GeneratedShareNothing(g, Creation(g, i), i, Creation(g, j), j, reportOnly);
    }
  }

  /** The chain validator accepts every generated log whose timestamps stay inside January. */
  lemma GeneratedLogAccepted(g: Generator, tasks: nat, reportOnly: int)
    requires InjectiveIds(g) && ReadsTimestamps(g) && InJanuary(tasks, reportOnly)
    ensures Accepted(GeneratedLog(g, tasks, reportOnly), g.digests)
  {
    TimestampsRun(g);
    GeneratedIndependent(g, tasks, reportOnly);
    IndependentChainsAccepted(Chains(g, tasks, reportOnly), TaskNames(g, tasks), TaskKeys(tasks), g.digests);
  }
}
