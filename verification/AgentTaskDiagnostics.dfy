/** The Agent Task validator and the projection to current states, as the loops that compute them. */
module AgentTaskDiagnostics {
  import opened Wrappers
  import opened AgentTasks
  import opened AgentTaskLog
  import opened LineageGraph
  import opened Concatenation
  import opened Deduplication
  import Listing
  import Sorting
  import Selection
  import StringOrder

  type ByTask = map<string, seq<State>>

  ghost predicate Groups(byTask: ByTask, log: seq<State>) {
    && byTask.Keys == Tasks(log)
    && forall t {:trigger StatesOf(log, t)} :: t in byTask ==> byTask[t] == StatesOf(log, t)
  }

  lemma TasksGrow(log: seq<State>, i: nat)
    requires i < |log|
    ensures Tasks(log[..i + 1]) == Tasks(log[..i]) + {log[i].frozen.taskId}
    ensures log[..i + 1][..i] == log[..i]
  {
    assert log[..i + 1] == log[..i] + [log[i]];
  }

  /** Appends one state to its task's list. */
  method File(byTask: ByTask, log: seq<State>, i: nat) returns (byTask': ByTask)
    requires i < |log| && Groups(byTask, log[..i])
    ensures Groups(byTask', log[..i + 1])
  {
    var t := log[i].frozen.taskId;
    TasksGrow(log, i);
    if t !in byTask {
      StatesOfAbsent(log[..i], t);
    }
    byTask' := byTask[t := (if t in byTask then byTask[t] else []) + [log[i]]];
    forall u {:trigger StatesOf(log[..i + 1], u)} | u in byTask' ensures byTask'[u] == StatesOf(log[..i + 1], u) {
      assert u in byTask ==> byTask[u] == StatesOf(log[..i], u);
    }
  }

  /** `keyTasks` is what `setdefault` has recorded after `n` states. */
  ghost predicate Bindings(keyTasks: map<string, string>, log: seq<State>, n: nat)
    requires n <= |log|
  {
    && "" !in keyTasks
    && forall key {:trigger KeyHolder(log, n, key)} :: key != "" ==>
      KeyHolder(log, n, key) == if key in keyTasks then Some(keyTasks[key]) else None
  }

  method BindKey(keyTasks: map<string, string>, log: seq<State>, i: nat)
    returns (keyTasks': map<string, string>, fault: bool)
    requires i < |log| && Bindings(keyTasks, log, i)
    ensures Bindings(keyTasks', log, i + 1)
    ensures var key := log[i].frozen.idempotencyKey;
      fault <==> key != "" && KeyHolder(log, i + 1, key) != Some(log[i].frozen.taskId)
  {
    var key, task := log[i].frozen.idempotencyKey, log[i].frozen.taskId;
    keyTasks', fault := keyTasks, false;
    assert KeyHolder(log, i, key) == KeyHolder(log, i, key);
    if key != "" {
      if key !in keyTasks {
        keyTasks' := keyTasks[key := task];
      }
      fault := keyTasks'[key] != task;
    }
    forall k {:trigger KeyHolder(log, i + 1, k)} | k != ""
      ensures KeyHolder(log, i + 1, k) == if k in keyTasks' then Some(keyTasks'[k]) else None
    {
      assert KeyHolder(log, i, k) == KeyHolder(log, i, k);
    }
  }

  /** The first pass: ids, keys, and the states grouped by task. */
  method GroupStates(log: seq<State>) returns (faults: seq<Diagnostic>, byTask: ByTask, order: seq<string>)
    ensures faults == IdentityPass(log, |log|)
    ensures Groups(byTask, log) && order == TaskOrder(log)
  {
    var stateIds: set<string> := {};
    var keyTasks: map<string, string> := map[];
    faults, byTask, order := [], map[], [];
    for i := 0 to |log|
      invariant stateIds == set j | 0 <= j < i :: log[j].stateId
      invariant Bindings(keyTasks, log, i)
      invariant faults == IdentityPass(log, i)
      invariant Groups(byTask, log[..i]) && order == TaskOrder(log[..i])
    {
      var found;
      found, stateIds, keyTasks := IdentityTurn(log, i, stateIds, keyTasks);
      faults := faults + found;
      TasksGrow(log, i);
      if log[i].frozen.taskId !in byTask {
        order := order + [log[i].frozen.taskId];
      }
      byTask := File(byTask, log, i);
    }
    assert log[..|log|] == log;
  }

  method IdentityTurn(log: seq<State>, i: nat, stateIds: set<string>, keyTasks: map<string, string>)
    returns (found: seq<Diagnostic>, stateIds': set<string>, keyTasks': map<string, string>)
    requires i < |log| && stateIds == (set j | 0 <= j < i :: log[j].stateId) && Bindings(keyTasks, log, i)
    ensures found == IdentityFaults(log, i)
    ensures stateIds' == (set j | 0 <= j < i + 1 :: log[j].stateId) && Bindings(keyTasks', log, i + 1)
  {
    var s := log[i];
    found := When(s.stateId in stateIds, s, DuplicateStateId);
    stateIds' := stateIds + {s.stateId};
    var bound;
    keyTasks', bound := BindKey(keyTasks, log, i);
    found := found + When(bound, s, IdempotencyKey);
  }

  method CheckContiguous(chain: seq<State>) returns (contiguous: bool)
    ensures contiguous == Contiguous(chain)
  {
    for k := 0 to |chain|
      invariant forall j :: 0 <= j < k ==> chain[j].revision == j + 1
    {
      if chain[k].revision != k + 1 {
        return false;
      }
    }
    return true;
  }

  method CheckStep(chain: seq<State>, k: nat, digests: Digests) returns (found: seq<Diagnostic>)
    requires k + 1 < |chain|
    ensures found == StepReports(chain, digests)[k]
  {
    found := StepFaults(chain[0], chain[k], chain[k + 1], digests);
  }

  method CheckSteps(chain: seq<State>, digests: Digests) returns (steps: seq<Diagnostic>)
    requires chain != []
    ensures steps == Flatten(StepReports(chain, digests), |chain| - 1)
  {
    steps := [];
    ghost var reports := StepReports(chain, digests);
    for k := 1 to |chain|
      invariant steps == Flatten(reports, k - 1)
    {
      var found := CheckStep(chain, k - 1, digests);
      steps := steps + found;
    }
  }

  /** The second pass over one task, in revision order. */
  method CheckChain(chain: seq<State>, digests: Digests) returns (faults: seq<Diagnostic>)
    requires chain != []
    ensures faults == ChainFaults(chain, digests)
  {
    var contiguous := CheckContiguous(chain);
    if !contiguous {
      return [Diagnostic(chain[0].stateId, RevisionsNotContiguous)];
    }
    var steps := CheckSteps(chain, digests);
    faults := Raised(chain[0], StateFault(chain[0], digests)) + steps;
  }

  method CheckTasks(log: seq<State>, byTask: ByTask, order: seq<string>, digests: Digests)
    returns (faults: seq<Diagnostic>)
    requires Groups(byTask, log) && forall t :: t in order ==> t in byTask
    ensures faults == TaskPass(log, order, digests)
  {
    faults := [];
    for i := 0 to |order|
      invariant faults == TaskPass(log, order[..i], digests)
    {
      var t := order[i];
      assert order[..i + 1][..i] == order[..i] && t in order;
      assert byTask[t] == StatesOf(log, t);
      var chain := Sorting.Sorted(byTask[t], RevisionLeq);
      if chain != [] {
        var found := CheckChain(chain, digests);
        faults := faults + found;
      }
    }
    assert order[..|order|] == order;
  }

  /** The head of a task, from the grouped states. */
  method NewestOf(log: seq<State>, byTask: ByTask, task: string) returns (head: Option<State>)
    requires Groups(byTask, log)
    ensures head == Head(log, task)
  {
    OrderedContents(log, task);
    assert task in byTask ==> byTask[task] == StatesOf(log, task);
    var states := if task in byTask then Sorting.Sorted(byTask[task], RevisionLeq) else [];
    head := if states == [] then None else Some(states[|states| - 1]);
  }

  /** The third pass for one state; `broken` is the failed read of a missing decision. */
  method CheckLineage(log: seq<State>, byTask: ByTask, s: State, digests: Digests)
    returns (broken: bool, fault: Option<Fault>)
    requires Groups(byTask, log)
    ensures broken == LineageBreaks(log, s)
    ensures !broken ==> fault == LineageFault(log, s, digests)
  {
    broken, fault := false, None;
    if s.revision == 1 && s.frozen.lineage.Some? {
      var l := s.frozen.lineage.value;
      var head := NewestOf(log, byTask, l.predecessor);
      if head.None? {
        fault := Some(LineageUnresolved);
      } else if l.predecessor == s.frozen.taskId {
        fault := Some(LineageSelf);
      } else if head.value.status != ExpectedStatus(l) {
        fault := Some(LineageNotReciprocated);
      } else if head.value.decision.None? {
        broken := true;
      } else if head.value.decision.value.successorTaskId != Some(s.frozen.taskId) {
        fault := Some(LineageNotReciprocated);
      } else if l.ResultLineage? && digests.result(head.value.staged) != l.resultDigest {
        fault := Some(LineageResult);
      } else if l.ResultLineage? && head.value.decision.value.feedback != Some(l.feedback) {
        fault := Some(LineageFeedback);
      } else if l.RefreshLineage? && HandoffOf(head.value) != l.handoffDigest {
        fault := Some(LineageHandoff);
      }
    }
  }

  ghost function Breaks(log: seq<State>): (v: seq<bool>)
    ensures |v| == |log|
  {
    seq(|log|, i requires 0 <= i < |log| => LineageBreaks(log, log[i]))
  }

  lemma BreaksMean(log: seq<State>)
    ensures AnyOf(Breaks(log), |log|) <==> exists s :: s in log && LineageBreaks(log, s)
  {
    AnyOfMeans(Breaks(log), |log|);
    if i :| 0 <= i < |log| && Breaks(log)[i] {
      assert log[i] in log;
    }
    if s :| s in log && LineageBreaks(log, s) {
      var i :| 0 <= i < |log| && log[i] == s;
      assert Breaks(log)[i];
    }
  }

  predicate AnyOf(v: seq<bool>, n: nat)
    requires n <= |v|
  {
    n > 0 && (AnyOf(v, n - 1) || v[n - 1])
  }

  lemma {:induction false} AnyOfMeans(v: seq<bool>, n: nat)
    requires n <= |v|
    ensures AnyOf(v, n) <==> exists i :: 0 <= i < n && v[i]
  {
    if n > 0 {
      AnyOfMeans(v, n - 1);
    }
  }

  lemma {:induction false} AnyOfGrows(v: seq<bool>, m: nat, n: nat)
    requires m <= n <= |v| && AnyOf(v, m)
    ensures AnyOf(v, n)
  {
    if m < n {
      AnyOfGrows(v, m, n - 1);
    }
  }

  method LineageTurn(log: seq<State>, byTask: ByTask, i: nat, digests: Digests)
    returns (broken: bool, fault: Option<Fault>)
    requires Groups(byTask, log) && i < |log|
    ensures broken == Breaks(log)[i]
    ensures !broken ==> fault == Verdicts(log, digests)[i]
  {
    broken, fault := CheckLineage(log, byTask, log[i], digests);
  }

  method CheckLineages(log: seq<State>, byTask: ByTask, digests: Digests)
    returns (broken: bool, faults: seq<Diagnostic>)
    requires Groups(byTask, log)
    ensures broken <==> AnyOf(Breaks(log), |log|)
    ensures !broken ==> faults == LineagePass(log, digests)
  {
    faults := [];
    ghost var verdicts, breaks := Verdicts(log, digests), Breaks(log);
    for i := 0 to |log|
      invariant faults == ReportVerdicts(log, verdicts, i)
      invariant !AnyOf(breaks, i)
    {
      var fault;
      broken, fault := LineageTurn(log, byTask, i, digests);
      if broken {
        AnyOfGrows(breaks, i + 1, |log|);
        return;
      }
      faults := faults + Raised(log[i], fault);
    }
    broken := false;
  }

  method FindRoot(states: seq<State>) returns (root: State)
    requires states != []
    ensures root == RootOf(states)
  {
    root := states[0];
    for k := 1 to |states|
      invariant root == RootOf(states[..k])
    {
      assert states[..k + 1][..k] == states[..k];
      if states[k].revision < root.revision {
        root := states[k];
      }
    }
    assert states[..|states|] == states;
  }

  /** The predecessor a task's root names, if any. */
  method FindPredecessor(states: seq<State>) returns (p: Option<string>)
    ensures p == NamedPredecessor(states)
  {
    p := None;
    if states != [] {
      var root := FindRoot(states);
      if root.frozen.lineage.Some? {
        p := Some(root.frozen.lineage.value.predecessor);
      }
    }
  }

  method CollectPredecessors(log: seq<State>, byTask: ByTask) returns (m: Predecessors)
    requires Groups(byTask, log)
    ensures m == PredecessorsOf(log)
  {
    m := map[];
    var todo := byTask.Keys;
    while todo != {}
      invariant todo <= byTask.Keys
      invariant m == map t | t in byTask.Keys && t !in todo && NamedPredecessor(StatesOf(log, t)).Some? ::
        NamedPredecessor(StatesOf(log, t)).value
    {
      var t :| t in todo;
      todo := todo - {t};
      assert byTask[t] == StatesOf(log, t);
      var p := FindPredecessor(byTask[t]);
      if p.Some? {
        m := m[t := p.value];
      }
    }
  }

  /** The fourth pass: tasks whose predecessors never end, in task order. */
  method CheckCycles(log: seq<State>, byTask: ByTask) returns (faults: seq<Diagnostic>)
    requires Groups(byTask, log)
    ensures faults == CyclePass(log, PredecessorsOf(log), Listing.Sorted(PredecessorsOf(log).Keys))
  {
    var m := CollectPredecessors(log, byTask);
    var tasks := Listing.List(m.Keys);
    Listing.SortedListsSet(m.Keys);
    forall i | 0 <= i < |tasks| ensures tasks[i] in byTask {
      assert tasks[i] in tasks;
    }
    faults := CheckCyclesAmong(log, byTask, m, tasks);
  }

  method CheckCyclesAmong(log: seq<State>, byTask: ByTask, m: Predecessors, tasks: seq<string>)
    returns (faults: seq<Diagnostic>)
    requires Groups(byTask, log) && forall i :: 0 <= i < |tasks| ==> tasks[i] in byTask
    ensures faults == CyclePass(log, m, tasks)
  {
    faults := [];
    for i := 0 to |tasks|
      invariant faults == CyclePass(log, m, tasks[..i])
    {
      var t := tasks[i];
      assert tasks[..i + 1][..i] == tasks[..i];
      assert byTask[t] == StatesOf(log, t);
      var cyclic := LeadsIntoCycle(m, t);
      if cyclic && byTask[t] != [] {
        var root := FindRoot(byTask[t]);
        faults := faults + [Diagnostic(root.stateId, LineageCycle)];
      }
    }
    assert tasks[..|tasks|] == tasks;
  }

  /**
   The validator of the whole log. It is silent exactly on accepted logs, reports every fault once,
   and fails (`None`) exactly when a successor's predecessor has the expected status but no decision.
   */
  method AgentTaskChainDiagnostics(log: seq<State>, digests: Digests) returns (r: Option<seq<Diagnostic>>)
    ensures r.None? <==> exists s :: s in log && LineageBreaks(log, s)
    ensures r.Some? ==> r.value == FirstOccurrences(LogFaults(log, digests))
    ensures r == Some([]) <==> Accepted(log, digests)
  {
    var identity, byTask, order := GroupStates(log);
    TaskOrderContents(log);
    var chains := CheckTasks(log, byTask, order, digests);
    var broken, lineage := CheckLineages(log, byTask, digests);
    BreaksMean(log);
    LogFaultsEmpty(log, digests);
    if broken {
      BrokenIsNotAccepted(log, digests);
      return None;
    }
    var cycles := CheckCycles(log, byTask);
    var faults := identity + chains + lineage + cycles;
    FirstOccurrencesContents(faults);
    var diagnostics := Deduplicate(faults);
    r := Some(diagnostics);
  }

  lemma BrokenIsNotAccepted(log: seq<State>, digests: Digests)
    requires exists s :: s in log && LineageBreaks(log, s)
    ensures !Accepted(log, digests)
  {
    var s :| s in log && LineageBreaks(log, s);
    assert LineageFault(log, s, digests).Some?;
  }

  // ----- Current states -----

  /** The current state of every task, in task order. */
  ghost function CurrentStates(log: seq<State>): seq<State> {
    HeadsOf(log, Listing.Sorted(Tasks(log)))
  }

  ghost function HeadsOf(log: seq<State>, tasks: seq<string>): seq<State> {
    if tasks == [] then []
    else
      var init, head := tasks[..|tasks| - 1], Head(log, tasks[|tasks| - 1]);
      HeadsOf(log, init) + if head.Some? then [head.value] else []
  }

  lemma NewestIsLast(chain: seq<State>, digests: Digests, s: State)
    requires ChainOk(chain, digests) && s in chain
    requires chain[|chain| - 1].revision <= s.revision
    ensures chain[|chain| - 1] == s
  {
    var k :| 0 <= k < |chain| && chain[k] == s;
    assert chain[k].revision == k + 1 && chain[|chain| - 1].revision == |chain|;
  }

  /** In a sound task the head is the one state of greatest revision. */
  lemma NewestIsHead(log: seq<State>, digests: Digests, s: State)
    requires s in log && ChainOk(Ordered(log, s.frozen.taskId), digests)
    requires forall x :: x in log && x.frozen.taskId == s.frozen.taskId ==> x.revision <= s.revision
    ensures Head(log, s.frozen.taskId) == Some(s)
  {
    var chain := Ordered(log, s.frozen.taskId);
    OrderedContents(log, s.frozen.taskId);
    assert chain[|chain| - 1] in chain;
    NewestIsLast(chain, digests, s);
  }

  /** The newest state seen so far of each task. */
  ghost predicate NewestSoFar(current: map<string, State>, log: seq<State>) {
    && current.Keys == Tasks(log)
    && (forall t :: t in current ==> current[t] in log && current[t].frozen.taskId == t)
    && (forall x :: x in log ==> x.revision <= current[x.frozen.taskId].revision)
  }

  method CollectNewest(log: seq<State>) returns (current: map<string, State>)
    ensures NewestSoFar(current, log)
  {
    current := map[];
    for i := 0 to |log|
      invariant NewestSoFar(current, log[..i])
    {
      var s := log[i];
      var t := s.frozen.taskId;
      assert log[..i + 1] == log[..i] + [s];
      if t !in current || s.revision > current[t].revision {
        current := current[t := s];
      }
    }
    assert log[..|log|] == log;
  }

  /** One current state per task, in task order; refused exactly when the log is not accepted. */
  method CurrentAgentTaskStates(log: seq<State>, digests: Digests) returns (r: Option<seq<State>>)
    ensures r.Some? <==> Accepted(log, digests)
    ensures r.Some? ==> r.value == CurrentStates(log)
  {
    var diagnostics := AgentTaskChainDiagnostics(log, digests);
    if diagnostics != Some([]) {
      return None;
    }
    var heads := ListHeads(log, digests);
    r := Some(heads);
  }

  method ListHeads(log: seq<State>, digests: Digests) returns (heads: seq<State>)
    requires Accepted(log, digests)
    ensures heads == CurrentStates(log)
  {
    var current := CollectNewest(log);
    var tasks := Listing.List(current.Keys);
    Listing.SortedListsSet(current.Keys);
    forall i | 0 <= i < |tasks| ensures tasks[i] in current && Head(log, tasks[i]) == Some(current[tasks[i]]) {
      assert tasks[i] in tasks;
      NewestIsTheHead(log, digests, current, tasks[i]);
    }
    heads := PickHeads(log, current, tasks);
  }

  lemma NewestIsTheHead(log: seq<State>, digests: Digests, current: map<string, State>, t: string)
    requires Accepted(log, digests) && NewestSoFar(current, log) && t in current
    ensures Head(log, t) == Some(current[t])
  {
    assert ChainOk(Ordered(log, t), digests);
    NewestIsHead(log, digests, current[t]);
  }

  method PickHeads(log: seq<State>, current: map<string, State>, tasks: seq<string>) returns (heads: seq<State>)
    requires forall i :: 0 <= i < |tasks| ==> tasks[i] in current && Head(log, tasks[i]) == Some(current[tasks[i]])
    ensures heads == HeadsOf(log, tasks)
  {
    heads := [];
    for i := 0 to |tasks|
      invariant heads == HeadsOf(log, tasks[..i])
    {
      assert tasks[..i + 1][..i] == tasks[..i];
      heads := heads + [current[tasks[i]]];
    }
    assert tasks[..|tasks|] == tasks;
  }

  lemma {:induction false} HeadsOfContents(log: seq<State>, tasks: seq<string>)
    requires forall t :: t in tasks ==> Head(log, t).Some?
    ensures |HeadsOf(log, tasks)| == |tasks|
    ensures forall k :: 0 <= k < |tasks| ==> HeadsOf(log, tasks)[k] == Head(log, tasks[k]).value
  {
    if tasks != [] {
      var init := tasks[..|tasks| - 1];
      assert tasks == init + [tasks[|tasks| - 1]];
      HeadsOfContents(log, init);
    }
  }

  /** The k-th current state is the head of the k-th task. */
  lemma CurrentStateOfTask(log: seq<State>, k: nat)
    requires k < |Listing.Sorted(Tasks(log))|
    ensures |CurrentStates(log)| == |Listing.Sorted(Tasks(log))|
    ensures Head(log, Listing.Sorted(Tasks(log))[k]) == Some(CurrentStates(log)[k])
    ensures CurrentStates(log)[k].frozen.taskId == Listing.Sorted(Tasks(log))[k]
  {
    var tasks := Listing.Sorted(Tasks(log));
    Listing.SortedMembers(Tasks(log));
    forall u | u in tasks ensures Head(log, u).Some? && Head(log, u).value.frozen.taskId == u {
      OrderedContents(log, u);
      assert Head(log, u).value in Ordered(log, u);
    }
    HeadsOfContents(log, tasks);
    assert tasks[k] in tasks;
  }

  /** Every task has exactly one current state: the last revision of its chain. */
  lemma OneCurrentStatePerTask(log: seq<State>, t: string) returns (k: nat)
    requires t in Tasks(log)
    ensures k < |CurrentStates(log)| && Head(log, t) == Some(CurrentStates(log)[k])
    ensures forall j :: 0 <= j < |CurrentStates(log)| ==> (CurrentStates(log)[j].frozen.taskId == t <==> j == k)
  {
    var tasks := Listing.Sorted(Tasks(log));
    Listing.SortedListsSet(Tasks(log));
    assert t in tasks;
    k :| 0 <= k < |tasks| && tasks[k] == t;
    CurrentStateOfTask(log, k);
    forall j | 0 <= j < |CurrentStates(log)| ensures CurrentStates(log)[j].frozen.taskId == t <==> j == k {
      CurrentStateOfTask(log, j);
      if j < k {
        assert tasks[j] != tasks[k];
      } else if k < j {
        assert tasks[k] != tasks[j];
      }
    }
  }

  // ----- Independence of the input order -----

  lemma {:induction false} StatesOfCount(log: seq<State>, t: string, s: State)
    ensures multiset(StatesOf(log, t))[s] == if s.frozen.taskId == t then multiset(log)[s] else 0
  {
    if log != [] {
      StatesOfCount(log[..|log| - 1], t, s);
      assert log == log[..|log| - 1] + [log[|log| - 1]];
    }
  }

  lemma SameMembers(a: seq<State>, b: seq<State>)
    requires multiset(a) == multiset(b)
    ensures forall s :: s in a <==> s in b
    ensures Tasks(a) == Tasks(b)
  {
    forall s ensures s in a <==> s in b {
      assert s in a <==> s in multiset(a);
    }
  }

  function StateIdOf(s: State): string { s.stateId }

  lemma DistinctIdsPermute(a: seq<State>, b: seq<State>)
    requires DistinctStateIds(a) && multiset(a) == multiset(b)
    ensures DistinctStateIds(b)
  {
    assert Selection.DistinctBy(a, StateIdOf);
    Selection.DistinctPermutes(a, b, StateIdOf);
    assert forall i, j :: 0 <= i < j < |b| ==> StateIdOf(b[i]) != StateIdOf(b[j]);
  }

  lemma SameIdSameState(log: seq<State>, x: State, y: State)
    requires DistinctStateIds(log) && x in log && y in log && x.stateId == y.stateId
    ensures x == y
  {
    var i :| 0 <= i < |log| && log[i] == x;
    var j :| 0 <= j < |log| && log[j] == y;
    assert i == j;
  }

  lemma OrderedPermutes(a: seq<State>, b: seq<State>, t: string)
    requires DistinctStateIds(a) && multiset(a) == multiset(b)
    ensures Ordered(a, t) == Ordered(b, t)
  {
    forall s ensures multiset(StatesOf(a, t))[s] == multiset(StatesOf(b, t))[s] {
      StatesOfCount(a, t, s);
      StatesOfCount(b, t, s);
    }
    assert multiset(StatesOf(a, t)) == multiset(StatesOf(b, t));
    StatesOfContents(a, t);
    forall x, y | x in StatesOf(a, t) && y in StatesOf(a, t) && RevisionLeq(x, y) && RevisionLeq(y, x) ensures x == y {
      StringOrder.LeqAntisymmetric(x.stateId, y.stateId);
      SameIdSameState(a, x, y);
    }
    RevisionOrder();
    Sorting.SortedOrderIndependent(StatesOf(a, t), StatesOf(b, t), RevisionLeq);
  }

  lemma HeadsPermute(a: seq<State>, b: seq<State>, tasks: seq<string>)
    requires DistinctStateIds(a) && multiset(a) == multiset(b)
    ensures HeadsOf(a, tasks) == HeadsOf(b, tasks)
  {
    if tasks != [] {
      HeadsPermute(a, b, tasks[..|tasks| - 1]);
      OrderedPermutes(a, b, tasks[|tasks| - 1]);
    }
  }

  lemma LineageFaultPermutes(a: seq<State>, b: seq<State>, s: State, digests: Digests)
    requires DistinctStateIds(a) && multiset(a) == multiset(b)
    ensures LineageFault(a, s, digests) == LineageFault(b, s, digests)
  {
    if s.frozen.lineage.Some? {
      OrderedPermutes(a, b, s.frozen.lineage.value.predecessor);
    }
  }

  lemma PredecessorsPermute(a: seq<State>, b: seq<State>, digests: Digests)
    requires Accepted(a, digests) && multiset(a) == multiset(b)
    ensures PredecessorsOf(a) == PredecessorsOf(b)
  {
    SameMembers(a, b);
    forall t | t in Tasks(a) ensures NamedPredecessor(StatesOf(a, t)) == NamedPredecessor(StatesOf(b, t)) {
      assert ChainOk(Ordered(a, t), digests);
      OrderedPermutes(a, b, t);
      RootIsFirst(a, digests, t);
      RootIsFirst(b, digests, t);
    }
  }

  /** Acceptance and the current states depend on which states are logged, not on their order. */
  lemma OrderIndependent(a: seq<State>, b: seq<State>, digests: Digests)
    requires Accepted(a, digests) && multiset(a) == multiset(b)
    ensures Accepted(b, digests)
    ensures CurrentStates(a) == CurrentStates(b)
  {
    SameMembers(a, b);
    DistinctIdsPermute(a, b);
    HeadsPermute(a, b, Listing.Sorted(Tasks(a)));
    PredecessorsPermute(a, b, digests);
    forall t {:trigger Ordered(b, t)} | t in Tasks(b) ensures ChainOk(Ordered(b, t), digests) {
      assert ChainOk(Ordered(a, t), digests);
      OrderedPermutes(a, b, t);
    }
    forall s {:trigger LineageFault(b, s, digests)} | s in b ensures LineageFault(b, s, digests).None? {
      assert LineageFault(a, s, digests).None?;
      LineageFaultPermutes(a, b, s, digests);
    }
  }
}
