/** The eleven ways an Agent Task can go, and a sound chain and an accepted log for each of them. */
module AgentTaskPaths {
  import opened Wrappers
  import opened AgentTaskRegistry
  import opened AgentTasks
  import opened AgentTaskLog
  import opened AgentTaskRules
  import opened Concatenation
  import LineageGraph
  import OperationalGenerator

  const TaskPaths: set<seq<Status>> := {
    [Created],
    [Created, Superseded],
    [Created, Cancelled],
    [Created, Leased],
    [Created, Leased, Superseded],
    [Created, Leased, Cancelled],
    [Created, Leased, Submitted],
    [Created, Leased, Submitted, RevisionRequested],
    [Created, Leased, Submitted, Superseded],
    [Created, Leased, Submitted, Rejected],
    [Created, Leased, Submitted, Approved] }

  function StatusesOf(chain: seq<State>): (path: seq<Status>)
    ensures |path| == |chain|
  {
    seq(|chain|, i requires 0 <= i < |chain| => chain[i].status)
  }

  // ----- Every sound chain takes one of them -----

  predicate Taken(previous: Status, next: Status) {
    || (previous == Created && next in {Leased, Superseded, Cancelled})
    || (previous == Leased && next in {Submitted, Superseded, Cancelled})
    || (previous == Submitted && next in {RevisionRequested, Superseded, Rejected, Approved})
  }

  lemma TakenAllowed(previous: Status, next: Status)
    ensures Taken(previous, next) <==> Allowed(previous, next)
  {
  }

  lemma PathsListed(path: seq<Status>)
    requires 1 <= |path| <= 4 && path[0] == Created
    requires forall k :: 1 <= k < |path| ==> Taken(path[k - 1], path[k])
    ensures path in TaskPaths
  {
    if |path| == 1 {
      assert path == [Created];
    } else if |path| == 2 {
      assert Taken(path[0], path[1]);
      assert path == [Created, path[1]];
    } else if |path| == 3 {
      assert Taken(path[0], path[1]) && Taken(path[1], path[2]);
      assert path == [Created, Leased, path[2]];
    } else {
      assert Taken(path[0], path[1]) && Taken(path[1], path[2]) && Taken(path[2], path[3]);
      assert path == [Created, Leased, Submitted, path[3]];
    }
  }

  lemma ChainTakesPath(chain: seq<State>, digests: Digests)
    requires ChainOk(chain, digests)
    ensures StatusesOf(chain) in TaskPaths
  {
    ChainIsTransitionPath(chain, digests);
    var path := StatusesOf(chain);
    forall k | 1 <= k < |path| ensures Taken(path[k - 1], path[k]) {
      assert Allowed(chain[k - 1].status, chain[k].status);
      TakenAllowed(path[k - 1], path[k]);
    }
    PathsListed(path);
  }

  // ----- Each of them is taken by some sound chain -----

  function Decided(status: Status): Option<Decision> {
    match status
    case RevisionRequested => Some(Decision(RevisionRequested, None, Some("again"), Some("successor"), None, 0))
    case Superseded => Some(Decision(Superseded, Some(InputRefreshed), None, Some("successor"), None, 0))
    case Rejected => Some(Decision(Rejected, Some(UserRejected), None, None, None, 0))
    case Approved => Some(Decision(Approved, Some(ReportAccepted), None, None, None, 0))
    case _ => None
  }

  function Creation(digests: Digests): Frozen {
    Frozen(
      "task", KnowledgeQueryReport, "p5c-knowledge-query-report@1.0", "p8-v1", OperationalGenerator.QueryClasses,
      "basis", digests.basis("basis"), "key", None, 0, "")
  }

  function Root(digests: Digests): State {
    State("s", 1, None, Creation(digests), Created, None, None, None, false, 0)
  }

  /** The state that takes a task one step further. */
  function Follow(s: State, status: Status, digests: Digests): State {
    s.(stateId := s.stateId + "s", revision := s.revision + 1, predecessor := Some(Link(s.stateId, digests.state(s))),
       status := status, decision := Decided(status), terminalReceipt := status in Ended,
       lease := if status == Leased then Some(Lease("lease", "", 0)) else s.lease,
       staged := if status == Submitted then Some(StagedResult(s.frozen.taskId, s.frozen.inputBasisDigest, "")) else s.staged)
  }

  /** A state of such a chain that can go on. */
  predicate Live(s: State, digests: Digests) {
    && s.frozen == Creation(digests) && s.revision >= 1 && s.updatedAt == 0
    && (s.status == Created ==> s.lease.None? && s.staged.None?)
    && (s.status == Leased ==> s.lease.Some? && s.staged.None?)
    && (s.status == Submitted ==> s.lease.Some? && s.staged.Some?)
    && (s.staged.Some? ==> s.staged == Some(StagedResult(s.frozen.taskId, s.frozen.inputBasisDigest, "")))
  }

  lemma CreationInOrder(digests: Digests)
    ensures CreatedRight(Creation(digests), digests)
  {
    OperationalGenerator.ClassesSorted();
    OperationalGenerator.ClassesComplete();
    CreationRules(Creation(digests), digests);
  }

  lemma AgainHasText()
    ensures HasText("again")
  {
    assert !IsSpace("again"[0]);
  }

  lemma FollowInOrder(s: State, status: Status, digests: Digests)
    requires Live(s, digests) && Taken(s.status, status)
    ensures InOrder(Follow(s, status, digests), digests) && Live(Follow(s, status, digests), digests)
  {
    CreationInOrder(digests);
    AgainHasText();
  }

  lemma FollowIsStep(s: State, status: Status, digests: Digests)
    requires Live(s, digests) && Taken(s.status, status)
    ensures StepOk(s, Follow(s, status, digests), digests) && Live(Follow(s, status, digests), digests)
  {
    FollowInOrder(s, status, digests);
    StateRules(Follow(s, status, digests), digests);
    TakenAllowed(s.status, status);
  }

  /** The chain that takes a path. */
  function Along(path: seq<Status>, digests: Digests): (chain: seq<State>)
    requires path != []
    ensures |chain| == |path|
  {
    if |path| == 1 then [Root(digests)]
    else
      var chain := Along(path[..|path| - 1], digests);
      chain + [Follow(chain[|chain| - 1], path[|path| - 1], digests)]
  }

  lemma ChainLonger(chain: seq<State>, s: State, digests: Digests)
    requires ChainOk(chain, digests) && s.revision == |chain| + 1 && StepOk(chain[|chain| - 1], s, digests)
    ensures ChainOk(chain + [s], digests)
  {
    var longer := chain + [s];
    forall k | 1 <= k < |longer| ensures StepOk(longer[k - 1], longer[k], digests) {
      if k < |chain| {
        ChainStep(chain, digests, k);
      }
    }
  }

  /** A chain along some path, at a state that can go on. */
  ghost predicate GoesAlong(chain: seq<State>, path: seq<Status>, digests: Digests) {
    && ChainOk(chain, digests) && StatusesOf(chain) == path
    && Live(chain[|chain| - 1], digests) && chain[|chain| - 1].revision == |chain|
    && forall s :: s in chain ==> s.frozen == Creation(digests) && |s.stateId| == s.revision
  }

  lemma GoesFurther(chain: seq<State>, path: seq<Status>, status: Status, digests: Digests)
    requires GoesAlong(chain, path, digests) && Taken(path[|path| - 1], status)
    ensures GoesAlong(chain + [Follow(chain[|chain| - 1], status, digests)], path + [status], digests)
  {
    var last := chain[|chain| - 1];
    assert last.status == StatusesOf(chain)[|chain| - 1];
    assert last in chain;
    FollowIsStep(last, status, digests);
    ChainLonger(chain, Follow(last, status, digests), digests);
    assert StatusesOf(chain + [Follow(last, status, digests)]) == path + [status];
  }

  lemma {:induction false} AlongIsSound(path: seq<Status>, digests: Digests)
    requires path != [] && path[0] == Created
    requires forall k :: 1 <= k < |path| ==> Taken(path[k - 1], path[k])
    ensures GoesAlong(Along(path, digests), path, digests)
  {
    if |path| == 1 {
      CreationInOrder(digests);
      StateRules(Root(digests), digests);
      assert StatusesOf(Along(path, digests)) == path;
    } else {
      var init := path[..|path| - 1];
      AlongIsSound(init, digests);
      assert Taken(path[|path| - 2], path[|path| - 1]);
      assert path == init + [path[|path| - 1]];
      GoesFurther(Along(init, digests), init, path[|path| - 1], digests);
    }
  }

  lemma PathStepsTaken(path: seq<Status>)
    requires path in TaskPaths
    ensures path != [] && path[0] == Created && forall k :: 1 <= k < |path| ==> Taken(path[k - 1], path[k])
  {
  }

  /** A sequence of statuses is that of some sound chain if and only if it is one of the eleven. */
  lemma TaskPathsExactly(path: seq<Status>, digests: Digests)
    ensures path in TaskPaths <==> exists chain :: ChainOk(chain, digests) && StatusesOf(chain) == path
  {
    if path in TaskPaths {
      PathStepsTaken(path);
      AlongIsSound(path, digests);
    }
    if chain :| ChainOk(chain, digests) && StatusesOf(chain) == path {
      ChainTakesPath(chain, digests);
    }
  }

  /** And each of them is the whole of some accepted log. */
  lemma EveryPathAccepted(path: seq<Status>, digests: Digests)
    requires path in TaskPaths
    ensures exists log :: AgentTaskLog.Accepted(log, digests) && StatusesOf(log) == path
  {
    PathStepsTaken(path);
    AlongIsSound(path, digests);
    var chain := Along(path, digests);
    forall i, j | 0 <= i < j < |chain| ensures chain[i].stateId != chain[j].stateId {
      assert chain[i] in chain && chain[j] in chain;
      assert chain[i].revision == i + 1 && chain[j].revision == j + 1;
    }
    assert OperationalGenerator.TaskOf(chain, "task", "key", digests);
    OperationalGenerator.IndependentChainsAccepted([chain], ["task"], ["key"], digests);
    assert Flatten([chain], 1) == Flatten([chain], 0) + chain == chain;
  }

  // ----- A revision that goes on in a new task -----

  const Revised: seq<Status> := [Created, Leased, Submitted, RevisionRequested]

  /** The root of the task that takes up the feedback on the last state of another. */
  function Successor(last: State, digests: Digests): State {
    State("t", 1, None,
          Creation(digests).(taskId := "successor", idempotencyKey := "other",
                             lineage := Some(ResultLineage("task", digests.result(last.staged), "again"))),
          Created, None, None, None, false, 0)
  }

  function RevisedLog(digests: Digests): seq<State> {
    var chain := Along(Revised, digests);
    chain + [Successor(chain[3], digests)]
  }

  lemma SuccessorSound(last: State, digests: Digests)
    ensures ChainOk([Successor(last, digests)], digests)
  {
    CreationInOrder(digests);
    CreationRules(Successor(last, digests).frozen, digests);
    CreationRules(Creation(digests), digests);
    StateRules(Successor(last, digests), digests);
  }

  lemma RevisedChain(digests: Digests)
    ensures var chain := Along(Revised, digests);
      && ChainOk(chain, digests) && |chain| == 4
      && chain[3].status == RevisionRequested && chain[3].decision == Decided(RevisionRequested)
      && forall s :: s in chain ==> s.frozen == Creation(digests) && 1 <= |s.stateId| == s.revision && s.stateId[0] == 's'
  {
    PathStepsTaken(Revised);
    AlongIsSound(Revised, digests);
    var chain := Along(Revised, digests);
    assert StatusesOf(chain)[3] == Revised[3];
    assert chain[3] == Follow(Along(Revised[..3], digests)[2], Revised[3], digests);
    AlongIds(Revised, digests);
  }

  lemma {:induction false} AlongIds(path: seq<Status>, digests: Digests)
    requires path != []
    ensures forall s :: s in Along(path, digests) ==> s.stateId != "" && s.stateId[0] == 's'
  {
    if |path| > 1 {
      var init := path[..|path| - 1];
      AlongIds(init, digests);
      var chain := Along(init, digests);
      assert chain[|chain| - 1] in chain;
    }
  }

  lemma StatesOfTwo(chain: seq<State>, second: State, a: string, b: string)
    requires a != b && OperationalGenerator.OfTask(chain, a) && second.frozen.taskId == b
    ensures StatesOf(chain + [second], a) == chain && StatesOf(chain + [second], b) == [second]
  {
    OperationalGenerator.StatesOfConcat(chain, [second], a);
    OperationalGenerator.StatesOfConcat(chain, [second], b);
    OperationalGenerator.AllOfTask(chain, a);
    OperationalGenerator.NoneOfTask(chain, b);
    OperationalGenerator.AllOfTask([second], b);
    OperationalGenerator.NoneOfTask([second], a);
  }

  lemma TasksOfTwo(chain: seq<State>, second: State, a: string, b: string)
    requires chain != [] && OperationalGenerator.OfTask(chain, a) && second.frozen.taskId == b
    ensures Tasks(chain + [second]) == {a, b}
  {
    var log := chain + [second];
    assert log[0] == chain[0] && chain[0] in chain && log[|chain|] == second;
    forall t | t in Tasks(log) ensures t in {a, b} {
      var s :| s in log && s.frozen.taskId == t;
      assert s in chain || s == second;
    }
  }

  lemma OrderedOfTwo(chain: seq<State>, second: State, a: string, b: string, digests: Digests)
    requires ChainOk(chain, digests) && ChainOk([second], digests)
    requires a != b && OperationalGenerator.OfTask(chain, a) && second.frozen.taskId == b
    ensures Ordered(chain + [second], a) == chain && Ordered(chain + [second], b) == [second]
  {
    StatesOfTwo(chain, second, a, b);
    OperationalGenerator.ChainSorted(chain, digests);
    OperationalGenerator.ChainSorted([second], digests);
  }

  lemma OneLink(m: LineageGraph.Predecessors, a: string, b: string)
    requires m == map[a := b] && a != b
    ensures LineageGraph.Acyclic(m)
  {
    assert LineageGraph.Walk(m, a, 1) == LineageGraph.Walk(m, b, 0) == Some(b);
    assert LineageGraph.Walk(m, b, 1).None?;
    assert LineageGraph.Walk(m, a, 2).None?;
    assert LineageGraph.Ends(m, a);
  }

  lemma NamedByTwo(chain: seq<State>, second: State, a: string, b: string, digests: Digests)
    requires ChainOk(chain, digests) && a != b && OperationalGenerator.OfTask(chain, a) && second.frozen.taskId == b
    requires (forall s :: s in chain ==> s.frozen.lineage.None?)
    requires second.frozen.lineage.Some? && second.frozen.lineage.value.predecessor == a
    ensures NamedPredecessor(StatesOf(chain + [second], a)).None?
    ensures NamedPredecessor(StatesOf(chain + [second], b)) == Some(a)
  {
    StatesOfTwo(chain, second, a, b);
    RootOfIsMember(chain);
    assert RootOf([second]) == second;
  }

  lemma PredecessorsOfTwo(chain: seq<State>, second: State, a: string, b: string, digests: Digests)
    requires ChainOk(chain, digests) && a != b && OperationalGenerator.OfTask(chain, a) && second.frozen.taskId == b
    requires (forall s :: s in chain ==> s.frozen.lineage.None?)
    requires second.frozen.lineage.Some? && second.frozen.lineage.value.predecessor == a
    ensures PredecessorsOf(chain + [second]) == map[b := a]
  {
    TasksOfTwo(chain, second, a, b);
    NamedByTwo(chain, second, a, b, digests);
    PredecessorAt(chain + [second], a);
    PredecessorAt(chain + [second], b);
    OnlyLink(PredecessorsOf(chain + [second]), b, a);
  }

  lemma OnlyLink(m: LineageGraph.Predecessors, b: string, a: string)
    requires m.Keys <= {a, b} && a !in m && b in m && m[b] == a
    ensures m == map[b := a]
  {
    assert m.Keys == {b};
  }

  lemma PredecessorAt(log: seq<State>, t: string)
    ensures PredecessorsOf(log).Keys <= Tasks(log)
    ensures t in PredecessorsOf(log) <==> t in Tasks(log) && NamedPredecessor(StatesOf(log, t)).Some?
    ensures t in PredecessorsOf(log) ==> NamedPredecessor(StatesOf(log, t)) == Some(PredecessorsOf(log)[t])
  {
  }

  /** One sound task, and the root of another whose lineage rules are kept, are an accepted log. */
  lemma TwoTasksAccepted(chain: seq<State>, second: State, a: string, b: string, digests: Digests)
    requires ChainOk(chain, digests) && ChainOk([second], digests)
    requires a != b && OperationalGenerator.OfTask(chain, a) && second.frozen.taskId == b
    requires (forall s :: s in chain ==> s.frozen.lineage.None?)
    requires second.frozen.lineage.Some? && second.frozen.lineage.value.predecessor == a
    requires DistinctStateIds(chain + [second]) && KeysBindOneTask(chain + [second])
    requires Reciprocates(chain[|chain| - 1], second, second.frozen.lineage.value, digests)
    ensures AgentTaskLog.Accepted(chain + [second], digests)
  {
    var log := chain + [second];
    OrderedOfTwo(chain, second, a, b, digests);
    TasksOfTwo(chain, second, a, b);
    PredecessorsOfTwo(chain, second, a, b, digests);
    OneLink(PredecessorsOf(log), b, a);
    forall s {:trigger LineageFault(log, s, digests)} | s in log ensures LineageFault(log, s, digests).None? {
      if s == second {
        assert Head(log, a) == Some(chain[|chain| - 1]);
      } else {
        assert s in chain;
      }
      LineageRules(log, s, digests);
    }
  }

  /** A task whose revision was requested, and the task that takes up the feedback, are an accepted log. */
  lemma RevisionContinues(digests: Digests)
    ensures AgentTaskLog.Accepted(RevisedLog(digests), digests)
    ensures PredecessorsOf(RevisedLog(digests)) == map["successor" := "task"]
  {
    var chain := Along(Revised, digests);
    var second := Successor(chain[3], digests);
    RevisedChain(digests);
    SuccessorSound(chain[3], digests);
    RevisedIds(chain, second, digests);
    assert |"task"| != |"successor"|;
    assert Reciprocates(chain[3], second, second.frozen.lineage.value, digests);
    TwoTasksAccepted(chain, second, "task", "successor", digests);
    PredecessorsOfTwo(chain, second, "task", "successor", digests);
  }

  lemma RevisedIds(chain: seq<State>, second: State, digests: Digests)
    requires ChainOk(chain, digests) && second == Successor(chain[|chain| - 1], digests)
    requires forall s :: s in chain ==> s.frozen == Creation(digests) && 1 <= |s.stateId| == s.revision && s.stateId[0] == 's'
    ensures DistinctStateIds(chain + [second]) && KeysBindOneTask(chain + [second])
  {
    var log := chain + [second];
    forall i, j | 0 <= i < j < |log| ensures log[i].stateId != log[j].stateId {
      assert chain[i] in chain && chain[i].revision == i + 1;
      if j < |chain| {
        assert chain[j] in chain && chain[j].revision == j + 1;
      } else {
        assert second.stateId[0] == 't';
      }
    }
    assert "key"[0] != "other"[0];
  }
}
