/** The generated process events, and the check that every Agent Task state is named by exactly one success event. */
module OperationalEvents {
  import opened OperationalProfiles
  import opened AgentTasks
  import opened AgentTaskLog
  import opened OperationalGenerator
  import opened Concatenation

  datatype Event = Event(id: string, operation: string, result: string, outputRefs: seq<string>, createdAt: int)

  // ----- The event-count check -----

  predicate TaskOperation(operation: string) { |operation| >= 11 && operation[..11] == "agent_task_" }

  predicate TaskSuccess(e: Event) { TaskOperation(e.operation) && e.result == "success" }

  predicate Names(e: Event, stateId: string) { TaskSuccess(e) && stateId in e.outputRefs }

  /** How many success events name a state. */
  function Count(events: seq<Event>, stateId: string): nat {
    if events == [] then 0
    else
      Count(events[..|events| - 1], stateId) + if Names(events[|events| - 1], stateId) then 1 else 0
  }

  datatype EventFault = NamesNoState(eventId: string) | NotNamedOnce(stateId: string, found: nat)

  function StateIds(states: seq<State>): set<string> { set s | s in states :: s.stateId }

  predicate NamesSome(e: Event, ids: set<string>) { exists r :: r in e.outputRefs && r in ids }

  function EventPart(events: seq<Event>, ids: set<string>): seq<EventFault> {
    if events == [] then []
    else
      var last := events[|events| - 1];
      EventPart(events[..|events| - 1], ids) + if TaskSuccess(last) && !NamesSome(last, ids) then [NamesNoState(last.id)] else []
  }

  function StatePart(states: seq<State>, events: seq<Event>): seq<EventFault> {
    if states == [] then []
    else
      var last := states[|states| - 1];
      var n := Count(events, last.stateId);
      StatePart(states[..|states| - 1], events) + if n != 1 then [NotNamedOnce(last.stateId, n)] else []
  }

  function EventFaults(states: seq<State>, events: seq<Event>): seq<EventFault> {
    EventPart(events, StateIds(states)) + StatePart(states, events)
  }

  ghost predicate Correlated(states: seq<State>, events: seq<Event>) {
    && (forall e :: e in events && TaskSuccess(e) ==> NamesSome(e, StateIds(states)))
    && (forall s :: s in states ==> Count(events, s.stateId) == 1)
  }

  lemma {:induction false} EventPartEmpty(events: seq<Event>, ids: set<string>)
    ensures EventPart(events, ids) == [] <==> forall e :: e in events && TaskSuccess(e) ==> NamesSome(e, ids)
  {
    if events != [] {
      EventPartEmpty(events[..|events| - 1], ids);
      assert events == events[..|events| - 1] + [events[|events| - 1]];
    }
  }

  lemma {:induction false} StatePartEmpty(states: seq<State>, events: seq<Event>)
    ensures StatePart(states, events) == [] <==> forall s :: s in states ==> Count(events, s.stateId) == 1
  {
    if states != [] {
      StatePartEmpty(states[..|states| - 1], events);
      assert states == states[..|states| - 1] + [states[|states| - 1]];
    }
  }

  method CountEvents(states: seq<State>, events: seq<Event>)
      returns (counts: map<string, nat>, faults: seq<EventFault>)
    ensures counts.Keys == StateIds(states)
    ensures forall id :: id in counts ==> counts[id] == Count(events, id)
    ensures faults == EventPart(events, StateIds(states))
  {
    var ids := StateIds(states);
    counts := map id | id in ids :: 0;
    faults := [];
    for i := 0 to |events|
      invariant counts.Keys == ids
      invariant forall id :: id in counts ==> counts[id] == Count(events[..i], id)
      invariant faults == EventPart(events[..i], ids)
    {
      assert events[..i + 1][..i] == events[..i];
      var e := events[i];
      if TaskSuccess(e) {
        counts := map id | id in counts :: if id in e.outputRefs then counts[id] + 1 else counts[id];
        if !NamesSome(e, ids) {
          faults := faults + [NamesNoState(e.id)];
        }
      }
    }
    assert events[..|events|] == events;
  }

  /** Silent exactly when every success event names a state and every state is named exactly once. */
  method EventDiagnostics(states: seq<State>, events: seq<Event>) returns (faults: seq<EventFault>)
    ensures faults == EventFaults(states, events)
    ensures faults == [] <==> Correlated(states, events)
  {
    var counts;
    counts, faults := CountEvents(states, events);
    ghost var first := faults;
    for i := 0 to |states|
      invariant faults == first + StatePart(states[..i], events)
    {
      assert states[..i + 1][..i] == states[..i];
      var n := counts[states[i].stateId];
      if n != 1 {
        faults := faults + [NotNamedOnce(states[i].stateId, n)];
      }
    }
    assert states[..|states|] == states;
    EventPartEmpty(events, StateIds(states));
    StatePartEmpty(states, events);
  }

  // ----- The generated events -----

  datatype EventIds = EventIds(id: (string, nat) -> string, jobStateId: nat -> string, clock: nat -> int)

  function JournalEvents(x: EventIds, n: nat): seq<Event> {
    if n == 0 then []
    else JournalEvents(x, n - 1) + [Event(x.id("", n), "synthetic_journal_target", "success", [], x.clock(n - 1))]
  }

  function JobEvents(x: EventIds, n: nat): seq<Event> {
    if n == 0 then []
    else
      JobEvents(x, n - 1) +
      [ Event(x.id("-job-event", (n - 1) * 2 + 1), "pipeline_job_create", "success",
              [x.jobStateId((n - 1) * 2 + 1)], x.clock(n - 1)),
        Event(x.id("-job-event", (n - 1) * 2 + 2), "pipeline_job_transition", "success",
              [x.jobStateId((n - 1) * 2 + 2)], x.clock(n)) ]
  }

  /** What happens to a task, revision by revision. */
  function Operations(states: nat): seq<string> {
    if states == 4 then ["agent_task_create", "agent_task_lease", "agent_task_submit", "agent_task_approve"]
    else ["agent_task_create", "agent_task_cancel"]
  }

  /** One event per revision of a task, naming the state of that revision. */
  function TaskEvents(x: EventIds, index: nat, operations: seq<string>, refs: seq<string>, n: nat): seq<Event>
    requires n <= |refs| <= |operations|
  {
    if n == 0 then []
    else
      TaskEvents(x, index, operations, refs, n - 1) +
      [Event(x.id("-task-event", index * 4 + n), operations[n - 1], "success", [refs[n - 1]], x.clock(index + n - 1))]
  }

  /** The state ids and operations of all tasks. */
  datatype Task = Task(operations: seq<string>, refs: seq<string>)

  predicate WellFormedTask(t: Task) { |t.refs| == |t.operations| && forall o :: o in t.operations ==> TaskOperation(o) }

  type Tasks = ts: seq<Task> | forall t :: t in ts ==> WellFormedTask(t)

  function TaskPart(x: EventIds, index: nat, t: Task): seq<Event>
    requires WellFormedTask(t)
  {
    TaskEvents(x, index, t.operations, t.refs, |t.refs|)
  }

  function TaskParts(x: EventIds, tasks: Tasks): seq<seq<Event>> {
    seq(|tasks|, i requires 0 <= i < |tasks| => assert tasks[i] in tasks; TaskPart(x, i, tasks[i]))
  }

  function AllTaskEvents(x: EventIds, tasks: Tasks): seq<Event> { Flatten(TaskParts(x, tasks), |tasks|) }

  lemma OperationsAreTasks(states: nat)
    requires states == 2 || states == 4
    ensures |Operations(states)| == states
    ensures forall o :: o in Operations(states) ==> TaskOperation(o)
  {
    assert "agent_task_create"[..11] == "agent_task_" && "agent_task_cancel"[..11] == "agent_task_";
    assert "agent_task_lease"[..11] == "agent_task_" && "agent_task_submit"[..11] == "agent_task_";
    assert "agent_task_approve"[..11] == "agent_task_";
  }

  /** The state ids of one task, and of all tasks. */
  function TaskRefs(g: Generator, index: nat, reportOnly: int): seq<string> {
    seq(StateCount(index, reportOnly), k requires 0 <= k => g.stateId(index * 4 + (k + 1)))
  }

  function TaskAt(g: Generator, index: nat, reportOnly: int): (t: Task)
    ensures WellFormedTask(t)
  {
    OperationsAreTasks(StateCount(index, reportOnly));
    Task(Operations(StateCount(index, reportOnly)), TaskRefs(g, index, reportOnly))
  }

  function AllTasks(g: Generator, tasks: nat, reportOnly: int): Tasks {
    seq(tasks, i requires 0 <= i < tasks => TaskAt(g, i, reportOnly))
  }

  function GenericEvents(x: EventIds, n: nat): seq<Event> {
    if n == 0 then []
    else
      GenericEvents(x, n - 1) +
      [Event(x.id("-generic-event", n), "synthetic_operational_activity", "success", [], x.clock(n - 1))]
  }

  function ClosingEvents(x: EventIds, tasks: Tasks, p: Profile): seq<Event>
    requires p.journals >= 0 && p.jobs >= 0
  {
    JournalEvents(x, p.journals) + JobEvents(x, p.jobs) + AllTaskEvents(x, tasks)
  }

  function Surplus(p: Profile, closing: nat): nat { if p.events > closing then p.events - closing else 0 }

  function AllEvents(x: EventIds, tasks: Tasks, p: Profile): seq<Event>
    requires p.journals >= 0 && p.jobs >= 0
  {
    var closing := ClosingEvents(x, tasks, p);
    closing + GenericEvents(x, Surplus(p, |closing|))
  }

  lemma {:induction false} JournalEventsLength(x: EventIds, n: nat)
    ensures |JournalEvents(x, n)| == n
  {
    if n > 0 {
      JournalEventsLength(x, n - 1);
    }
  }

  lemma {:induction false} JobEventsLength(x: EventIds, n: nat)
    ensures |JobEvents(x, n)| == 2 * n
  {
    if n > 0 {
      JobEventsLength(x, n - 1);
    }
  }

  lemma {:induction false} TaskEventsLength(x: EventIds, index: nat, operations: seq<string>, refs: seq<string>, n: nat)
    requires n <= |refs| <= |operations|
    ensures |TaskEvents(x, index, operations, refs, n)| == n
  {
    if n > 0 {
      TaskEventsLength(x, index, operations, refs, n - 1);
    }
  }

  lemma {:induction false} PartsLength(parts: seq<seq<Event>>, n: nat, reportOnly: nat)
    requires n <= |parts| && forall i :: 0 <= i < |parts| ==> |parts[i]| == StateCount(i, reportOnly)
    ensures |Flatten(parts, n)| == 2 * n + 2 * (if n < reportOnly then n else reportOnly)
  {
    if n > 0 {
      PartsLength(parts, n - 1, reportOnly);
    }
  }

  lemma AllTaskEventsLength(x: EventIds, tasks: Tasks, reportOnly: nat)
    requires forall i :: 0 <= i < |tasks| ==> |tasks[i].refs| == StateCount(i, reportOnly)
    ensures |AllTaskEvents(x, tasks)| == 2 * |tasks| + 2 * (if |tasks| < reportOnly then |tasks| else reportOnly)
  {
    var parts := TaskParts(x, tasks);
    forall i | 0 <= i < |tasks| ensures |parts[i]| == StateCount(i, reportOnly) {
      assert tasks[i] in tasks;
      TaskEventsLength(x, i, tasks[i].operations, tasks[i].refs, |tasks[i].refs|);
    }
    PartsLength(parts, |tasks|, reportOnly);
  }

  lemma {:induction false} GenericEventsLength(x: EventIds, n: nat)
    ensures |GenericEvents(x, n)| == n
  {
    if n > 0 {
      GenericEventsLength(x, n - 1);
    }
  }

  /**
   The events number exactly what the profile asks for, if and only if it asks for enough to close
   every journal, job and task: the rule the profile is checked by is the right one.
   */
  lemma EventCountIsExact(x: EventIds, tasks: Tasks, p: Profile)
    requires p.journals >= 0 && p.jobs >= 0 && |tasks| == p.tasks && 0 <= p.reportOnly <= p.tasks
    requires forall i :: 0 <= i < |tasks| ==> |tasks[i].refs| == StateCount(i, p.reportOnly)
    ensures |ClosingEvents(x, tasks, p)| == RequiredEvents(p)
    ensures |AllEvents(x, tasks, p)| == p.events <==> RequiredEvents(p) <= p.events
  {
    JournalEventsLength(x, p.journals);
    JobEventsLength(x, p.jobs);
    AllTaskEventsLength(x, tasks, p.reportOnly);
    GenericEventsLength(x, Surplus(p, RequiredEvents(p)));
  }

  // ----- Each state is named once -----

  lemma {:induction false} CountConcat(a: seq<Event>, b: seq<Event>, stateId: string)
    ensures Count(a + b, stateId) == Count(a, stateId) + Count(b, stateId)
  {
    if b == [] {
      assert a + b == a;
    } else {
      assert (a + b)[..|a + b| - 1] == a + b[..|b| - 1];
      CountConcat(a, b[..|b| - 1], stateId);
    }
  }

  lemma {:induction false} NothingNamed(events: seq<Event>, stateId: string)
    requires forall e :: e in events ==> !TaskSuccess(e)
    ensures Count(events, stateId) == 0
  {
    if events != [] {
      NothingNamed(events[..|events| - 1], stateId);
      assert events[|events| - 1] in events;
    }
  }

  lemma {:induction false} JournalsNameNothing(x: EventIds, n: nat)
    ensures forall e :: e in JournalEvents(x, n) ==> !TaskSuccess(e)
  {
    if n > 0 {
      JournalsNameNothing(x, n - 1);
      assert "synthetic_journal_target"[0] != "agent_task_"[0];
    }
  }

  lemma {:induction false} JobsNameNothing(x: EventIds, n: nat)
    ensures forall e :: e in JobEvents(x, n) ==> !TaskSuccess(e)
  {
    if n > 0 {
      JobsNameNothing(x, n - 1);
      assert "pipeline_job_create"[0] != "agent_task_"[0] && "pipeline_job_transition"[0] != "agent_task_"[0];
    }
  }

  lemma {:induction false} GenericNameNothing(x: EventIds, n: nat)
    ensures forall e :: e in GenericEvents(x, n) ==> !TaskSuccess(e)
  {
    if n > 0 {
      GenericNameNothing(x, n - 1);
      assert "synthetic_operational_activity"[0] != "agent_task_"[0];
    }
  }

  lemma CountAppend(events: seq<Event>, e: Event, stateId: string)
    ensures Count(events + [e], stateId) == Count(events, stateId) + if Names(e, stateId) then 1 else 0
  {
    assert (events + [e])[..|events|] == events;
  }

  lemma NamesOwnState(e: Event, own: string, stateId: string)
    requires TaskSuccess(e) && e.outputRefs == [own]
    ensures Names(e, stateId) <==> own == stateId
  {
  }

  ghost predicate DistinctNames(refs: seq<string>) {
    forall i, j :: 0 <= i < j < |refs| ==> refs[i] != refs[j]
  }

  ghost predicate Disjoint(a: seq<string>, b: seq<string>) {
    forall id :: id in a ==> id !in b
  }

  /** No state id occurs twice, neither within a task nor across tasks. */
  ghost predicate DistinctRefs(tasks: Tasks) {
    && (forall i {:trigger DistinctNames(tasks[i].refs)} :: 0 <= i < |tasks| ==> DistinctNames(tasks[i].refs))
    && (forall i, j {:trigger Disjoint(tasks[i].refs, tasks[j].refs)} ::
          0 <= i < |tasks| && 0 <= j < |tasks| && i != j ==> Disjoint(tasks[i].refs, tasks[j].refs))
  }

  /** The k-th event is a task event that names the k-th state alone. */
  ghost predicate NamesInTurn(events: seq<Event>, refs: seq<string>, k: nat)
    requires k < |events| == |refs|
  {
    TaskSuccess(events[k]) && events[k].outputRefs == [refs[k]]
  }

  lemma {:induction false} NamedInTurn(events: seq<Event>, refs: seq<string>, n: nat, id: string)
    requires n <= |events| == |refs| && DistinctNames(refs)
    requires forall k {:trigger NamesInTurn(events, refs, k)} :: 0 <= k < |refs| ==> NamesInTurn(events, refs, k)
    ensures Count(events[..n], id) == if id in refs[..n] then 1 else 0
  {
    if n > 0 {
      NamedInTurn(events, refs, n - 1, id);
      assert NamesInTurn(events, refs, n - 1);
      NamesOwnState(events[n - 1], refs[n - 1], id);
      CountAppend(events[..n - 1], events[n - 1], id);
      assert events[..n] == events[..n - 1] + [events[n - 1]];
      assert refs[..n] == refs[..n - 1] + [refs[n - 1]];
    }
  }

  lemma {:induction false} TaskEventsInTurn(
      x: EventIds, index: nat, operations: seq<string>, refs: seq<string>, n: nat, k: nat)
    requires k < n <= |refs| <= |operations|
    ensures |TaskEvents(x, index, operations, refs, n)| == n
    ensures var e := TaskEvents(x, index, operations, refs, n)[k];
      e.operation == operations[k] && e.result == "success" && e.outputRefs == [refs[k]]
  {
    if n > 1 {
      TaskEventsInTurn(x, index, operations, refs, n - 1, if k < n - 1 then k else 0);
    }
  }

  lemma WholeTaskNames(x: EventIds, index: nat, t: Task, id: string)
    requires WellFormedTask(t) && DistinctNames(t.refs)
    ensures Count(TaskEvents(x, index, t.operations, t.refs, |t.refs|), id) == if id in t.refs then 1 else 0
  {
    var n := |t.refs|;
    var events := TaskEvents(x, index, t.operations, t.refs, n);
    TaskEventsLength(x, index, t.operations, t.refs, n);
    forall k | 0 <= k < n ensures NamesInTurn(events, t.refs, k) {
      TaskEventsInTurn(x, index, t.operations, t.refs, n, k);
      assert t.operations[k] in t.operations;
    }
    NamedInTurn(events, t.refs, n, id);
    assert t.refs[..n] == t.refs && events[..n] == events;
  }

  ghost predicate NamedOnlyIn(parts: seq<seq<Event>>, j: nat, i: nat, id: string)
    requires j < |parts|
  {
    Count(parts[j], id) == if j == i then 1 else 0
  }

  lemma {:induction false} PartsNameOnce(parts: seq<seq<Event>>, n: nat, i: nat, id: string)
    requires n <= |parts|
    requires forall j {:trigger NamedOnlyIn(parts, j, i, id)} :: 0 <= j < |parts| ==> NamedOnlyIn(parts, j, i, id)
    ensures Count(Flatten(parts, n), id) == if i < n then 1 else 0
  {
    if n > 0 {
      PartsNameOnce(parts, n - 1, i, id);
      assert NamedOnlyIn(parts, n - 1, i, id);
      CountConcat(Flatten(parts, n - 1), parts[n - 1], id);
    }
  }

  lemma TasksNameEachOnce(x: EventIds, tasks: Tasks, i: nat, id: string)
    requires i < |tasks| && DistinctRefs(tasks) && id in tasks[i].refs
    ensures Count(AllTaskEvents(x, tasks), id) == 1
  {
    var parts := TaskParts(x, tasks);
    forall j | 0 <= j < |parts| ensures NamedOnlyIn(parts, j, i, id) {
      assert tasks[j] in tasks;
      assert DistinctNames(tasks[j].refs);
      assert j != i ==> Disjoint(tasks[i].refs, tasks[j].refs);
      WholeTaskNames(x, j, tasks[j], id);
    }
    PartsNameOnce(parts, |parts|, i, id);
  }

  lemma RefAt(g: Generator, index: nat, reportOnly: int, id: string) returns (r: nat)
    requires id in TaskRefs(g, index, reportOnly)
    ensures 1 <= r <= StateCount(index, reportOnly) && id == g.stateId(index * 4 + r)
  {
    var refs := TaskRefs(g, index, reportOnly);
    var k :| 0 <= k < |refs| && refs[k] == id;
    r := k + 1;
  }

  lemma TaskRefsDisjoint(g: Generator, i: nat, j: nat, reportOnly: int)
    requires InjectiveIds(g) && i != j
    ensures Disjoint(TaskRefs(g, i, reportOnly), TaskRefs(g, j, reportOnly))
  {
    forall id | id in TaskRefs(g, i, reportOnly) ensures id !in TaskRefs(g, j, reportOnly) {
      var r := RefAt(g, i, reportOnly, id);
      if id in TaskRefs(g, j, reportOnly) {
        var t := RefAt(g, j, reportOnly, id);
        assert g.stateId(i * 4 + r) == g.stateId(j * 4 + t);
        Quotient(i, r, j, t);
      }
    }
  }

  lemma TaskRefsDistinct(g: Generator, index: nat, reportOnly: int)
    requires InjectiveIds(g)
    ensures DistinctNames(TaskRefs(g, index, reportOnly))
  {
    var refs := TaskRefs(g, index, reportOnly);
    forall i, j | 0 <= i < j < |refs| ensures refs[i] != refs[j] {
      assert g.stateId(index * 4 + (i + 1)) != g.stateId(index * 4 + (j + 1));
    }
  }

  lemma AllRefsDistinct(g: Generator, tasks: nat, reportOnly: int)
    requires InjectiveIds(g)
    ensures DistinctRefs(AllTasks(g, tasks, reportOnly))
  {
    var all := AllTasks(g, tasks, reportOnly);
    forall i | 0 <= i < tasks ensures DistinctNames(all[i].refs) {
      TaskRefsDistinct(g, i, reportOnly);
    }
    forall i, j | 0 <= i < tasks && 0 <= j < tasks && i != j ensures Disjoint(all[i].refs, all[j].refs) {
      TaskRefsDisjoint(g, i, j, reportOnly);
    }
  }

  lemma OnlyTasksName(journals: seq<Event>, jobs: seq<Event>, tasks: seq<Event>, generic: seq<Event>, id: string)
    requires forall e :: e in journals ==> !TaskSuccess(e)
    requires forall e :: e in jobs ==> !TaskSuccess(e)
    requires forall e :: e in generic ==> !TaskSuccess(e)
    ensures Count(journals + jobs + tasks + generic, id) == Count(tasks, id)
  {
    NothingNamed(journals, id);
    NothingNamed(jobs, id);
    NothingNamed(generic, id);
    CountConcat(journals, jobs, id);
    CountConcat(journals + jobs, tasks, id);
    CountConcat(journals + jobs + tasks, generic, id);
  }

  lemma NamedOnce(x: EventIds, tasks: Tasks, p: Profile, i: nat, id: string)
    requires p.journals >= 0 && p.jobs >= 0 && DistinctRefs(tasks) && i < |tasks| && id in tasks[i].refs
    ensures Count(AllEvents(x, tasks, p), id) == 1
  {
    var n := Surplus(p, |ClosingEvents(x, tasks, p)|);
    JournalsNameNothing(x, p.journals);
    JobsNameNothing(x, p.jobs);
    GenericNameNothing(x, n);
    TasksNameEachOnce(x, tasks, i, id);
    OnlyTasksName(
      JournalEvents(x, p.journals), JobEvents(x, p.jobs), AllTaskEvents(x, tasks), GenericEvents(x, n), id);
  }

  // ----- Every task event names a generated state -----

  lemma {:induction false} TaskEventOrigin(
      x: EventIds, index: nat, operations: seq<string>, refs: seq<string>, n: nat, e: Event) returns (id: string)
    requires n <= |refs| <= |operations| && e in TaskEvents(x, index, operations, refs, n)
    ensures id in e.outputRefs && id in refs
  {
    if e in TaskEvents(x, index, operations, refs, n - 1) {
      id := TaskEventOrigin(x, index, operations, refs, n - 1, e);
    } else {
      id := refs[n - 1];
    }
  }

  lemma AllTaskEventOrigin(x: EventIds, tasks: Tasks, e: Event) returns (i: nat, id: string)
    requires e in AllTaskEvents(x, tasks)
    ensures i < |tasks| && id in e.outputRefs && id in tasks[i].refs
  {
    var parts := TaskParts(x, tasks);
    FlattenContents(parts, |parts|, e);
    i :| 0 <= i < |parts| && e in parts[i];
    assert tasks[i] in tasks;
    id := TaskEventOrigin(x, i, tasks[i].operations, tasks[i].refs, |tasks[i].refs|, e);
  }

  lemma ChainIsLogged(g: Generator, tasks: nat, reportOnly: int, i: nat, s: State)
    requires i < tasks && s in TaskChain(g, Creation(g, i), i, reportOnly)
    ensures s in GeneratedLog(g, tasks, reportOnly)
  {
    var chains := Chains(g, tasks, reportOnly);
    assert s in chains[i];
    FlattenContents(chains, tasks, s);
  }

  lemma ChainIdIsLogged(g: Generator, tasks: nat, reportOnly: int, i: nat, s: State)
    requires i < tasks && s in TaskChain(g, Creation(g, i), i, reportOnly)
    ensures s.stateId in StateIds(GeneratedLog(g, tasks, reportOnly))
  {
    ChainIsLogged(g, tasks, reportOnly, i, s);
  }

  lemma SlotState(g: Generator, i: nat, reportOnly: int, r: nat) returns (s: State)
    requires 1 <= r <= StateCount(i, reportOnly)
    ensures s in TaskChain(g, Creation(g, i), i, reportOnly) && s.stateId == g.stateId(i * 4 + r)
  {
    ChainAt(g, Creation(g, i), i, reportOnly, r - 1);
    s := TaskChain(g, Creation(g, i), i, reportOnly)[r - 1];
  }

  lemma StateIsLogged(g: Generator, tasks: nat, reportOnly: int, i: nat, id: string)
    requires i < tasks && id in TaskRefs(g, i, reportOnly)
    ensures id in StateIds(GeneratedLog(g, tasks, reportOnly))
  {
    var r := RefAt(g, i, reportOnly, id);
    var s := SlotState(g, i, reportOnly, r);
    ChainIdIsLogged(g, tasks, reportOnly, i, s);
  }

  lemma MemberIsRef(g: Generator, i: nat, reportOnly: int, s: State)
    requires s in TaskChain(g, Creation(g, i), i, reportOnly)
    ensures s.stateId in TaskRefs(g, i, reportOnly)
  {
    var r := ChainMember(g, Creation(g, i), i, reportOnly, s);
    assert TaskRefs(g, i, reportOnly)[r - 1] == s.stateId;
  }

  lemma LoggedStateOrigin(g: Generator, tasks: nat, reportOnly: int, s: State) returns (i: nat)
    requires s in GeneratedLog(g, tasks, reportOnly)
    ensures i < tasks && s in TaskChain(g, Creation(g, i), i, reportOnly)
  {
    var chains := Chains(g, tasks, reportOnly);
    FlattenContents(chains, tasks, s);
    i :| 0 <= i < tasks && s in chains[i];
  }

  lemma TaskSuccessIsTaskEvent(x: EventIds, tasks: Tasks, p: Profile, e: Event)
    requires p.journals >= 0 && p.jobs >= 0 && e in AllEvents(x, tasks, p) && TaskSuccess(e)
    ensures e in AllTaskEvents(x, tasks)
  {
    JournalsNameNothing(x, p.journals);
    JobsNameNothing(x, p.jobs);
    GenericNameNothing(x, Surplus(p, |ClosingEvents(x, tasks, p)|));
  }

  /** The states of the log are the ones the tasks list, each under one task. */
  ghost predicate ListsStates(tasks: Tasks, log: seq<State>) {
    && (forall i, id :: 0 <= i < |tasks| && id in tasks[i].refs ==> id in StateIds(log))
    && (forall s :: s in log ==> Lists(tasks, s.stateId))
  }

  ghost predicate Lists(tasks: Tasks, id: string) { exists i :: 0 <= i < |tasks| && id in tasks[i].refs }

  lemma EventsCorrelate(x: EventIds, tasks: Tasks, p: Profile, log: seq<State>)
    requires p.journals >= 0 && p.jobs >= 0 && DistinctRefs(tasks) && ListsStates(tasks, log)
    ensures Correlated(log, AllEvents(x, tasks, p))
  {
    var events := AllEvents(x, tasks, p);
    forall e | e in events && TaskSuccess(e) ensures NamesSome(e, StateIds(log)) {
      TaskSuccessIsTaskEvent(x, tasks, p, e);
      var i, id := AllTaskEventOrigin(x, tasks, e);
    }
    forall s | s in log ensures Count(events, s.stateId) == 1 {
      assert Lists(tasks, s.stateId);
      var i :| 0 <= i < |tasks| && s.stateId in tasks[i].refs;
      NamedOnce(x, tasks, p, i, s.stateId);
    }
  }

  lemma GeneratedTasksList(g: Generator, tasks: nat, reportOnly: int)
    ensures ListsStates(AllTasks(g, tasks, reportOnly), GeneratedLog(g, tasks, reportOnly))
  {
    var all, log := AllTasks(g, tasks, reportOnly), GeneratedLog(g, tasks, reportOnly);
    forall i, id | 0 <= i < |all| && id in all[i].refs ensures id in StateIds(log) {
      StateIsLogged(g, tasks, reportOnly, i, id);
    }
    forall s | s in log ensures Lists(all, s.stateId) {
      var i := LoggedStateOrigin(g, tasks, reportOnly, s);
      MemberIsRef(g, i, reportOnly, s);
      assert s.stateId in all[i].refs;
    }
  }

  /**
   For every valid profile whose timestamps stay inside January: as many events as asked for, Agent
   Task states the chain validator accepts, and each state named by exactly one success event.
   */
  lemma GeneratedWorkspaceIsSound(x: EventIds, g: Generator, p: Profile)
    requires Valid(p) && InJanuary(p.tasks, p.reportOnly) && InjectiveIds(g) && ReadsTimestamps(g)
    ensures |AllEvents(x, AllTasks(g, p.tasks, p.reportOnly), p)| == p.events
    ensures Accepted(GeneratedLog(g, p.tasks, p.reportOnly), g.digests)
    ensures Correlated(GeneratedLog(g, p.tasks, p.reportOnly), AllEvents(x, AllTasks(g, p.tasks, p.reportOnly), p))
  {
    GeneratedEventCount(x, g, p);
    GeneratedLogAccepted(g, p.tasks, p.reportOnly);
    AllRefsDistinct(g, p.tasks, p.reportOnly);
    GeneratedTasksList(g, p.tasks, p.reportOnly);
    EventsCorrelate(x, AllTasks(g, p.tasks, p.reportOnly), p, GeneratedLog(g, p.tasks, p.reportOnly));
  }

  // ----- The generating loop -----

  method EmitJournals(x: EventIds, n: nat) returns (events: seq<Event>)
    ensures events == JournalEvents(x, n)
  {
    events := [];
    for index := 0 to n
      invariant events == JournalEvents(x, index)
    {
      events := events + [Event(x.id("", index + 1), "synthetic_journal_target", "success", [], x.clock(index))];
    }
  }

  method EmitJobs(x: EventIds, n: nat) returns (events: seq<Event>)
    ensures events == JobEvents(x, n)
  {
    events := [];
    for index := 0 to n
      invariant events == JobEvents(x, index)
    {
      var create := Event(x.id("-job-event", index * 2 + 1), "pipeline_job_create", "success",
                          [x.jobStateId(index * 2 + 1)], x.clock(index));
      var transition := Event(x.id("-job-event", index * 2 + 2), "pipeline_job_transition", "success",
                              [x.jobStateId(index * 2 + 2)], x.clock(index + 1));
      events := events + [create, transition];
    }
  }

  method EmitTask(x: EventIds, g: Generator, index: nat, reportOnly: int) returns (events: seq<Event>)
    ensures var t := TaskAt(g, index, reportOnly); events == TaskEvents(x, index, t.operations, t.refs, |t.refs|)
  {
    events := [];
    ghost var t := TaskAt(g, index, reportOnly);
    var operations := Operations(StateCount(index, reportOnly));
    assert operations == t.operations && |operations| == |t.refs|;
    for revision := 1 to |operations| + 1
      invariant events == TaskEvents(x, index, operations, t.refs, revision - 1)
    {
      events := events + [Event(x.id("-task-event", index * 4 + revision), operations[revision - 1], "success",
                                [g.stateId(index * 4 + revision)], x.clock(index + revision - 1))];
    }
  }

  method EmitPart(x: EventIds, g: Generator, index: nat, reportOnly: int, ghost parts: seq<seq<Event>>)
      returns (events: seq<Event>)
    requires index < |parts| && parts[index] == TaskPart(x, index, TaskAt(g, index, reportOnly))
    ensures events == parts[index]
  {
    events := EmitTask(x, g, index, reportOnly);
  }

  method EmitTasks(x: EventIds, g: Generator, n: nat, reportOnly: int) returns (events: seq<Event>)
    ensures events == AllTaskEvents(x, AllTasks(g, n, reportOnly))
  {
    events := [];
    ghost var parts := TaskParts(x, AllTasks(g, n, reportOnly));
    for index := 0 to n
      invariant events == Flatten(parts, index)
    {
      var task := EmitPart(x, g, index, reportOnly, parts);
      events := events + task;
    }
  }

  method EmitGeneric(x: EventIds, n: nat) returns (events: seq<Event>)
    ensures events == GenericEvents(x, n)
  {
    events := [];
    for index := 0 to n
      invariant events == GenericEvents(x, index)
    {
      events := events +
        [Event(x.id("-generic-event", index + 1), "synthetic_operational_activity", "success", [], x.clock(index))];
    }
  }

  method EmitClosing(x: EventIds, g: Generator, p: Profile) returns (events: seq<Event>)
    requires Valid(p)
    ensures events == ClosingEvents(x, AllTasks(g, p.tasks, p.reportOnly), p)
  {
    var journals := EmitJournals(x, p.journals);
    var jobs := EmitJobs(x, p.jobs);
    var tasks := EmitTasks(x, g, p.tasks, p.reportOnly);
    events := journals + jobs + tasks;
  }

  lemma GeneratedEventCount(x: EventIds, g: Generator, p: Profile)
    requires Valid(p)
    ensures |ClosingEvents(x, AllTasks(g, p.tasks, p.reportOnly), p)| <= p.events
    ensures |AllEvents(x, AllTasks(g, p.tasks, p.reportOnly), p)| == p.events
  {
    EventCountIsExact(x, AllTasks(g, p.tasks, p.reportOnly), p);
  }

  /** All events of a profile: what closes journals, jobs and tasks, then generic activity up to the count. */
  method EmitEvents(x: EventIds, g: Generator, p: Profile) returns (events: seq<Event>)
    requires Valid(p)
    ensures events == AllEvents(x, AllTasks(g, p.tasks, p.reportOnly), p)
    ensures |events| == p.events
  {
    var closing := EmitClosing(x, g, p);
    var emitted := |closing|;
    GeneratedEventCount(x, g, p);
    var generic := EmitGeneric(x, p.events - emitted);
    events := closing + generic;
  }
}
