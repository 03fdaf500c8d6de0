/** A log on which the Agent Task validator raises instead of reporting. */
module AgentTaskExamples {
  import opened Wrappers
  import opened AgentTaskRegistry
  import opened AgentTasks
  import opened AgentTaskLog
  import opened AgentTaskDiagnostics
  import Sorting

  function CreationOf(task: string, lineage: Option<Lineage>): Frozen {
    Frozen(task, KnowledgeQueryReport, "p5c-knowledge-query-report@1.0", "p8-v1", [], "", "", task, lineage, 0, "")
  }

  /** A superseded task that recorded no decision. */
  const Undecided :=
    State("s1", 1, None, CreationOf("first", None), Superseded, None, None, None, true, 0)

  /** A new task that says it refreshes the superseded one. */
  const Refreshing :=
    State("s2", 1, None, CreationOf("second", Some(RefreshLineage("first", ""))), Created, None, None, None, false, 0)

  const UndecidedLog := [Undecided, Refreshing]

  lemma HeadOfUndecided()
    ensures Head(UndecidedLog, "first") == Some(Undecided)
  {
    var log := UndecidedLog;
    assert log[..1] == [Undecided] && [Undecided][..0] == [];
    assert StatesOf([], "first") == [];
    assert StatesOf([Undecided], "first") == [Undecided];
    assert Refreshing.frozen.taskId != "first" by {
      assert |"first"| != |"second"|;
    }
    assert StatesOf(log, "first") == [Undecided];
    Sorting.SortedContents([Undecided], RevisionLeq);
    assert Ordered(log, "first") == [Undecided];
  }

  /** The refreshing task's lineage check reads the decision its predecessor does not have. */
  lemma MissingDecisionBreaks()
    ensures Refreshing in UndecidedLog && LineageBreaks(UndecidedLog, Refreshing)
  {
    HeadOfUndecided();
    assert |"first"| != |"second"|;
  }

  /** So the validator raises, whatever the digests. */
  method ValidateUndecided(digests: Digests) returns (r: Option<seq<Diagnostic>>)
    ensures r.None?
  {
    MissingDecisionBreaks();
    r := AgentTaskChainDiagnostics(UndecidedLog, digests);
  }
}
