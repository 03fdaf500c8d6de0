/** The passes that check a log of dispositions and list the current ones. */
module GuardianDispositionDiagnostics {
  import opened Wrappers
  import opened Deduplication
  import opened Concatenation
  import opened GuardianDispositions
  import Sorting

  // ----- One finding -----

  method FindRoots(records: seq<Disposition>) returns (roots: seq<Disposition>)
    ensures roots == RootsOf(records)
  {
    roots := [];
    for i := 0 to |records|
      invariant roots == RootsOf(records[..i])
    {
      assert records[..i + 1][..i] == records[..i];
      if records[i].previousId.None? {
        roots := roots + [records[i]];
      }
    }
    assert records[..|records|] == records;
  }

  method CollectRemaining(records: seq<Disposition>, root: Disposition) returns (remaining: map<string, Disposition>)
    ensures remaining == Remaining(records, root)
  {
    remaining := map[];
    for i := 0 to |records|
      invariant remaining == Remaining(records[..i], root)
    {
      assert records[..i + 1][..i] == records[..i];
      if records[i] != root {
        remaining := remaining[records[i].id := records[i]];
      }
    }
    assert records[..|records|] == records;
  }

  /** Grows the path by the unique successor until nothing remains or the successor is not unique. */
  method Follow(root: Disposition, records: map<string, Disposition>) returns (ordered: seq<Disposition>, complete: bool)
    ensures (ordered, complete) == Extend([root], records)
    ensures ordered != []
  {
    ordered := [root];
    complete := true;
    var remaining := records;
    while |remaining| != 0
      invariant ordered != []
      invariant complete
      invariant Extend(ordered, remaining) == Extend([root], records)
      decreases |remaining|
    {
      var successors := Successors(ordered[|ordered| - 1], remaining);
      if |successors| != 1 {
        complete := false;
        break;
      }
      var id :| id in successors;
      SingletonElement(successors, id);
      assert (remaining - {id}).Keys == remaining.Keys - {id};
      ordered, remaining := ordered + [remaining[id]], remaining - {id};
    }
  }

  method CheckTransition(previous: Disposition, current: Disposition) returns (faults: seq<Diagnostic>)
    ensures faults == TransitionFault(previous, current)
  {
    faults := [];
    if Terminal(previous.status) {
      faults := [Diagnostic(current.id, TerminalSuccessor)];
    } else if !Allowed(previous.status, current.status) {
      faults := [Diagnostic(current.id, InvalidTransition)];
    }
  }

  method CheckTransitions(path: seq<Disposition>) returns (faults: seq<Diagnostic>)
    requires path != []
    ensures faults == Flatten(TransitionReports(path), |path| - 1)
  {
    faults := [];
    ghost var parts := TransitionReports(path);
    for k := 1 to |path|
      invariant faults == Flatten(parts, k - 1)
    {
      var found := CheckTransition(path[k - 1], path[k]);
      assert parts[k - 1] == found;
      faults := faults + found;
    }
  }

  method CheckStatuses(path: seq<Disposition>) returns (faults: seq<Diagnostic>)
    requires path != []
    ensures faults == StatusFaults(path)
  {
    var transitions := CheckTransitions(path);
    faults := (if Initial(path[0].status) then [] else [Diagnostic(path[0].id, RootStatus)]) + transitions;
  }

  method CheckFinding(records: seq<Disposition>) returns (faults: seq<Diagnostic>)
    requires records != []
    ensures faults == FindingFaults(records)
  {
    var roots := FindRoots(records);
    if |roots| != 1 {
      return [Diagnostic(records[0].id, NotOneRoot)];
    }
    var remaining := CollectRemaining(records, roots[0]);
    var ordered, complete := Follow(roots[0], remaining);
    faults := CheckStatuses(ordered);
    if !complete {
      faults := [Diagnostic(ordered[|ordered| - 1].id, ForkedOrDisconnected)] + faults;
    }
  }

  // ----- The whole log -----

  method FindReport(reports: seq<Report>, id: string) returns (report: Option<Report>)
    ensures report == ReportOf(reports, id)
  {
    report := None;
    for i := 0 to |reports|
      invariant report == ReportOf(reports[..i], id)
    {
      assert reports[..i + 1][..i] == reports[..i];
      if reports[i].id == id {
        report := Some(reports[i]);
      }
    }
    assert reports[..|reports|] == reports;
  }

  method CheckGround(x: Disposition, reports: seq<Report>, digest: string -> string) returns (faults: seq<Diagnostic>)
    ensures faults == GroundFaults(x, reports, digest)
  {
    var report := FindReport(reports, x.reportId);
    faults := [];
    if report.None? {
      faults := [Diagnostic(x.id, ReportUnavailable)];
    } else if x.findingIndex < 0 || x.findingIndex >= |report.value.findings| {
      faults := [Diagnostic(x.id, IndexOutOfRange)];
    } else if x.findingDigest != digest(report.value.findings[x.findingIndex]) {
      faults := [Diagnostic(x.id, DigestMismatch)];
    }
  }

  method CheckItems(log: seq<Disposition>, reports: seq<Report>, digest: string -> string) returns (faults: seq<Diagnostic>)
    ensures faults == Flatten(ItemReports(log, reports, digest), |log|)
  {
    var seen: set<string> := {};
    faults := [];
    ghost var parts := ItemReports(log, reports, digest);
    for k := 0 to |log|
      invariant forall id :: id in seen <==> exists i :: 0 <= i < k && log[i].id == id
      invariant faults == Flatten(parts, k)
    {
      var duplicate := if log[k].id in seen then [Diagnostic(log[k].id, DuplicateId)] else [];
      assert log[k].id in seen <==> Repeats(log, k);
      var ground := CheckGround(log[k], reports, digest);
      assert parts[k] == duplicate + ground;
      faults := faults + (duplicate + ground);
      seen := seen + {log[k].id};
    }
  }

  type ByFinding = map<Key, seq<Disposition>>

  function Entries(byFinding: ByFinding, key: Key): seq<Disposition> {
    if key in byFinding then byFinding[key] else []
  }

  ghost predicate Groups(byFinding: ByFinding, log: seq<Disposition>) {
    && (forall key :: key in byFinding <==> key in FirstOccurrences(KeysOf(log)))
    && (forall key {:trigger OfFinding(log, key)} :: OfFinding(log, key) == Entries(byFinding, key))
  }

  /** Files one disposition under its finding. */
  method FileItem(byFinding: ByFinding, log: seq<Disposition>, i: nat) returns (byFinding': ByFinding, isNew: bool)
    requires i < |log| && Groups(byFinding, log[..i])
    ensures Groups(byFinding', log[..i + 1])
    ensures FirstOccurrences(KeysOf(log[..i + 1])) ==
      FirstOccurrences(KeysOf(log[..i])) + if isNew then [KeyOf(log[i])] else []
  {
    var key := KeyOf(log[i]);
    GroupingStep(log, i);
    isNew := key !in byFinding;
    byFinding' := byFinding[key := Entries(byFinding, key) + [log[i]]];
    forall k ensures OfFinding(log[..i + 1], k) == Entries(byFinding', k) {
      assert OfFinding(log[..i], k) == Entries(byFinding, k);
    }
  }

  lemma GroupingStep(log: seq<Disposition>, i: nat)
    requires i < |log|
    ensures forall key {:trigger OfFinding(log[..i + 1], key)} ::
      (OfFinding(log[..i + 1], key) == OfFinding(log[..i], key) + if KeyOf(log[i]) == key then [log[i]] else [])
    ensures var keys := KeysOf(log[..i]);
      FirstOccurrences(KeysOf(log[..i + 1])) == FirstOccurrences(keys) + if KeyOf(log[i]) in keys then [] else [KeyOf(log[i])]
    ensures forall key :: key in FirstOccurrences(KeysOf(log[..i])) <==> key in KeysOf(log[..i])
  {
    assert log[..i + 1][..i] == log[..i];
    var keys := KeysOf(log[..i]);
    assert KeysOf(log[..i + 1]) == keys + [KeyOf(log[i])];
    assert (keys + [KeyOf(log[i])])[..|keys|] == keys;
    FirstOccurrencesContents(keys);
  }

  /** The dictionary of findings: its keys in order of first mention, and the records of each. */
  method GroupByFinding(log: seq<Disposition>) returns (order: seq<Key>, byFinding: ByFinding)
    ensures order == FirstOccurrences(KeysOf(log))
    ensures Groups(byFinding, log)
  {
    order, byFinding := [], map[];
    for i := 0 to |log|
      invariant order == FirstOccurrences(KeysOf(log[..i]))
      invariant Groups(byFinding, log[..i])
    {
      var isNew;
      byFinding, isNew := FileItem(byFinding, log, i);
      if isNew {
        order := order + [KeyOf(log[i])];
      }
    }
    assert log[..|log|] == log;
  }

  method ReportFinding(log: seq<Disposition>, byFinding: ByFinding, key: Key) returns (faults: seq<Diagnostic>)
    requires Groups(byFinding, log) && key in byFinding
    ensures faults == FindingReport(log, key)
  {
    var records := byFinding[key];
    faults := [];
    if records != [] {
      faults := CheckFinding(records);
    }
  }

  method ReportNext(
      log: seq<Disposition>, byFinding: ByFinding, key: Key, ghost parts: seq<seq<Diagnostic>>, ghost i: nat)
      returns (faults: seq<Diagnostic>)
    requires Groups(byFinding, log) && key in byFinding
    requires i < |parts| && parts[i] == FindingReport(log, key)
    ensures faults == parts[i]
  {
    faults := ReportFinding(log, byFinding, key);
  }

  method CheckFindings(log: seq<Disposition>) returns (faults: seq<Diagnostic>)
    ensures var keys := FirstOccurrences(KeysOf(log)); faults == Flatten(FindingReports(log, keys), |keys|)
  {
    var order, byFinding := GroupByFinding(log);
    faults := [];
    ghost var parts := FindingReports(log, order);
    for i := 0 to |order|
      invariant faults == Flatten(parts, i)
    {
      var found := ReportNext(log, byFinding, order[i], parts, i);
      faults := faults + found;
    }
  }

  /** Silent exactly when every finding's dispositions form one sound path. */
  method GuardianDispositionDiagnostics(log: seq<Disposition>, reports: seq<Report>, digest: string -> string)
      returns (diagnostics: seq<Diagnostic>)
    ensures diagnostics == FirstOccurrences(LogFaults(log, reports, digest))
    ensures diagnostics == [] <==> Accepted(log, reports, digest)
  {
    var items := CheckItems(log, reports, digest);
    var findings := CheckFindings(log);
    LogFaultsEmpty(log, reports, digest);
    FirstOccurrencesContents(LogFaults(log, reports, digest));
    diagnostics := Deduplicate(items + findings);
  }

  method ListHeads(log: seq<Disposition>, predecessors: set<string>) returns (heads: seq<Disposition>)
    ensures heads == HeadsOf(log, predecessors)
  {
    heads := [];
    for i := 0 to |log|
      invariant heads == HeadsOf(log[..i], predecessors)
    {
      assert log[..i + 1][..i] == log[..i];
      if log[i].id !in predecessors {
        heads := heads + [log[i]];
      }
    }
    assert log[..|log|] == log;
  }

  /** The heads of an accepted log by report and finding; the first diagnostic of any other log. */
  method CurrentGuardianDispositions(log: seq<Disposition>, reports: seq<Report>, digest: string -> string)
      returns (r: Result<seq<Disposition>, Diagnostic>)
    ensures r.Ok? <==> Accepted(log, reports, digest)
    ensures r.Ok? ==> r.value == Current(log)
    ensures r.Ok? ==> forall x :: x in r.value <==> IsHead(log, x)
    ensures r.Err? ==> LogFaults(log, reports, digest) != [] && r.error == LogFaults(log, reports, digest)[0]
  {
    var diagnostics := GuardianDispositionDiagnostics(log, reports, digest);
    if diagnostics != [] {
      FirstStaysFirst(LogFaults(log, reports, digest));
      return Err(diagnostics[0]);
    }
    var heads := ListHeads(log, Predecessors(log));
    CurrentListsHeads(log, reports, digest);
    return Ok(Sorting.Sorted(heads, KeyLeq));
  }

  lemma {:induction false} FirstStaysFirst(faults: seq<Diagnostic>)
    requires faults != []
    ensures FirstOccurrences(faults) != [] && FirstOccurrences(faults)[0] == faults[0]
  {
    if |faults| > 1 {
      FirstStaysFirst(faults[..|faults| - 1]);
    }
  }
}
