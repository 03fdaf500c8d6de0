/**
 Dispositions of Guardian findings: for every finding the records must form one path under the
 predecessor link, from an initial status along the transition table.
 */
module GuardianDispositions {
  import opened Wrappers
  import StringOrder
  import Sorting
  import opened Deduplication
  import opened Concatenation
  import opened Selection

  datatype Status = Acknowledged | AcceptedRisk | RemediationPlanned | Resolved | FalsePositive | Superseded

  datatype Disposition = Disposition(
    id: string,
    reportId: string,
    findingIndex: int,
    findingDigest: string,
    status: Status,
    previousId: Option<string>,
    rest: string)

  /** A report's findings, kept as their serialised contents. */
  datatype Report = Report(id: string, findings: seq<string>)

  datatype Key = Key(reportId: string, findingIndex: int)

  function KeyOf(x: Disposition): Key { Key(x.reportId, x.findingIndex) }

  predicate Terminal(s: Status) { s.Resolved? || s.FalsePositive? || s.Superseded? }

  predicate Initial(s: Status) { s.Acknowledged? || s.AcceptedRisk? || s.RemediationPlanned? || s.FalsePositive? }

  predicate Allowed(previous: Status, next: Status) {
    match previous
    case Acknowledged => !next.Acknowledged?
    case AcceptedRisk => next.RemediationPlanned? || next.Resolved? || next.Superseded?
    case RemediationPlanned => next.AcceptedRisk? || next.Resolved? || next.FalsePositive? || next.Superseded?
    case _ => false
  }

  // ----- Paths -----

  function IdOf(x: Disposition): string { x.id }

  ghost predicate DistinctIds(s: seq<Disposition>) {
    DistinctBy(s, IdOf)
  }

  predicate Linked(path: seq<Disposition>) {
    && path != [] && path[0].previousId.None?
    && forall k :: 1 <= k < |path| ==> path[k].previousId == Some(path[k - 1].id)
  }

  predicate StepAllowed(path: seq<Disposition>, k: nat)
    requires k + 1 < |path|
  {
    Allowed(path[k].status, path[k + 1].status)
  }

  predicate StatusesOk(path: seq<Disposition>) {
    && path != [] && Initial(path[0].status)
    && forall k {:trigger StepAllowed(path, k)} :: 0 <= k < |path| - 1 ==> StepAllowed(path, k)
  }

  /** `path` visits exactly the given records, each once. */
  ghost predicate Covers(path: seq<Disposition>, records: set<Disposition>) {
    DistinctIds(path) && forall x :: x in path <==> x in records
  }

  ghost predicate IsPathOf(path: seq<Disposition>, records: set<Disposition>) {
    Linked(path) && StatusesOk(path) && Covers(path, records)
  }

  function IndexOf(path: seq<Disposition>, x: Disposition): (k: nat)
    requires x in path
    ensures k < |path| && path[k] == x
  {
    if path[0] == x then 0 else 1 + IndexOf(path[1..], x)
  }

  lemma IdsIdentify(path: seq<Disposition>, x: Disposition, y: Disposition)
    requires DistinctIds(path) && x in path && y in path && x.id == y.id
    ensures x == y
  {
    KeyIdentifiesElement(path, IdOf, x, y);
  }

  lemma LinkedStep(path: seq<Disposition>, k: nat)
    requires Linked(path) && k < |path|
    ensures k == 0 <==> path[k].previousId.None?
    ensures k > 0 ==> path[k].previousId == Some(path[k - 1].id)
  {
  }

  /** A set of records has at most one path. */
  lemma {:induction false} PathUnique(p: seq<Disposition>, q: seq<Disposition>, records: set<Disposition>, k: nat)
    requires Linked(p) && Covers(p, records) && Linked(q) && Covers(q, records)
    requires k < |p|
    ensures k < |q| && q[k] == p[k]
  {
    assert p[k] in p && p[k] in q;
    var j := IndexOf(q, p[k]);
    LinkedStep(p, k);
    LinkedStep(q, j);
    if k > 0 {
      PathUnique(p, q, records, k - 1);
      assert q[j - 1].id == q[k - 1].id;
      assert j == k;
    }
  }

  /** A terminal status occurs only at the end of a path. */
  lemma TerminalOnlyLast(path: seq<Disposition>, k: nat)
    requires StatusesOk(path) && k < |path| - 1
    ensures !Terminal(path[k].status)
  {
    assert StepAllowed(path, k);
  }

  // ----- Reconstruction -----

  ghost predicate Keyed(remaining: map<string, Disposition>) {
    forall id :: id in remaining ==> remaining[id].id == id
  }

  function Successors(last: Disposition, remaining: map<string, Disposition>): set<string> {
    set id | id in remaining && remaining[id].previousId == Some(last.id)
  }

  /** Follows unique successors for as long as there is exactly one. */
  ghost function Extend(ordered: seq<Disposition>, remaining: map<string, Disposition>): (seq<Disposition>, bool)
    requires ordered != []
    decreases |remaining|
  {
    var successors := Successors(ordered[|ordered| - 1], remaining);
    if |remaining| == 0 then (ordered, true)
    else if |successors| != 1 then (ordered, false)
    else
      var id :| id in successors;
      assert |remaining - {id}| < |remaining| by {
        assert (remaining - {id}).Keys == remaining.Keys - {id};
      }
      Extend(ordered + [remaining[id]], remaining - {id})
  }

  lemma SingletonElement(s: set<string>, x: string)
    requires x in s
    ensures |s| == 1 <==> forall y :: y in s ==> y == x
  {
    if |s| == 1 {
      assert |s - {x}| == 0;
    }
    if forall y :: y in s ==> y == x {
      assert s == {x};
    }
  }

  /** The records of a path beyond its first `n`, by id. */
  ghost function Rest(path: seq<Disposition>, n: nat): map<string, Disposition>
    requires n <= |path|
    decreases |path| - n
  {
    if n == |path| then map[] else Rest(path, n + 1)[path[n].id := path[n]]
  }

  lemma {:induction false} RestHolds(path: seq<Disposition>, n: nat, k: nat)
    requires n <= k < |path| && DistinctIds(path)
    ensures path[k].id in Rest(path, n) && Rest(path, n)[path[k].id] == path[k]
    decreases |path| - n
  {
    if n < k {
      RestHolds(path, n + 1, k);
      assert path[n].id != path[k].id;
    }
  }

  lemma {:induction false} RestOnly(path: seq<Disposition>, n: nat, id: string) returns (k: nat)
    requires n <= |path| && id in Rest(path, n)
    ensures n <= k < |path| && path[k].id == id && Rest(path, n)[id] == path[k]
    decreases |path| - n
  {
    if id == path[n].id {
      k := n;
    } else {
      k := RestOnly(path, n + 1, id);
    }
  }

  lemma OnlyNextFollows(path: seq<Disposition>, n: nat)
    requires Linked(path) && DistinctIds(path) && 1 <= n < |path|
    ensures path[n].id in Rest(path, n) && Rest(path, n)[path[n].id] == path[n]
    ensures Successors(path[n - 1], Rest(path, n)) == {path[n].id}
  {
    RestHolds(path, n, n);
    LinkedStep(path, n);
    var rest := Rest(path, n);
    forall id | id in rest && rest[id].previousId == Some(path[n - 1].id) ensures id == path[n].id {
      var k := RestOnly(path, n, id);
      LinkedStep(path, k);
    }
  }

  lemma RestShrinks(path: seq<Disposition>, n: nat)
    requires DistinctIds(path) && n < |path|
    ensures Rest(path, n) - {path[n].id} == Rest(path, n + 1)
  {
    if path[n].id in Rest(path, n + 1) {
      var k := RestOnly(path, n + 1, path[n].id);
    }
  }

  /** Following successors retraces any path there is. */
  lemma {:induction false} ExtendRetraces(path: seq<Disposition>, n: nat)
    requires Linked(path) && DistinctIds(path) && 1 <= n <= |path|
    ensures Extend(path[..n], Rest(path, n)) == (path, true)
    decreases |path| - n
  {
    if n == |path| {
      assert path[..n] == path;
    } else {
      OnlyNextFollows(path, n);
      RestShrinks(path, n);
      assert path[..n] + [path[n]] == path[..n + 1];
      ExtendRetraces(path, n + 1);
    }
  }

  lemma ValuesSplit(remaining: map<string, Disposition>, id: string)
    requires Keyed(remaining) && id in remaining
    ensures remaining.Values == (remaining - {id}).Values + {remaining[id]}
  {
    forall x | x in remaining.Values && x != remaining[id] ensures x in (remaining - {id}).Values {
      assert x.id in remaining - {id} && (remaining - {id})[x.id] == x;
    }
  }

  /** What following successors yields is linked, and visits everything when it succeeds. */
  lemma {:induction false} ExtendLinks(ordered: seq<Disposition>, remaining: map<string, Disposition>)
    requires Linked(ordered) && DistinctIds(ordered) && Keyed(remaining)
    requires forall x :: x in ordered ==> x.id !in remaining
    ensures Linked(Extend(ordered, remaining).0) && DistinctIds(Extend(ordered, remaining).0)
    ensures Extend(ordered, remaining).1 ==>
      forall x :: x in Extend(ordered, remaining).0 <==> x in ordered || x in remaining.Values
    decreases |remaining|
  {
    var last := ordered[|ordered| - 1];
    var successors := Successors(last, remaining);
    if |remaining| != 0 && |successors| == 1 {
      var id :| id in successors && Extend(ordered, remaining) == Extend(ordered + [remaining[id]], remaining - {id});
      var smaller := remaining - {id};
      assert smaller.Keys == remaining.Keys - {id};
      var longer := ordered + [remaining[id]];
      assert Linked(longer);
      assert forall x :: x in ordered ==> x.id != id;
      ExtendLinks(longer, smaller);
      ValuesSplit(remaining, id);
    } else if |remaining| == 0 {
      assert remaining == map[];
    }
  }

  // ----- One finding -----

  datatype Fault =
    | DuplicateId | ReportUnavailable | IndexOutOfRange | DigestMismatch
    | NotOneRoot | ForkedOrDisconnected | RootStatus | TerminalSuccessor | InvalidTransition

  datatype Diagnostic = Diagnostic(id: string, fault: Fault)

  function RootsOf(records: seq<Disposition>): seq<Disposition> {
    Filter(records, (x: Disposition) => x.previousId.None?)
  }

  /** The records beyond the root, as the dictionary keyed by id; the root is the only record equal to it (`OneRootOnce`). */
  function Remaining(records: seq<Disposition>, root: Disposition): map<string, Disposition> {
    if records == [] then map[]
    else
      var last := records[|records| - 1];
      var m := Remaining(records[..|records| - 1], root);
      if last == root then m else m[last.id := last]
  }

  function TransitionFault(previous: Disposition, current: Disposition): seq<Diagnostic> {
    if Terminal(previous.status) then [Diagnostic(current.id, TerminalSuccessor)]
    else if !Allowed(previous.status, current.status) then [Diagnostic(current.id, InvalidTransition)]
    else []
  }

  function TransitionReports(path: seq<Disposition>): seq<seq<Diagnostic>>
    requires path != []
  {
    seq(|path| - 1, k requires 0 <= k < |path| - 1 => TransitionFault(path[k], path[k + 1]))
  }

  function StatusFaults(path: seq<Disposition>): seq<Diagnostic>
    requires path != []
  {
    (if Initial(path[0].status) then [] else [Diagnostic(path[0].id, RootStatus)]) +
    Flatten(TransitionReports(path), |path| - 1)
  }

  /** What the pass over one finding's records reports. */
  ghost function FindingFaults(records: seq<Disposition>): seq<Diagnostic>
    requires records != []
  {
    var roots := RootsOf(records);
    if |roots| != 1 then [Diagnostic(records[0].id, NotOneRoot)]
    else
      var (ordered, complete) := Extend([roots[0]], Remaining(records, roots[0]));
      if ordered == [] then []
      else
        (if complete then [] else [Diagnostic(ordered[|ordered| - 1].id, ForkedOrDisconnected)]) + StatusFaults(ordered)
  }

  lemma RootPresent(records: seq<Disposition>, k: nat)
    requires k < |records| && records[k].previousId.None?
    ensures RootsOf(records) != [] && records[k] in RootsOf(records)
  {
    RootsOfContents(records);
  }

  /** Where there is one root, leaving out the records equal to it leaves out that one record only. */
  lemma {:induction false} OneRootOnce(records: seq<Disposition>, i: nat, j: nat)
    requires |RootsOf(records)| == 1 && i < j < |records|
    ensures records[i] != RootsOf(records)[0] || records[j] != RootsOf(records)[0]
  {
    var init := records[..|records| - 1];
    RootsOfContents(records);
    assert RootsOf(records)[0] in RootsOf(records);
    if records[i].previousId.None? {
      RootPresent(init, i);
      if j < |init| && records[j] == records[i] {
        OneRootOnce(init, i, j);
      }
    }
  }

  lemma RootsOfContents(records: seq<Disposition>)
    ensures forall x :: x in RootsOf(records) <==> x in records && x.previousId.None?
  {
    FilterContents(records, (x: Disposition) => x.previousId.None?);
  }

  lemma {:induction false} RemainingContents(records: seq<Disposition>, root: Disposition)
    requires DistinctIds(records)
    ensures Keyed(Remaining(records, root))
    ensures forall x :: x in records && x != root ==> x.id in Remaining(records, root) && Remaining(records, root)[x.id] == x
    ensures forall id :: id in Remaining(records, root) ==>
      Remaining(records, root)[id] in records && Remaining(records, root)[id] != root
  {
    if records != [] {
      var init, last := records[..|records| - 1], records[|records| - 1];
      assert records == init + [last];
      RemainingContents(init, root);
      forall x | x in init ensures x.id != last.id {
        var k := IndexOf(init, x);
        assert records[k] == x;
      }
    }
  }

  lemma TransitionFaultEmpty(previous: Disposition, current: Disposition)
    ensures TransitionFault(previous, current) == [] <==> Allowed(previous.status, current.status)
  {
  }

  lemma StatusFaultsEmpty(path: seq<Disposition>)
    requires path != []
    ensures StatusFaults(path) == [] <==> StatusesOk(path)
  {
    var parts := TransitionReports(path);
    FlattenEmpty(parts, |parts|);
    forall k | 0 <= k < |parts| ensures parts[k] == [] <==> StepAllowed(path, k) {
      TransitionFaultEmpty(path[k], path[k + 1]);
    }
  }

  lemma RootsOfDistinct(records: seq<Disposition>)
    requires DistinctIds(records)
    ensures DistinctIds(RootsOf(records))
  {
    FilterDistinct(records, (x: Disposition) => x.previousId.None?, IdOf);
  }

  ghost function SetOf(records: seq<Disposition>): set<Disposition> { set x | x in records }

  lemma OnlyElement(s: seq<Disposition>, x: Disposition)
    requires DistinctIds(s) && x in s && forall y :: y in s ==> y == x
    ensures s == [x]
  {
    var k := IndexOf(s, x);
    assert forall i :: 0 <= i < |s| ==> s[i] in s;
    assert |s| - 1 > 0 ==> s[0] == s[|s| - 1];
  }

  lemma PathHasOneRoot(records: seq<Disposition>, path: seq<Disposition>)
    requires DistinctIds(records) && Linked(path) && Covers(path, SetOf(records))
    ensures RootsOf(records) == [path[0]]
  {
    RootsOfContents(records);
    RootsOfDistinct(records);
    var roots := RootsOf(records);
    assert path[0] in path;
    forall x | x in roots ensures x == path[0] {
      LinkedStep(path, IndexOf(path, x));
    }
    OnlyElement(roots, path[0]);
  }

  lemma RemainingIsRest(records: seq<Disposition>, path: seq<Disposition>)
    requires DistinctIds(records) && path != [] && Covers(path, SetOf(records))
    ensures Remaining(records, path[0]) == Rest(path, 1)
  {
    RemainingContents(records, path[0]);
    var a, b := Remaining(records, path[0]), Rest(path, 1);
    forall id | id in a ensures id in b && a[id] == b[id] {
      RestHolds(path, 1, IndexOf(path, a[id]));
    }
    forall id | id in b ensures id in a {
      var k := RestOnly(path, 1, id);
      assert path[k] in path && path[k] != path[0];
    }
  }

  /** The pass over one finding is silent exactly when its records form one sound path. */
  lemma FindingFaultsEmpty(records: seq<Disposition>)
    requires records != [] && DistinctIds(records)
    ensures FindingFaults(records) == [] <==> exists path :: IsPathOf(path, SetOf(records))
  {
    if path :| IsPathOf(path, SetOf(records)) {
      PathHasOneRoot(records, path);
      RemainingIsRest(records, path);
      ExtendRetraces(path, 1);
      assert path[..1] == [path[0]];
      StatusFaultsEmpty(path);
    }
    if FindingFaults(records) == [] {
      var roots := RootsOf(records);
      RootsOfContents(records);
      assert roots[0] in roots;
      var remaining := Remaining(records, roots[0]);
      RemainingContents(records, roots[0]);
      assert roots[0].id !in remaining by {
        if roots[0].id in remaining {
          IdsIdentify(records, remaining[roots[0].id], roots[0]);
        }
      }
      ExtendLinks([roots[0]], remaining);
      var path := Extend([roots[0]], remaining).0;
      StatusFaultsEmpty(path);
      forall x ensures x in path <==> x in SetOf(records) {
        if x in records && x != roots[0] {
          assert remaining[x.id] == x;
        }
      }
      assert IsPathOf(path, SetOf(records));
    }
  }

  // ----- The whole log -----

  /** All dispositions of one finding, in log order. */
  function OfFinding(log: seq<Disposition>, key: Key): seq<Disposition> {
    Filter(log, (x: Disposition) => KeyOf(x) == key)
  }

  function KeysOf(log: seq<Disposition>): seq<Key> {
    seq(|log|, i requires 0 <= i < |log| => KeyOf(log[i]))
  }

  /** The report registered last under an id. */
  function ReportOf(reports: seq<Report>, id: string): Option<Report> {
    if reports == [] then None
    else
      var last := reports[|reports| - 1];
      if last.id == id then Some(last) else ReportOf(reports[..|reports| - 1], id)
  }

  /** The disposition names a finding that exists and quotes its digest. */
  predicate Grounded(x: Disposition, reports: seq<Report>, digest: string -> string) {
    var report := ReportOf(reports, x.reportId);
    && report.Some? && 0 <= x.findingIndex < |report.value.findings|
    && x.findingDigest == digest(report.value.findings[x.findingIndex])
  }

  ghost predicate OnOnePath(records: seq<Disposition>) {
    exists path :: IsPathOf(path, SetOf(records))
  }

  ghost predicate Accepted(log: seq<Disposition>, reports: seq<Report>, digest: string -> string) {
    && DistinctIds(log)
    && (forall x :: x in log ==> Grounded(x, reports, digest))
    && (forall x :: x in log ==> OnOnePath(OfFinding(log, KeyOf(x))))
  }

  function GroundFaults(x: Disposition, reports: seq<Report>, digest: string -> string): seq<Diagnostic> {
    var report := ReportOf(reports, x.reportId);
    if report.None? then [Diagnostic(x.id, ReportUnavailable)]
    else if x.findingIndex < 0 || x.findingIndex >= |report.value.findings| then [Diagnostic(x.id, IndexOutOfRange)]
    else if x.findingDigest != digest(report.value.findings[x.findingIndex]) then [Diagnostic(x.id, DigestMismatch)]
    else []
  }

  predicate Repeats(log: seq<Disposition>, k: nat)
    requires k < |log|
  {
    exists i :: 0 <= i < k && log[i].id == log[k].id
  }

  function ItemFaults(log: seq<Disposition>, k: nat, reports: seq<Report>, digest: string -> string): seq<Diagnostic>
    requires k < |log|
  {
    (if Repeats(log, k) then [Diagnostic(log[k].id, DuplicateId)] else []) +
    GroundFaults(log[k], reports, digest)
  }

  function ItemReports(log: seq<Disposition>, reports: seq<Report>, digest: string -> string): seq<seq<Diagnostic>> {
    seq(|log|, k requires 0 <= k < |log| => ItemFaults(log, k, reports, digest))
  }

  ghost function FindingReport(log: seq<Disposition>, key: Key): seq<Diagnostic> {
    var records := OfFinding(log, key);
    if records == [] then [] else FindingFaults(records)
  }

  ghost function FindingReports(log: seq<Disposition>, keys: seq<Key>): seq<seq<Diagnostic>> {
    seq(|keys|, i requires 0 <= i < |keys| => FindingReport(log, keys[i]))
  }

  /** Every fault reported on a log, repetitions included. */
  ghost function LogFaults(log: seq<Disposition>, reports: seq<Report>, digest: string -> string): seq<Diagnostic> {
    var keys := FirstOccurrences(KeysOf(log));
    Flatten(ItemReports(log, reports, digest), |log|) + Flatten(FindingReports(log, keys), |keys|)
  }

  lemma OfFindingContents(log: seq<Disposition>, key: Key)
    ensures forall x :: x in OfFinding(log, key) <==> x in log && KeyOf(x) == key
  {
    FilterContents(log, (x: Disposition) => KeyOf(x) == key);
  }

  lemma OfFindingDistinct(log: seq<Disposition>, key: Key)
    requires DistinctIds(log)
    ensures DistinctIds(OfFinding(log, key))
  {
    FilterDistinct(log, (x: Disposition) => KeyOf(x) == key, IdOf);
  }

  lemma ItemFaultsEmpty(log: seq<Disposition>, k: nat, reports: seq<Report>, digest: string -> string)
    requires k < |log|
    ensures ItemFaults(log, k, reports, digest) == [] <==> !Repeats(log, k) && Grounded(log[k], reports, digest)
  {
  }

  lemma NothingRepeats(log: seq<Disposition>)
    ensures DistinctIds(log) <==> forall k {:trigger Repeats(log, k)} :: 0 <= k < |log| ==> !Repeats(log, k)
  {
    forall i, j | 0 <= i < j < |log| && !Repeats(log, j) ensures log[i].id != log[j].id {
    }
  }

  lemma ItemsSilent(log: seq<Disposition>, reports: seq<Report>, digest: string -> string)
    ensures Flatten(ItemReports(log, reports, digest), |log|) == [] <==>
      DistinctIds(log) && forall x :: x in log ==> Grounded(x, reports, digest)
  {
    var parts := ItemReports(log, reports, digest);
    FlattenEmpty(parts, |log|);
    NothingRepeats(log);
    forall k | 0 <= k < |log| ensures parts[k] == [] <==> !Repeats(log, k) && Grounded(log[k], reports, digest) {
      ItemFaultsEmpty(log, k, reports, digest);
    }
    assert forall k :: 0 <= k < |log| ==> log[k] in log;
  }

  lemma FindingReportEmpty(log: seq<Disposition>, key: Key)
    requires DistinctIds(log) && OfFinding(log, key) != []
    ensures FindingReport(log, key) == [] <==> OnOnePath(OfFinding(log, key))
  {
    OfFindingDistinct(log, key);
    FindingFaultsEmpty(OfFinding(log, key));
  }

  lemma FindingReportsEmpty(log: seq<Disposition>, keys: seq<Key>)
    requires DistinctIds(log)
    requires forall key :: key in keys ==> OfFinding(log, key) != []
    ensures Flatten(FindingReports(log, keys), |keys|) == [] <==>
      forall i :: 0 <= i < |keys| ==> OnOnePath(OfFinding(log, keys[i]))
  {
    var parts := FindingReports(log, keys);
    FlattenEmpty(parts, |keys|);
    forall i | 0 <= i < |keys| ensures parts[i] == [] <==> OnOnePath(OfFinding(log, keys[i])) {
      FindingReportEmpty(log, keys[i]);
    }
  }

  lemma KeysOfContents(log: seq<Disposition>)
    ensures forall x :: x in log ==> KeyOf(x) in KeysOf(log)
    ensures forall key :: key in KeysOf(log) ==> OfFinding(log, key) != []
  {
    forall x | x in log ensures KeyOf(x) in KeysOf(log) {
      assert KeysOf(log)[IndexOf(log, x)] == KeyOf(x);
    }
    forall key | key in KeysOf(log) ensures OfFinding(log, key) != [] {
      var i :| 0 <= i < |log| && KeysOf(log)[i] == key;
      OfFindingContents(log, key);
      assert log[i] in OfFinding(log, key);
    }
  }

  /** Nothing is reported exactly when the log is accepted. */
  lemma LogFaultsEmpty(log: seq<Disposition>, reports: seq<Report>, digest: string -> string)
    ensures LogFaults(log, reports, digest) == [] <==> Accepted(log, reports, digest)
  {
    ItemsSilent(log, reports, digest);
    var keys := FirstOccurrences(KeysOf(log));
    FirstOccurrencesContents(KeysOf(log));
    KeysOfContents(log);
    if DistinctIds(log) {
      FindingReportsEmpty(log, keys);
      if LogFaults(log, reports, digest) == [] {
        forall x | x in log ensures OnOnePath(OfFinding(log, KeyOf(x))) {
          assert KeyOf(x) in keys;
        }
      }
      if Accepted(log, reports, digest) {
        forall i | 0 <= i < |keys| ensures OnOnePath(OfFinding(log, keys[i])) {
          OfFindingContents(log, keys[i]);
          assert keys[i] in keys && OfFinding(log, keys[i])[0] in log;
        }
      }
    }
  }

  // ----- Heads -----

  ghost predicate IsHead(log: seq<Disposition>, x: Disposition) {
    x in log && forall y :: y in log ==> y.previousId != Some(x.id)
  }

  /** The unique path through one finding's records. */
  ghost function PathOf(log: seq<Disposition>, key: Key): (path: seq<Disposition>)
    requires OnOnePath(OfFinding(log, key))
    ensures IsPathOf(path, SetOf(OfFinding(log, key)))
  {
    var path :| IsPathOf(path, SetOf(OfFinding(log, key)));
    path
  }

  ghost predicate Steps(path: seq<Disposition>, x: Disposition, y: Disposition) {
    exists k :: 1 <= k < |path| && path[k] == y && path[k - 1] == x
  }

  /** Heads never leak across findings: a predecessor is the record one step earlier on the same path. */
  lemma PredecessorOnSamePath(
      log: seq<Disposition>, reports: seq<Report>, digest: string -> string, x: Disposition, y: Disposition)
    requires Accepted(log, reports, digest) && x in log && y in log && y.previousId == Some(x.id)
    ensures KeyOf(x) == KeyOf(y)
    ensures Steps(PathOf(log, KeyOf(y)), x, y)
  {
    var path := PathOf(log, KeyOf(y));
    OfFindingContents(log, KeyOf(y));
    var k := IndexOf(path, y);
    LinkedStep(path, k);
    assert path[k - 1] in path;
    IdsIdentify(log, path[k - 1], x);
  }

  lemma NothingFollowsLast(path: seq<Disposition>, y: Disposition)
    requires path != [] && DistinctIds(path)
    ensures !Steps(path, path[|path| - 1], y)
  {
    forall k | 0 <= k < |path| - 1 ensures path[k] != path[|path| - 1] {
      assert IdOf(path[k]) != IdOf(path[|path| - 1]);
    }
  }

  lemma LastIsHead(log: seq<Disposition>, reports: seq<Report>, digest: string -> string, key: Key, y: Disposition)
    requires Accepted(log, reports, digest) && OnOnePath(OfFinding(log, key)) && y in log
    ensures y.previousId != Some(PathOf(log, key)[|PathOf(log, key)| - 1].id)
  {
    var path := PathOf(log, key);
    OfFindingContents(log, key);
    var last := path[|path| - 1];
    assert last in path;
    NothingFollowsLast(path, y);
    if y.previousId == Some(last.id) {
      PredecessorOnSamePath(log, reports, digest, last, y);
    }
  }

  /** The head of a finding is the last record of its path, and nothing else. */
  lemma HeadIsLastOfPath(log: seq<Disposition>, reports: seq<Report>, digest: string -> string, x: Disposition)
    requires Accepted(log, reports, digest) && x in log
    ensures IsHead(log, x) <==> x == PathOf(log, KeyOf(x))[|PathOf(log, KeyOf(x))| - 1]
  {
    var path := PathOf(log, KeyOf(x));
    OfFindingContents(log, KeyOf(x));
    var k := IndexOf(path, x);
    if k < |path| - 1 {
      LinkedStep(path, k + 1);
      assert path[k + 1] in path;
    }
    forall y | y in log && k == |path| - 1 ensures y.previousId != Some(x.id) {
      LastIsHead(log, reports, digest, KeyOf(x), y);
    }
  }

  /** Every finding with a disposition has exactly one head. */
  lemma OneHeadPerFinding(log: seq<Disposition>, reports: seq<Report>, digest: string -> string, x: Disposition)
    requires Accepted(log, reports, digest) && x in log
    ensures exists h :: IsHead(log, h) && KeyOf(h) == KeyOf(x)
    ensures forall h, g :: IsHead(log, h) && IsHead(log, g) && KeyOf(h) == KeyOf(x) && KeyOf(g) == KeyOf(x) ==> h == g
  {
    var path := PathOf(log, KeyOf(x));
    OfFindingContents(log, KeyOf(x));
    var last := path[|path| - 1];
    assert last in path;
    HeadIsLastOfPath(log, reports, digest, last);
    forall h | IsHead(log, h) && KeyOf(h) == KeyOf(x) ensures h == last {
      HeadIsLastOfPath(log, reports, digest, h);
    }
  }

  /** A finding is settled only by its head: terminal statuses occur nowhere else. */
  lemma TerminalIsHead(log: seq<Disposition>, reports: seq<Report>, digest: string -> string, x: Disposition)
    requires Accepted(log, reports, digest) && x in log && Terminal(x.status)
    ensures IsHead(log, x)
  {
    var path := PathOf(log, KeyOf(x));
    OfFindingContents(log, KeyOf(x));
    var k := IndexOf(path, x);
    if k < |path| - 1 {
      TerminalOnlyLast(path, k);
    }
    HeadIsLastOfPath(log, reports, digest, x);
  }

  function Predecessors(log: seq<Disposition>): set<string> {
    set x | x in log && x.previousId.Some? :: x.previousId.value
  }

  function HeadsOf(log: seq<Disposition>, predecessors: set<string>): seq<Disposition> {
    Filter(log, (x: Disposition) => x.id !in predecessors)
  }

  function KeyLeq(a: Disposition, b: Disposition): bool {
    if a.reportId == b.reportId then a.findingIndex <= b.findingIndex else StringOrder.Leq(a.reportId, b.reportId)
  }

  /** The current dispositions: all heads, by report and finding. */
  function Current(log: seq<Disposition>): seq<Disposition> {
    Sorting.Sorted(HeadsOf(log, Predecessors(log)), KeyLeq)
  }

  lemma KeyLeqOrders()
    ensures Sorting.TotalPreorder(KeyLeq)
  {
    forall x: Disposition, y: Disposition ensures KeyLeq(x, y) || KeyLeq(y, x) {
      StringOrder.LeqTotal(x.reportId, y.reportId);
    }
    forall x: Disposition, y: Disposition, z: Disposition | KeyLeq(x, y) && KeyLeq(y, z) ensures KeyLeq(x, z) {
      if x.reportId != y.reportId && y.reportId != z.reportId {
        StringOrder.LeqTransitive(x.reportId, y.reportId, z.reportId);
        if x.reportId == z.reportId {
          StringOrder.LeqAntisymmetric(x.reportId, y.reportId);
        }
      }
    }
  }

  lemma HeadsAreHeads(log: seq<Disposition>)
    ensures forall x :: x in HeadsOf(log, Predecessors(log)) <==> IsHead(log, x)
  {
    FilterContents(log, (x: Disposition) => x.id !in Predecessors(log));
    forall x | x in log ensures x.id !in Predecessors(log) <==> IsHead(log, x) {
      if y :| y in log && y.previousId == Some(x.id) {
        assert y.previousId.value in Predecessors(log);
      }
    }
  }

  lemma HeadKeysIdentify(log: seq<Disposition>, reports: seq<Report>, digest: string -> string)
    requires Accepted(log, reports, digest)
    ensures Sorting.KeyIdentifies(HeadsOf(log, Predecessors(log)), KeyLeq)
  {
    HeadsAreHeads(log);
    forall x, y | IsHead(log, x) && IsHead(log, y) && KeyLeq(x, y) && KeyLeq(y, x) ensures x == y {
      if x.reportId != y.reportId {
        StringOrder.LeqAntisymmetric(x.reportId, y.reportId);
      }
      OneHeadPerFinding(log, reports, digest, x);
    }
  }

  /** The current view lists every head once, in strictly ascending order of findings. */
  lemma CurrentListsHeads(log: seq<Disposition>, reports: seq<Report>, digest: string -> string)
    requires Accepted(log, reports, digest)
    ensures forall x :: x in Current(log) <==> IsHead(log, x)
    ensures Sorting.IsSorted(Current(log), KeyLeq)
  {
    HeadsAreHeads(log);
    KeyLeqOrders();
    Sorting.SortedContents(HeadsOf(log, Predecessors(log)), KeyLeq);
    Sorting.SortedOrders(HeadsOf(log, Predecessors(log)), KeyLeq);
  }

  // ----- Independence of the input order -----

  lemma AcceptancePermutes(a: seq<Disposition>, b: seq<Disposition>, reports: seq<Report>, digest: string -> string)
    requires Accepted(a, reports, digest) && multiset(a) == multiset(b)
    ensures Accepted(b, reports, digest)
  {
    DistinctPermutes(a, b, IdOf);
    Sorting.SameContents(a, b);
    forall x | x in b ensures OnOnePath(OfFinding(b, KeyOf(x))) {
      OfFindingContents(a, KeyOf(x));
      OfFindingContents(b, KeyOf(x));
      assert SetOf(OfFinding(a, KeyOf(x))) == SetOf(OfFinding(b, KeyOf(x)));
      assert OnOnePath(OfFinding(a, KeyOf(x)));
    }
  }

  /** Acceptance and the current dispositions depend on what is logged, not on its order. */
  lemma OrderIndependent(a: seq<Disposition>, b: seq<Disposition>, reports: seq<Report>, digest: string -> string)
    requires multiset(a) == multiset(b)
    ensures Accepted(a, reports, digest) <==> Accepted(b, reports, digest)
    ensures Accepted(a, reports, digest) ==> Current(a) == Current(b)
  {
    if Accepted(a, reports, digest) {
      AcceptancePermutes(a, b, reports, digest);
      Sorting.SameContents(a, b);
      assert Predecessors(a) == Predecessors(b);
      var keep := (x: Disposition) => x.id !in Predecessors(a);
      FilterPermutes(a, b, keep);
      HeadKeysIdentify(a, reports, digest);
      KeyLeqOrders();
      Sorting.SortedOrderIndependent(HeadsOf(a, Predecessors(a)), HeadsOf(b, Predecessors(b)), KeyLeq);
    }
    if Accepted(b, reports, digest) {
      AcceptancePermutes(b, a, reports, digest);
    }
  }
}
