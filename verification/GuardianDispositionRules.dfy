/** How dispositions of one finding may follow each other, status by status. */
module GuardianDispositionRules {
  import opened Wrappers
  import opened GuardianDispositions

  /** The statuses a finding's first disposition may have. */
  const Starts: set<Status> := {Acknowledged, AcceptedRisk, RemediationPlanned, FalsePositive}

  /** Which status may come directly after which. */
  const Steps: set<(Status, Status)> := {
    (Acknowledged, AcceptedRisk), (Acknowledged, RemediationPlanned), (Acknowledged, Resolved),
    (Acknowledged, FalsePositive), (Acknowledged, Superseded),
    (AcceptedRisk, RemediationPlanned), (AcceptedRisk, Resolved), (AcceptedRisk, Superseded),
    (RemediationPlanned, AcceptedRisk), (RemediationPlanned, Resolved), (RemediationPlanned, FalsePositive),
    (RemediationPlanned, Superseded) }

  predicate Legal(statuses: seq<Status>) {
    && statuses != [] && statuses[0] in Starts
    && forall k :: 1 <= k < |statuses| ==> (statuses[k - 1], statuses[k]) in Steps
  }

  function StatusesOf(path: seq<Disposition>): (statuses: seq<Status>)
    ensures |statuses| == |path|
  {
    seq(|path|, i requires 0 <= i < |path| => path[i].status)
  }

  lemma StepListed(previous: Status, next: Status)
    ensures Allowed(previous, next) <==> (previous, next) in Steps
    ensures Initial(previous) <==> previous in Starts
    ensures Terminal(previous) <==> previous in {Resolved, FalsePositive, Superseded}
  {
  }

  lemma StatusRules(path: seq<Disposition>)
    ensures StatusesOk(path) <==> Legal(StatusesOf(path))
  {
    var statuses := StatusesOf(path);
    if path != [] {
      StepListed(path[0].status, path[0].status);
    }
    if StatusesOk(path) {
      forall k | 1 <= k < |statuses| ensures (statuses[k - 1], statuses[k]) in Steps {
        assert StepAllowed(path, k - 1);
        StepListed(statuses[k - 1], statuses[k]);
      }
    }
    if Legal(statuses) {
      forall k {:trigger StepAllowed(path, k)} | 0 <= k < |path| - 1 ensures StepAllowed(path, k) {
        assert (statuses[k + 1 - 1], statuses[k + 1]) in Steps;
        StepListed(statuses[k], statuses[k + 1]);
      }
    }
  }

  // ----- A log for every legal sequence -----

  const OneReport: seq<Report> := [Report("r", ["f"])]

  function Repeated(n: nat): (s: string)
    ensures |s| == n
  {
    seq(n, _ => 'd')
  }

  function Chained(statuses: seq<Status>, digest: string -> string): (log: seq<Disposition>)
    ensures |log| == |statuses|
  {
    seq(|statuses|, i requires 0 <= i < |statuses| =>
      Disposition(Repeated(i + 1), "r", 0, digest("f"), statuses[i], if i == 0 then None else Some(Repeated(i)), ""))
  }

  lemma ChainedIsPath(statuses: seq<Status>, digest: string -> string)
    requires Legal(statuses)
    ensures var log := Chained(statuses, digest);
      Linked(log) && StatusesOk(log) && DistinctIds(log) && StatusesOf(log) == statuses
  {
    var log := Chained(statuses, digest);
    assert StatusesOf(log) == statuses;
    StatusRules(log);
    forall i, j | 0 <= i < j < |log| ensures IdOf(log[i]) != IdOf(log[j]) {
      assert log[i].id == Repeated(i + 1) && log[j].id == Repeated(j + 1);
    }
  }

  /**
   The statuses of a finding's path are exactly the legal sequences: every accepted path is legal, and
   every legal sequence is the whole of some accepted log.
   */
  lemma DispositionPathsExactly(statuses: seq<Status>, digest: string -> string)
    ensures Legal(statuses) <==> exists path, records :: IsPathOf(path, records) && StatusesOf(path) == statuses
    ensures Legal(statuses) ==> exists log :: Accepted(log, OneReport, digest) && Linked(log) && StatusesOf(log) == statuses
  {
    if Legal(statuses) {
      var log := Chained(statuses, digest);
      ChainedIsPath(statuses, digest);
      ChainedAccepted(log, digest);
      assert IsPathOf(log, SetOf(log));
    }
    if path, records :| IsPathOf(path, records) && StatusesOf(path) == statuses {
      StatusRules(path);
    }
  }

  lemma ChainedAccepted(log: seq<Disposition>, digest: string -> string)
    requires Linked(log) && StatusesOk(log) && DistinctIds(log)
    requires forall x :: x in log ==> x.reportId == "r" && x.findingIndex == 0 && x.findingDigest == digest("f")
    ensures IsPathOf(log, SetOf(log)) && Accepted(log, OneReport, digest)
  {
    assert ReportOf(OneReport, "r") == Some(OneReport[0]);
    forall x | x in log ensures OnOnePath(OfFinding(log, KeyOf(x))) {
      OfFindingContents(log, KeyOf(x));
      assert forall y :: y in log ==> KeyOf(y) == KeyOf(x);
      assert SetOf(OfFinding(log, KeyOf(x))) == SetOf(log);
      assert IsPathOf(log, SetOf(OfFinding(log, KeyOf(x))));
    }
  }
}
