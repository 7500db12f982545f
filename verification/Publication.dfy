/** Which findings a verification publishes, in terms of the report alone (cmd/finding_verification.go). */
module Publication {
  import opened Prelude
  import opened Findings
  import opened Sources
  import opened Verify
  import opened Replay
  import opened Candidates
  import opened Publish
  import opened Verdicts

  /** The reason is one that the host gives when a verification did not take place. */
  ghost predicate Operational(reason: string) {
    || "Verification provider unavailable." <= reason
    || "Verification provider request failed." <= reason
    || "Verification canceled." <= reason
    || "Verification output exceeds " <= reason
    || "Candidate context exceeds " <= reason
    || "Invalid verification decision:" <= reason
    || "Verification remained incomplete." <= reason
  }

  /** An undecided finding is trusted when its reviewer is sure, verification took place, and a usable line is named. */
  ghost predicate Trusted(c: Candidate, d: Decision) {
    && d.status == Unresolved && c.finding.confidence == "high" && c.contextError == ""
    && d.failure == NoFailure && !Operational(d.reason)
    && (CitationCanAnchor(c, d.evidence) || EvidenceCanAnchor(c, c.finding.evidence))
  }

  lemma OperationalMeans(reason: string)
    ensures OperationalFailure(reason) <==> Operational(reason)
  {
    var o := OPERATIONAL;
    assert OperationalFailure(reason) <==>
             o[0] <= reason || o[1] <= reason || o[2] <= reason || o[3] <= reason || o[4] <= reason || o[5] <= reason
             || o[6] <= reason by {
      hide OPERATIONAL;
    }
  }

  lemma PublishesMeans(c: Candidate, d: Decision)
    ensures Publishes(c, d) <==> d.status == Keep || Trusted(c, d)
  {
    hide CausalAnchor, OperationalFailure, Operational, CitationCanAnchor, EvidenceCanAnchor;
    OperationalMeans(d.reason);
    AnchorExistsIff(c, d);
  }

  /**
   * The findings of a run that are left, `from`, are those that the verifier keeps and those it leaves undecided while
   * they can be trusted; they stand in their order, each with its own candidate and decision.
   */
  lemma {:induction false} FindingIsLeftIff(setup: Setup, runs: seq<ReviewRun>, model: Option<Model>,
                                            size: Snapshot -> nat, report: Report, i: nat) returns (from: seq<nat>)
    requires Run(Opened(setup, runs), model, setup.Reading(), size) == Ok(report) && i < |runs|
    ensures |report.decisions| == |report.snapshot.candidates| == Offset(runs, |runs|)
    ensures Offset(runs, i) + |RunFindings(runs[i])| <= |report.decisions|
    ensures RunIsRight(setup.allFiles, runs[i],
                       FilteredRuns(runs, report.snapshot.candidates, report.decisions, |runs|)[i],
                       report.snapshot.candidates, report.decisions, Offset(runs, i), from)
    ensures forall j :: 0 <= j < |RunFindings(runs[i])| ==>
              var (c, d) := (report.snapshot.candidates[Offset(runs, i) + j], report.decisions[Offset(runs, i) + j]);
              c.finding == RunFindings(runs[i])[j] && (j in from <==> d.status == Keep || Trusted(c, d))
  {
    hide *;
    from := FilteredRunIsRight(setup, runs, model, size, report, i);
    var start := Offset(runs, i);
    forall j | 0 <= j < |RunFindings(runs[i])|
      ensures var (c, d) := (report.snapshot.candidates[start + j], report.decisions[start + j]);
              c.finding == RunFindings(runs[i])[j] && (j in from <==> d.status == Keep || Trusted(c, d))
    {
      DecisionsArePaired(setup, runs, model, size, report, i, j);
      var (c, d) := (report.snapshot.candidates[start + j], report.decisions[start + j]);
      PublishesMeans(c, d);
      LeftIsPublished(setup.allFiles, runs[i],
                      FilteredRuns(runs, report.snapshot.candidates, report.decisions, |runs|)[i],
                      report.snapshot.candidates, report.decisions, start, from, j);
    }
  }

  lemma LeftIsPublished(allFiles: bool, run: ReviewRun, filtered: ReviewRun, candidates: seq<Candidate>,
                        decisions: seq<Decision>, start: nat, from: seq<nat>, j: nat)
    requires start + |RunFindings(run)| <= |candidates| == |decisions| && j < |RunFindings(run)|
    requires RunIsRight(allFiles, run, filtered, candidates, decisions, start, from)
    ensures j in from <==> Publishes(candidates[start + j], decisions[start + j])
  {
    hide Publishes, CausalAnchor;
    if j in from {
      var m :| 0 <= m < |from| && from[m] == j;
    }
  }

  /** Without a provider, or without a prepared context, every finding is withheld. */
  lemma {:induction false} UnverifiedIsWithheld(setup: Setup, runs: seq<ReviewRun>, model: Option<Model>,
                                                size: Snapshot -> nat, report: Report, i: nat)
    requires Run(Opened(setup, runs), model, setup.Reading(), size) == Ok(report) && i < |runs|
    requires model.None? || setup.contextFailed || setup.view.None?
    ensures Offset(runs, |runs|) == |report.snapshot.candidates| == |report.decisions|
    ensures RunFindings(FilteredRuns(runs, report.snapshot.candidates, report.decisions, |runs|)[i]) == []
  {
    hide *;
    var from := FindingIsLeftIff(setup, runs, model, size, report, i);
    var filtered := FilteredRuns(runs, report.snapshot.candidates, report.decisions, |runs|)[i];
    FromFits(setup.allFiles, runs[i], filtered, report.snapshot.candidates, report.decisions, Offset(runs, i), from);
    forall m | 0 <= m < |from| ensures from[m] !in from {
      UnverifiedDecision(setup, runs, model, size, report, i, from[m]);
    }
    NoneLeft(from);
  }

  lemma NoneLeft(from: seq<nat>)
    requires forall m :: 0 <= m < |from| ==> from[m] !in from
    ensures from == []
  {
    HeadIsMember(from);
  }

  lemma HeadIsMember(s: seq<nat>)
    ensures s != [] ==> s[0] in s
  {
  }

  lemma FromFits(allFiles: bool, run: ReviewRun, filtered: ReviewRun, candidates: seq<Candidate>,
                 decisions: seq<Decision>, start: nat, from: seq<nat>)
    requires start + |RunFindings(run)| <= |candidates| == |decisions|
    requires RunIsRight(allFiles, run, filtered, candidates, decisions, start, from)
    ensures |from| == |RunFindings(filtered)| && forall m :: 0 <= m < |from| ==> from[m] < |RunFindings(run)|
  {
  }

  lemma {:induction false} UnverifiedDecision(setup: Setup, runs: seq<ReviewRun>, model: Option<Model>,
                                              size: Snapshot -> nat, report: Report, i: nat, j: nat)
    requires Run(Opened(setup, runs), model, setup.Reading(), size) == Ok(report)
    requires i < |runs| && j < |RunFindings(runs[i])|
    requires model.None? || setup.contextFailed || setup.view.None?
    ensures Offset(runs, i) + j < |report.decisions| == |report.snapshot.candidates|
    ensures var (c, d) := (report.snapshot.candidates[Offset(runs, i) + j], report.decisions[Offset(runs, i) + j]);
            d.status != Keep && !Trusted(c, d)
  {
    hide *;
    var k := Offset(runs, i) + j;
    DecisionsArePaired(setup, runs, model, size, report, i, j);
    NothingWasAsked(setup, runs, i, j);
    DecisionOf(Opened(setup, runs), model, setup.Reading(), size, report, k);
    FailureIsNotTrusted(report.snapshot.candidates[k], report.decisions[k]);
  }

  lemma FailureIsNotTrusted(c: Candidate, d: Decision)
    requires d.status == Unresolved && d.failure != NoFailure
    ensures d.status != Keep && !Trusted(c, d)
  {
    hide Operational, CitationCanAnchor, EvidenceCanAnchor;
  }

  lemma NothingWasAsked(setup: Setup, runs: seq<ReviewRun>, i: nat, j: nat)
    requires i < |runs| && j < |RunFindings(runs[i])|
    ensures Offset(runs, i) + j < |Opened(setup, runs).candidates|
    ensures setup.contextFailed || setup.view.None? ==>
              Opened(setup, runs).candidates[Offset(runs, i) + j].contextError != ""
  {
    hide Prepared, CandidateId, RunFindings;
    SlotOf(runs, |runs|, i, j);
  }

  /** A run's decision on a candidate that is not asked about is a failure. */
  lemma {:induction false} DecisionOf(s: Snapshot, model: Option<Model>, reader: Option<Reader>, size: Snapshot -> nat,
                                      report: Report, k: nat)
    requires Run(s, model, reader, size) == Ok(report) && k < |s.candidates|
    requires s.candidates[k].contextError != "" || model.None?
    ensures k < |report.decisions|
    ensures report.decisions[k].status == Unresolved && report.decisions[k].failure != NoFailure
  {
    hide VerifySpec, ValidSnapshot, Clean;
    UnaskedIsUnresolved(model, reader, CleanCandidate(s.candidates[k]));
  }
}
