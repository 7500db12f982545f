/** A whole verification run, its saved report, and replaying the report (internal/findingverify/verify.go). */
module Replay {
  import opened Prelude
  import opened RegionGroups
  import opened Sources
  import opened Verify
  import Findings

  const VERSION := "adversary.finding-verification.v1"
  const MAX_CANDIDATES := 1000
  const MAX_SNAPSHOT_BYTES := 64 * 1024 * 1024

  datatype Snapshot = Snapshot(version: string, base: string, head: string, candidates: seq<Candidate>)

  datatype Report = Report(snapshot: Snapshot, decisions: seq<Decision>, calls: seq<Call>)

  datatype RunError = InvalidSnapshot | SnapshotTooLarge

  // ---- accepting a snapshot ----

  predicate ValidRegions(regions: seq<Region>) {
    forall k :: 0 <= k < |regions| ==> ValidPath(regions[k].path) && 1 <= regions[k].start <= regions[k].end
  }

  predicate ValidSources(sources: seq<Source>) {
    forall k :: 0 <= k < |sources| ==> sources[k].id == SourceId(sources[k]) && sources[k].startLine >= 1
  }

  predicate ValidCandidate(c: Candidate) {
    c.id != "" && ValidRegions(c.changedRegions) && ValidSources(c.sources) && ValidSources(c.retrieved)
  }

  predicate ValidSnapshot(s: Snapshot) {
    && s.version == VERSION && |s.candidates| <= MAX_CANDIDATES
    && (forall i :: 0 <= i < |s.candidates| ==> ValidCandidate(s.candidates[i]))
    && forall i, j :: 0 <= i < j < |s.candidates| ==> s.candidates[i].id != s.candidates[j].id
  }

  method ValidateSnapshot(s: Snapshot) returns (ok: bool)
    ensures ok == ValidSnapshot(s)
  {
    if s.version != VERSION || |s.candidates| > MAX_CANDIDATES {
      return false;
    }
    var seen: set<string> := {};
    for i := 0 to |s.candidates|
      invariant forall k :: 0 <= k < i ==> ValidCandidate(s.candidates[k]) && s.candidates[k].id in seen
      invariant forall id :: id in seen ==> exists k :: 0 <= k < i && s.candidates[k].id == id
      invariant forall k, m :: 0 <= k < m < i ==> s.candidates[k].id != s.candidates[m].id
    {
      var c := s.candidates[i];
      if c.id == "" || c.id in seen {
        return false;
      }
      seen := seen + {c.id};
      if !ValidRegions(c.changedRegions) || !ValidSources(c.sources) || !ValidSources(c.retrieved) {
        return false;
      }
    }
    return true;
  }

  // ---- the private copy every run works on ----

  function CleanSources(sources: seq<Source>): (cleaned: seq<Source>)
    ensures |cleaned| == |sources|
    ensures forall k :: 0 <= k < |sources| ==> cleaned[k] == CleanSource(sources[k])
  {
    seq(|sources|, k requires 0 <= k < |sources| => CleanSource(sources[k]))
  }

  function CleanCandidate(c: Candidate): Candidate {
    c.(patch := Clean(c.patch), sources := CleanSources(c.sources), retrieved := CleanSources(c.retrieved))
  }

  /** Marshalling a snapshot and unmarshalling it again. */
  function CleanSnapshot(s: Snapshot): (cleaned: Snapshot)
    ensures |cleaned.candidates| == |s.candidates|
    ensures forall i :: 0 <= i < |s.candidates| ==> cleaned.candidates[i] == CleanCandidate(s.candidates[i])
  {
    s.(candidates := seq(|s.candidates|, i requires 0 <= i < |s.candidates| => CleanCandidate(s.candidates[i])))
  }

  // ---- a run ----

  function Outcomes(model: Option<Model>, reader: Option<Reader>, candidates: seq<Candidate>): (outcomes: seq<Outcome>)
    ensures |outcomes| == |candidates|
    ensures forall i :: 0 <= i < |candidates| ==> outcomes[i] == VerifySpec(model, reader, candidates[i])
  {
    seq(|candidates|, i requires 0 <= i < |candidates| => VerifySpec(model, reader, candidates[i]))
  }

  /** The report assembled from the slots the workers filled. */
  function Assemble(saved: Snapshot, outcomes: seq<Outcome>): (report: Report)
    requires |outcomes| == |saved.candidates|
    ensures |report.decisions| == |report.snapshot.candidates| == |outcomes|
    ensures forall i :: 0 <= i < |outcomes| ==>
              report.decisions[i] == outcomes[i].decision
              && report.snapshot.candidates[i] == saved.candidates[i].(retrieved := outcomes[i].retrieved)
  {
    var n := |outcomes|;
    Report(
      saved.(candidates := seq(n, i requires 0 <= i < n => saved.candidates[i].(retrieved := outcomes[i].retrieved))),
      seq(n, i requires 0 <= i < n => outcomes[i].decision),
      Flatten(seq(n, i requires 0 <= i < n => outcomes[i].calls)))
  }

  function Run(s: Snapshot, model: Option<Model>, reader: Option<Reader>,
               size: Snapshot -> nat): Result<Report, RunError> {
    if !ValidSnapshot(s) then Err(InvalidSnapshot)
    else if size(s) > MAX_SNAPSHOT_BYTES then Err(SnapshotTooLarge)
    else Ok(Assemble(CleanSnapshot(s), Outcomes(model, reader, CleanSnapshot(s).candidates)))
  }

  // ---- accepted stages keep the decision rules ----

  lemma {:induction false} AskIsValid(m: Model, working: Candidate, previous: Option<Decision>, round: int,
                                      attempt: nat, invalidOutput: Option<Json>, flaw: Option<Flaw>, calls: seq<Call>)
    requires 1 <= attempt && (attempt > 3 ==> flaw.Some?)
    ensures var stage := Ask(m, working, previous, round, attempt, invalidOutput, flaw, calls);
            && |stage.calls| <= |calls| + (if attempt > 3 then 0 else 4 - attempt)
            && (stage.result.Ok? ==>
                  Validate(stage.result.value, working).None? && stage.result.value.failure.NoFailure?)
            && (stage.result.Err? ==> !stage.result.error.NoFailure?)
    decreases 4 - attempt
  {
    hide Prompt, TrimSpace, Utf8Length;
    if attempt <= 3 {
      var input := Prompt(working, previous, invalidOutput, flaw);
      var (verdict, call) := Judge(m.review(input), working, NewCall(working, round, attempt, input));
      if verdict.Correct? {
        AskIsValid(m, working, previous, round, attempt + 1, call.output, Some(verdict.flaw), calls + [call]);
      }
    }
  }

  lemma {:induction false} StageIsValid(m: Model, working: Candidate, previous: Option<Decision>, round: int)
    ensures var stage := RequestSpec(m, working, previous, round);
            && |stage.calls| <= 3
            && (stage.result.Ok? ==>
                  Validate(stage.result.value, working).None? && stage.result.value.failure.NoFailure?)
            && (stage.result.Err? ==> !stage.result.error.NoFailure?)
  {
    AskIsValid(m, working, previous, round, 1, None, None, []);
  }

  // ---- fetching again from the saved packet ----

  ghost predicate GoodReader(reader: Option<Reader>) {
    reader.Some? ==> forall r :: ValidRequest(r) ==> Answers(reader.value(r), r)
  }

  /** The collector's reader is one that replay can rest on. */
  lemma {:induction false} CollectorIsGoodReader(view: Key -> File)
    ensures GoodReader(Some(Reads(view)))
  {
    hide Answers, ReadSpec, ValidRequest;
    forall r | ValidRequest(r) ensures Answers(Reads(view)(r), r) {
      ReadAnswers(view, r);
    }
  }

  predicate Identified(sources: seq<Source>) {
    forall k :: 0 <= k < |sources| ==> sources[k].id != NoId
  }

  lemma {:induction false} FirstStandingAppend(a: seq<Source>, b: seq<Source>, r: ReadRequest)
    ensures FirstStanding(a + b, r) == if FirstStanding(a, r).Some? then FirstStanding(a, r) else FirstStanding(b, r)
  {
    if a == [] {
      assert a + b == b;
    } else {
      FirstStandingAppend(a[1..], b, r);
      assert (a + b)[1..] == a[1..] + b;
    }
  }

  lemma {:induction false} FirstStandingMember(a: seq<Source>, r: ReadRequest)
    ensures FirstStanding(a, r).Some? ==> FirstStanding(a, r).value in a && Stands(FirstStanding(a, r).value, r)
  {
    if a != [] {
      FirstStandingMember(a[1..], r);
    }
  }

  /** Fetching only appends, at most one source per request, and what it appends is identified. */
  lemma {:induction false} FetchAppends(reader: Option<Reader>, g: Gathering, requests: seq<ReadRequest>)
    requires GoodReader(reader) && Identified(g.retrieved)
    requires forall k :: 0 <= k < |requests| ==> ValidRequest(requests[k])
    ensures var out := Fetch(reader, g, requests);
            && g.retrieved <= out.retrieved && |out.retrieved| <= |g.retrieved| + |requests|
            && Identified(out.retrieved)
            && (reader.None? ==> out.retrieved == g.retrieved)
            && forall k :: |g.retrieved| <= k < |out.retrieved| ==>
                 out.retrieved[k].id == SourceId(out.retrieved[k]) && out.retrieved[k].startLine >= 1
    decreases |requests|
  {
    if requests != [] {
      var next := FetchOne(reader, g, requests[0]);
      FetchAppends(reader, next, requests[1..]);
    }
  }

  /** The packet the first run saved serves the same requests in the same way. */
  lemma {:induction false} FetchReplays(reader: Option<Reader>, g: Gathering, requests: seq<ReadRequest>,
                                        packet: seq<Source>)
    requires GoodReader(reader) && Identified(g.retrieved)
    requires forall k :: 0 <= k < |requests| ==> ValidRequest(requests[k])
    requires packet == Fetch(reader, g, requests).retrieved
    ensures Fetch(None, Gathered(packet, g.sources), requests) == Gathered(packet, Fetch(reader, g, requests).sources)
    decreases |requests|
  {
    if requests != [] {
      var r, next := requests[0], FetchOne(reader, g, requests[0]);
      FetchAppends(reader, g, requests[..1]);
      assert requests[..1][1..] == [];
      FetchAppends(reader, next, requests[1..]);
      FetchReplays(reader, next, requests[1..], packet);
      OneFetchReplays(reader, g, r, packet);
    }
  }

  lemma OneFetchReplays(reader: Option<Reader>, g: Gathering, r: ReadRequest, packet: seq<Source>)
    requires GoodReader(reader) && Identified(g.retrieved) && ValidRequest(r)
    requires FetchOne(reader, g, r).retrieved <= packet && g.retrieved <= packet
    requires reader.None? ==> packet == g.retrieved
    ensures FetchOne(None, Gathered(packet, g.sources), r) == Gathered(packet, FetchOne(reader, g, r).sources)
  {
    if !SavedRequest(g.sources, r) {
      var n := |g.retrieved|;
      assert packet == g.retrieved + packet[n..];
      FirstStandingAppend(g.retrieved, packet[n..], r);
      FirstStandingMember(g.retrieved, r);
      if FirstStanding(g.retrieved, r).None? && reader.Some? {
        var read := reader.value(r);
        assert Answers(read, r) && Stands(read, r);
        assert packet[n..][0] == read;
      }
    }
  }

  /** Replaying one candidate with its saved retrievals and no reader reaches the same outcome. */
  lemma {:induction false} VerifyReplays(model: Option<Model>, reader: Option<Reader>, c: Candidate)
    requires GoodReader(reader) && Identified(c.retrieved)
    ensures var outcome := VerifySpec(model, reader, c);
            VerifySpec(model, None, c.(retrieved := outcome.retrieved)) == outcome
  {
    if c.contextError == "" && model.Some? {
      StageIsValid(model.value, WorkingCandidate(c, c.sources), None, 1);
      var first := RequestSpec(model.value, WorkingCandidate(c, c.sources), None, 1);
      if AsksForMore(first.result) {
        var requests := first.result.value.requests;
        var g := Fetch(reader, Gathered(c.retrieved, c.sources), requests);
        FetchReplays(reader, Gathered(c.retrieved, c.sources), requests, g.retrieved);
        var again := c.(retrieved := g.retrieved);
        assert WorkingCandidate(again, c.sources) == WorkingCandidate(c, c.sources);
        assert WorkingCandidate(again, g.sources) == WorkingCandidate(c, g.sources);
      }
    }
  }

  // ---- what one candidate can cost and conclude ----

  /** At most six provider calls and three reads; retrieved sources only grow. */
  lemma {:induction false} VerifyIsBounded(model: Option<Model>, reader: Option<Reader>, c: Candidate)
    requires GoodReader(reader) && Identified(c.retrieved)
    ensures var outcome := VerifySpec(model, reader, c);
            && |outcome.calls| <= 6
            && c.retrieved <= outcome.retrieved && |outcome.retrieved| <= |c.retrieved| + 3
            && outcome.decision.candidateId == c.id
            && forall k :: |c.retrieved| <= k < |outcome.retrieved| ==>
                 outcome.retrieved[k].id == SourceId(outcome.retrieved[k]) && outcome.retrieved[k].startLine >= 1
  {
    hide RequestSpec;
    if c.contextError == "" && model.Some? {
      StageIsValid(model.value, WorkingCandidate(c, c.sources), None, 1);
      var first := RequestSpec(model.value, WorkingCandidate(c, c.sources), None, 1);
      if AsksForMore(first.result) {
        var requests := first.result.value.requests;
        AcceptedFacts(first.result.value, WorkingCandidate(c, c.sources));
        hide Validate;
        FetchAppends(reader, Gathered(c.retrieved, c.sources), requests);
        var g := Fetch(reader, Gathered(c.retrieved, c.sources), requests);
        StageIsValid(model.value, WorkingCandidate(c, g.sources), Some(Withheld(first.result.value)), 2);
      }
    }
  }

  /** Working sources come from the candidate, from its saved retrievals, or are marked unavailable. */
  ghost predicate Grounded(sources: seq<Source>, c: Candidate, retrieved: seq<Source>) {
    forall s :: s in sources ==> s in c.sources + retrieved || s.unavailable != ""
  }

  lemma {:induction false} FetchGrounded(reader: Option<Reader>, g: Gathering, requests: seq<ReadRequest>, c: Candidate)
    requires GoodReader(reader) && Identified(g.retrieved) && Grounded(g.sources, c, g.retrieved)
    requires forall k :: 0 <= k < |requests| ==> ValidRequest(requests[k])
    ensures Grounded(Fetch(reader, g, requests).sources, c, Fetch(reader, g, requests).retrieved)
    decreases |requests|
  {
    if requests != [] {
      var next := FetchOne(reader, g, requests[0]);
      FirstStandingMember(g.retrieved, requests[0]);
      FetchGrounded(reader, next, requests[1..], c);
    }
  }

  /** The ID pins down the path and the side of a source, as an injective hash of its fields does. */
  ghost predicate Pinned(sources: seq<Source>) {
    forall s :: s in sources ==> s.id.Hash? && s.id.path == s.path && s.id.side == s.side
  }

  /** The cited line is one of the lines of a readable source. */
  ghost predicate Cited(citation: Citation, sources: seq<Source>) {
    exists s :: s in sources && s.id == citation.sourceId && Holds(s, citation.line)
  }

  /** The cited line is one of the lines of a readable head-side source and lies in a changed region of its path. */
  ghost predicate CitedAsCause(citation: Citation, sources: seq<Source>, regions: seq<Region>) {
    exists s :: s in sources && s.id == citation.sourceId && s.side.Head? && Holds(s, citation.line)
        && InRegion(s.path, citation.line, regions)
  }

  ghost predicate FullyCited(d: Decision, sources: seq<Source>) {
    forall i :: 0 <= i < |d.evidence| ==> Cited(d.evidence[i], sources)
  }

  ghost predicate CausallyCited(d: Decision, sources: seq<Source>, regions: seq<Region>) {
    exists i :: 0 <= i < |d.evidence| && CitedAsCause(d.evidence[i], sources, regions)
  }

  lemma ResolvedIsCited(citation: Citation, sources: seq<Source>, c: Candidate, retrieved: seq<Source>)
    requires Resolves(citation, sources) && Grounded(sources, c, retrieved)
    ensures Cited(citation, c.sources + retrieved)
  {
    var k :| 0 <= k < |sources| && sources[k].id == citation.sourceId && Holds(sources[k], citation.line);
    assert sources[k] in c.sources + retrieved;
  }

  /**
   * Because equal IDs mean equal path and side, the source that resolves a citation is the one in the changed region.
   */
  lemma RegionCitationIsCause(citation: Citation, sources: seq<Source>, c: Candidate, retrieved: seq<Source>)
    requires Cited(citation, c.sources + retrieved) && CitesRegion(citation, sources, c.changedRegions)
    requires Grounded(sources, c, retrieved) && Pinned(c.sources + retrieved)
    ensures CitedAsCause(citation, c.sources + retrieved, c.changedRegions)
  {
    var all := c.sources + retrieved;
    var k :| 0 <= k < |sources| && sources[k].id == citation.sourceId && sources[k].side.Head?
             && sources[k].unavailable == "" && InRegion(sources[k].path, citation.line, c.changedRegions);
    assert sources[k] in all;
    var s :| s in all && s.id == citation.sourceId && Holds(s, citation.line);
  }

  lemma AcceptedFacts(d: Decision, working: Candidate)
    requires Validate(d, working).None? && working.retrieved == []
    ensures |d.requests| <= 3 && forall k :: 0 <= k < |d.requests| ==> ValidRequest(d.requests[k])
    ensures forall k :: 0 <= k < |d.evidence| ==> Resolves(d.evidence[k], working.sources)
    ensures !d.status.Unresolved? ==> d.evidence != []
    ensures d.status.Keep? && !working.wholeRepository && working.changedRegions != [] ==>
              CitesChangedRegion(d.evidence, working.sources, working.changedRegions)
  {
    assert working.sources + working.retrieved == working.sources;
  }

  lemma ValidDecisionIsCited(d: Decision, working: Candidate, c: Candidate, retrieved: seq<Source>)
    requires Validate(d, working).None? && working == WorkingCandidate(c, working.sources)
    requires Grounded(working.sources, c, retrieved) && Pinned(c.sources + retrieved)
    ensures FullyCited(d, c.sources + retrieved)
    ensures !d.status.Unresolved? ==> d.evidence != []
    ensures d.status.Keep? && !c.wholeRepository && c.changedRegions != [] ==>
              CausallyCited(d, c.sources + retrieved, c.changedRegions)
  {
    AcceptedFacts(d, working);
    forall i | 0 <= i < |d.evidence| ensures Cited(d.evidence[i], c.sources + retrieved) {
      ResolvedIsCited(d.evidence[i], working.sources, c, retrieved);
    }
    if d.status.Keep? && !c.wholeRepository && c.changedRegions != [] {
      var i :| 0 <= i < |d.evidence| && CitesRegion(d.evidence[i], working.sources, c.changedRegions);
      RegionCitationIsCause(d.evidence[i], working.sources, c, retrieved);
    }
  }

  /**
   * Citation safety. A decision other than unresolved is high-confidence, cites at least one line, and every
   * cited line lies in a readable source; a keep of a diff review cites a changed line.
   */
  ghost predicate CitationSafe(d: Decision, sources: seq<Source>, c: Candidate) {
    !d.status.Unresolved? ==>
      && d.confidence.High? && d.evidence != [] && FullyCited(d, sources)
      && (d.status.Keep? && !c.wholeRepository && c.changedRegions != [] ==>
          CausallyCited(d, sources, c.changedRegions))
  }

  /** Every final decision is citation safe with respect to the sources saved with its candidate. */
  lemma {:induction false} FinalDecisionIsCited(model: Option<Model>, reader: Option<Reader>, c: Candidate)
    requires GoodReader(reader) && Identified(c.retrieved) && Pinned(c.sources + c.retrieved)
    ensures var outcome := VerifySpec(model, reader, c);
            CitationSafe(outcome.decision, c.sources + outcome.retrieved, c)
  {
    if c.contextError == "" && model.Some? {
      var working := WorkingCandidate(c, c.sources);
      StageIsValid(model.value, working, None, 1);
      var first := RequestSpec(model.value, working, None, 1);
      if AsksForMore(first.result) {
        SecondStageIsCited(model.value, reader, c, first.result.value);
      } else if first.result.Ok? {
        ValidDecisionIsCited(first.result.value, working, c, c.retrieved);
      }
    }
  }

  lemma FetchedArePinned(reader: Option<Reader>, c: Candidate, requests: seq<ReadRequest>)
    requires GoodReader(reader) && Identified(c.retrieved) && Pinned(c.sources + c.retrieved)
    requires forall k :: 0 <= k < |requests| ==> ValidRequest(requests[k])
    ensures var g := Fetch(reader, Gathered(c.retrieved, c.sources), requests);
            Pinned(c.sources + g.retrieved) && Grounded(g.sources, c, g.retrieved)
  {
    FetchAppends(reader, Gathered(c.retrieved, c.sources), requests);
    FetchGrounded(reader, Gathered(c.retrieved, c.sources), requests, c);
  }

  lemma {:induction false} SecondStageIsCited(m: Model, reader: Option<Reader>, c: Candidate, first: Decision)
    requires GoodReader(reader) && Identified(c.retrieved) && Pinned(c.sources + c.retrieved)
    requires Validate(first, WorkingCandidate(c, c.sources)).None?
    ensures var g := Fetch(reader, Gathered(c.retrieved, c.sources), first.requests);
            CitationSafe(Conclude(c.id, SecondStage(m, c, first, g).result), c.sources + g.retrieved, c)
  {
    AcceptedFacts(first, WorkingCandidate(c, c.sources));
    FetchedArePinned(reader, c, first.requests);
    var g := Fetch(reader, Gathered(c.retrieved, c.sources), first.requests);
    var working := WorkingCandidate(c, g.sources);
    StageIsValid(m, working, Some(Withheld(first)), 2);
    var result := SecondStage(m, c, first, g).result;
    if result.Ok? {
      ValidDecisionIsCited(result.value, working, c, g.retrieved);
    }
  }

  // ---- replay of a whole report ----

  predicate Utf8Sources(sources: seq<Source>) {
    forall k :: 0 <= k < |sources| ==> Utf8(sources[k].content)
  }

  /** Every source text that went into the run, and every one it read, is valid UTF-8. */
  predicate Utf8Run(s: Snapshot, report: Report)
    requires |report.snapshot.candidates| == |s.candidates|
  {
    forall i :: 0 <= i < |s.candidates| ==>
      Utf8Sources(s.candidates[i].sources) && Utf8Sources(s.candidates[i].retrieved)
      && Utf8Sources(report.snapshot.candidates[i].retrieved)
  }

  lemma CleanSourcesIffUtf8(sources: seq<Source>)
    requires ValidSources(sources)
    ensures ValidSources(CleanSources(sources)) <==> Utf8Sources(sources)
    ensures CleanSources(sources) == sources <==> Utf8Sources(sources)
    ensures CleanSources(CleanSources(sources)) == CleanSources(sources)
    ensures Identified(CleanSources(sources)) && Pinned(CleanSources(sources))
  {
    var cleaned := CleanSources(sources);
    forall k | 0 <= k < |sources|
      ensures cleaned[k].id == SourceId(cleaned[k]) <==> Utf8(sources[k].content)
      ensures cleaned[k] == sources[k] <==> Utf8(sources[k].content)
      ensures CleanSources(cleaned)[k] == cleaned[k]
    {
      CleanMeansUtf8(sources[k].content);
      assert sources[k].id == SourceId(sources[k]);
    }
    assert CleanSources(cleaned) == cleaned;
    if Utf8Sources(sources) {
      assert cleaned == sources;
    } else {
      var k :| 0 <= k < |sources| && !Utf8(sources[k].content);
      assert cleaned[k] != sources[k];
    }
  }

  /** The candidate a run saves in its report. */
  function SavedCandidate(model: Option<Model>, reader: Option<Reader>, c: Candidate): Candidate {
    var cleaned := CleanCandidate(c);
    cleaned.(retrieved := VerifySpec(model, reader, cleaned).retrieved)
  }

  lemma {:induction false} PrefixOfSaved(model: Option<Model>, reader: Option<Reader>, c: Candidate)
    requires GoodReader(reader) && ValidCandidate(c)
    ensures var saved, n := SavedCandidate(model, reader, c), |c.retrieved|;
            && n <= |saved.retrieved|
            && (forall k :: 0 <= k < n ==> saved.retrieved[k] == CleanSource(c.retrieved[k]))
            && (forall k :: n <= k < |saved.retrieved| ==>
                  saved.retrieved[k].id == SourceId(saved.retrieved[k]) && saved.retrieved[k].startLine >= 1)
  {
    var cleaned := CleanCandidate(c);
    CleanSourcesIffUtf8(c.retrieved);
    VerifyIsBounded(model, reader, cleaned);
  }

  /** Per candidate: copying the saved form changes nothing and keeps it valid exactly when all its text is UTF-8. */
  lemma {:induction false} SavedCandidateStable(model: Option<Model>, reader: Option<Reader>, c: Candidate)
    requires GoodReader(reader) && ValidCandidate(c)
    ensures var saved := SavedCandidate(model, reader, c);
            (ValidCandidate(saved) && CleanCandidate(saved) == saved
             <==> Utf8Sources(c.sources) && Utf8Sources(c.retrieved) && Utf8Sources(saved.retrieved))
  {
    hide VerifySpec, Clean, Utf8;
    var saved := SavedCandidate(model, reader, c);
    PrefixOfSaved(model, reader, c);
    CleanSourcesIffUtf8(c.sources);
    CleanSourcesIffUtf8(c.retrieved);
    CleanMeansUtf8(c.patch);
    if ValidCandidate(saved) && CleanCandidate(saved) == saved {
      forall k | 0 <= k < |c.retrieved| ensures CleanSources(c.retrieved)[k] == saved.retrieved[k] {}
      assert ValidSources(CleanSources(c.retrieved));
      CleanSourcesIffUtf8(saved.retrieved);
    }
    if Utf8Sources(c.sources) && Utf8Sources(c.retrieved) && Utf8Sources(saved.retrieved) {
      forall k | 0 <= k < |c.retrieved| ensures saved.retrieved[k] == c.retrieved[k] {
        assert CleanSources(c.retrieved)[k] == c.retrieved[k];
      }
      assert ValidSources(saved.retrieved);
      CleanSourcesIffUtf8(saved.retrieved);
    }
  }

  /** A run over the saved candidates of a report, without a reader, fills every slot as before. */
  lemma {:induction false} OutcomesReplay(model: Option<Model>, reader: Option<Reader>, s: Snapshot, report: Report)
    requires GoodReader(reader) && ValidSnapshot(s)
    requires report == Assemble(CleanSnapshot(s), Outcomes(model, reader, CleanSnapshot(s).candidates))
    ensures Outcomes(model, None, report.snapshot.candidates) == Outcomes(model, reader, CleanSnapshot(s).candidates)
  {
    var cleaned := CleanSnapshot(s).candidates;
    forall i | 0 <= i < |cleaned|
      ensures Outcomes(model, None, report.snapshot.candidates)[i] == Outcomes(model, reader, cleaned)[i]
    {
      CleanSourcesIffUtf8(s.candidates[i].retrieved);
      VerifyReplays(model, reader, cleaned[i]);
    }
  }

  lemma ReassembleSame(saved: Snapshot, outcomes: seq<Outcome>)
    requires |outcomes| == |saved.candidates|
    ensures Assemble(Assemble(saved, outcomes).snapshot, outcomes) == Assemble(saved, outcomes)
  {
    var once := Assemble(saved, outcomes);
    assert Assemble(once.snapshot, outcomes).snapshot.candidates == once.snapshot.candidates;
  }

  /**
   * Replay equivalence. Replaying the snapshot a run saved, without repository access, gives exactly the same
   * report, decisions, calls and snapshot alike, if and only if all source text involved is valid UTF-8 and
   * the saved snapshot, now including the reads, still fits the size limit.
   */
  lemma {:induction false} ReplayEquivalence(s: Snapshot, model: Option<Model>, reader: Option<Reader>,
                                             size: Snapshot -> nat, report: Report)
    requires GoodReader(reader) && Run(s, model, reader, size) == Ok(report)
    ensures Run(report.snapshot, model, None, size) == Ok(report)
       <==> Utf8Run(s, report) && size(report.snapshot) <= MAX_SNAPSHOT_BYTES
  {
    var saved := report.snapshot;
    forall i | 0 <= i < |s.candidates|
      ensures (ValidCandidate(saved.candidates[i]) && CleanCandidate(saved.candidates[i]) == saved.candidates[i])
         <==> (Utf8Sources(s.candidates[i].sources) && Utf8Sources(s.candidates[i].retrieved)
             && Utf8Sources(saved.candidates[i].retrieved))
    {
      SavedCandidateStable(model, reader, s.candidates[i]);
      assert saved.candidates[i] == SavedCandidate(model, reader, s.candidates[i]);
    }
    if Utf8Run(s, report) && size(saved) <= MAX_SNAPSHOT_BYTES {
      assert ValidSnapshot(saved);
      assert CleanSnapshot(saved).candidates == saved.candidates;
      assert CleanSnapshot(saved) == saved;
      OutcomesReplay(model, reader, s, report);
      ReassembleSame(CleanSnapshot(s), Outcomes(model, reader, CleanSnapshot(s).candidates));
    }
    if Run(saved, model, None, size) == Ok(report) {
      forall i | 0 <= i < |s.candidates| ensures CleanCandidate(saved.candidates[i]) == saved.candidates[i] {
        ReplayKeepsCandidate(saved, model, size, report, i);
      }
    }
  }

  /** A replay that leaves the snapshot unchanged found it already clean: without a reader nothing is added. */
  lemma {:induction false} ReplayKeepsCandidate(saved: Snapshot, model: Option<Model>, size: Snapshot -> nat,
                                                report: Report, i: nat)
    requires Run(saved, model, None, size) == Ok(report) && report.snapshot == saved && i < |saved.candidates|
    ensures CleanCandidate(saved.candidates[i]) == saved.candidates[i]
  {
    var cleaned := CleanCandidate(saved.candidates[i]);
    CleanSourcesIffUtf8(saved.candidates[i].retrieved);
    CleanSourcesIffUtf8(saved.candidates[i].sources);
    NilReaderKeepsRetrieved(model, cleaned);
    assert saved.candidates[i] == cleaned.(retrieved := VerifySpec(model, None, cleaned).retrieved);
  }

  lemma {:induction false} NilReaderKeepsRetrieved(model: Option<Model>, c: Candidate)
    requires Identified(c.retrieved)
    ensures VerifySpec(model, None, c).retrieved == c.retrieved
  {
    if c.contextError == "" && model.Some? {
      var first := RequestSpec(model.value, WorkingCandidate(c, c.sources), None, 1);
      StageIsValid(model.value, WorkingCandidate(c, c.sources), None, 1);
      if AsksForMore(first.result) {
        FetchAppends(None, Gathered(c.retrieved, c.sources), first.result.value.requests);
      }
    }
  }

  // ---- results about whole runs ----

  /** Each slot of a report belongs to its own candidate, is citation safe, and cost at most three reads. */
  lemma {:induction false} RunIsCitationSafe(s: Snapshot, model: Option<Model>, reader: Option<Reader>,
                                             size: Snapshot -> nat, report: Report, i: nat)
    requires GoodReader(reader) && Run(s, model, reader, size) == Ok(report) && i < |s.candidates|
    ensures |report.decisions| == |report.snapshot.candidates| == |s.candidates|
    ensures var saved := report.snapshot.candidates[i];
            && report.decisions[i].candidateId == saved.id == s.candidates[i].id
            && CitationSafe(report.decisions[i], saved.sources + saved.retrieved, saved)
            && |saved.retrieved| <= |s.candidates[i].retrieved| + 3
  {
    var c := CleanSnapshot(s).candidates[i];
    CleanSourcesIffUtf8(s.candidates[i].sources);
    CleanSourcesIffUtf8(s.candidates[i].retrieved);
    assert forall x :: x in c.sources + c.retrieved ==> x in c.sources || x in c.retrieved;
    VerifyIsBounded(model, reader, c);
    FinalDecisionIsCited(model, reader, c);
  }

  const STRAY := Source(false, Hash(false, "a.txt", Head, 1, [Stray(0)], ""), "a.txt", Head, 1, [Stray(255)], "")
  const NO_FINDING := Findings.Finding("", "", "", "", "", "", "", "", "", "", None, [], [], [])
  const STRAY_SNAPSHOT := Snapshot(VERSION, "", "", [Candidate("c", true, [], NO_FINDING, [], [STRAY], [], "")])

  /** The UTF-8 condition is real: one Latin-1 byte in a source makes the saved report unreadable. */
  lemma StrayByteBreaksReplay(size: Snapshot -> nat)
    requires size(STRAY_SNAPSHOT) <= MAX_SNAPSHOT_BYTES
    ensures var run := Run(STRAY_SNAPSHOT, None, None, size);
            run.Ok? && Run(run.value.snapshot, None, None, size) != run
  {
    assert Spelling(STRAY.content) == [Stray(0)];
    assert ValidSnapshot(STRAY_SNAPSHOT);
    var report := Run(STRAY_SNAPSHOT, None, None, size).value;
    assert STRAY.content[0] == Stray(255) && !Utf8(STRAY.content);
    assert STRAY_SNAPSHOT.candidates[0].sources[0] == STRAY;
    ReplayEquivalence(STRAY_SNAPSHOT, None, None, size, report);
  }

  const REQUEST := ReadRequest("a", Head, 1, 1)
  const ASKS := Decision("c", Unresolved, Low, "more", [], [REQUEST], NoFailure)
  /** A provider that asks for one line of source and then fails. */
  const ASKER := Model(
    (input: Input) => if input.previous.None? then Reply(false, None, Ok(ASKS), 0) else RequestFailed,
    (input: Input) => 0)
  /** A repository in which every file is the one line "x". */
  const ONE_LINE: Key -> File := (k: Key) => File([Rune('x'), LF], "")
  const READ := ReadSpec(ONE_LINE, REQUEST)

  function AskingCandidate(patch: Content, retrieved: seq<Source>): Candidate {
    Candidate("c", true, [], NO_FINDING, patch, [], retrieved, "")
  }

  function Asking(patch: Content, retrieved: seq<Source>): Snapshot {
    Snapshot(VERSION, "", "", [AskingCandidate(patch, retrieved)])
  }

  lemma {:induction false} ByteLengthBound(t: Content)
    ensures ByteLength(t) <= 4 * |t|
  {
    if t != [] {
      ByteLengthBound(t[1..]);
    }
  }

  lemma Utf8LengthBound(s: string)
    ensures Utf8Length(s) <= 4 * |s|
  {
    ByteLengthBound(seq(|s|, i requires 0 <= i < |s| => Rune(s[i])));
  }

  lemma RequestIsValid()
    ensures ValidRequest(REQUEST)
  {
    assert SplitOn("a", '/') == ["a"] by {
      SplitOffPiece("a", '/', "");
    }
    Utf8LengthBound("a");
  }

  lemma ReadIsUtf8()
    ensures READ.id == SourceId(READ) && READ.startLine == 1 && Utf8(READ.content)
  {
    hide ValidPath;
    RequestIsValid();
    SplitOffPiece([Rune('x')], LF, []);
    assert TrimNewline([Rune('x'), LF]) == [Rune('x')];
    assert READ == Window(ONE_LINE((Head, "a")), REQUEST);
  }

  lemma AskerAsks(patch: Content)
    ensures RequestSpec(ASKER, AskingCandidate(patch, []), None, 1).result == Ok(ASKS)
  {
    hide ValidRequest;
    RequestIsValid();
    assert Validate(ASKS, AskingCandidate(patch, [])).None? by {
      Utf8LengthBound("more");
    }
    var input := Prompt(AskingCandidate(patch, []), None, None, None);
    assert input.previous.None?;
    assert ASKER.review(input) == Reply(false, None, Ok(ASKS), 0);
  }

  lemma AskerRetrieves(patch: Content)
    ensures VerifySpec(Some(ASKER), Some(Reads(ONE_LINE)), AskingCandidate(patch, [])).retrieved == [READ]
  {
    hide RequestSpec;
    AskerAsks(patch);
    ReadIsUtf8();
    var c := AskingCandidate(patch, []);
    assert WorkingCandidate(c, c.sources) == c;
    var g := Gathered([], []);
    assert FetchOne(Some(Reads(ONE_LINE)), g, REQUEST) == Gathered([READ], [READ]);
    assert Fetch(Some(Reads(ONE_LINE)), g, [REQUEST]) == Fetch(Some(Reads(ONE_LINE)), Gathered([READ], [READ]), []);
  }

  lemma AskingIsClean(patch: Content)
    requires Utf8(patch)
    ensures ValidSnapshot(Asking(patch, [])) && ValidSnapshot(Asking(patch, [READ]))
    ensures CleanCandidate(AskingCandidate(patch, [])) == AskingCandidate(patch, [])
  {
    hide ReadSpec;
    ReadIsUtf8();
    CleanMeansUtf8(patch);
  }

  /**
   * The size condition is real: all text is UTF-8, but where a patch leaves no room for the one line that was read,
   * the saved report is refused.
   */
  lemma {:induction false} FullSnapshotBreaksReplay(patch: Content, size: Snapshot -> nat)
    requires Utf8(patch)
    requires size(Asking(patch, [])) <= MAX_SNAPSHOT_BYTES < size(Asking(patch, [READ]))
    ensures var run := Run(Asking(patch, []), Some(ASKER), Some(Reads(ONE_LINE)), size);
            && run.Ok? && run.value.snapshot == Asking(patch, [READ]) && Utf8Run(Asking(patch, []), run.value)
            && Run(run.value.snapshot, Some(ASKER), None, size) == Err(SnapshotTooLarge)
  {
    hide VerifySpec, ValidSnapshot, CleanCandidate, Utf8, ReadSpec;
    AskerRetrieves(patch);
    ReadIsUtf8();
    AskingIsClean(patch);
    var s := Asking(patch, []);
    var report := Run(s, Some(ASKER), Some(Reads(ONE_LINE)), size).value;
    assert report.snapshot.candidates == [AskingCandidate(patch, [READ])];
  }
}
