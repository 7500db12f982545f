/** The bounded verification protocol for one candidate (internal/findingverify/verify.go). */
module Verify {
  import opened Prelude
  import opened RegionGroups
  import opened Findings
  import opened Sources

  // ---- data ----

  datatype Citation = Citation(sourceId: Id, line: int)

  datatype Candidate = Candidate(
    id: string, wholeRepository: bool, changedRegions: seq<Region>, finding: Finding, patch: Content,
    sources: seq<Source>, retrieved: seq<Source>, contextError: string)

  datatype Status = Keep | Reject | Unresolved | OtherStatus

  datatype Confidence = High | Low | OtherConfidence

  /** The rules a decision can break, in the order they are checked. */
  datatype Flaw =
    | Malformed(detail: string)
    | WrongCandidate | UnknownStatus | UnknownConfidence | BadReason | OverBudget
    | InvalidRequest | MissingCitations | UnresolvedCitation | NoCausalCitation

  datatype Failure =
    | NoFailure | ContextUnavailable | ProviderUnavailable | ProviderRequest
    | InputBudget | OutputBudget | InvalidDecision(flaw: Flaw)

  datatype Decision = Decision(
    candidateId: string, status: Status, confidence: Confidence, reason: string,
    evidence: seq<Citation>, requests: seq<ReadRequest>, failure: Failure)

  type Json = string

  datatype Range = Range(sourceId: Id, path: string, side: Side, startLine: int, endLine: int)

  /** What one provider call is shown; its digest stands for the whole of it. */
  datatype Input = Input(
    candidate: Candidate, previous: Option<Decision>, ranges: seq<Range>, invalidOutput: Option<Json>,
        flaw: Option<Flaw>)

  /** A provider answer: oversized output, or output that is or is not JSON and does or does not fit the schema. */
  datatype Reply =
    | RequestFailed
    | Reply(oversized: bool, json: Option<Json>, parsed: Result<Decision, string>, usage: int)

  datatype CallError = NoError | CallFailed | OutputTooLarge | Flawed(flaw: Flaw)

  datatype Call = Call(candidateId: string, round: int, attempt: int, digest: Input, output: Option<Json>,
                       error: CallError, usage: int)

  /** The provider as a fixed function of its input, and the encoded size of an input. */
  datatype Model = Model(review: Input -> Reply, size: Input -> nat)

  type Reader = ReadRequest -> Source

  datatype Outcome = Outcome(decision: Decision, calls: seq<Call>, retrieved: seq<Source>)

  const MAX_INPUT_BYTES := 768 * 1024

  // ---- validating a decision ----

  predicate Resolves(citation: Citation, sources: seq<Source>) {
    exists k :: 0 <= k < |sources| && sources[k].id == citation.sourceId && Holds(sources[k], citation.line)
  }

  predicate InRegion(path: string, line: int, regions: seq<Region>) {
    exists k :: 0 <= k < |regions| && regions[k].path == path && regions[k].start <= line <= regions[k].end
  }

  /** The citation names a readable head-side source and a line inside a changed region of its path. */
  predicate CitesRegion(citation: Citation, sources: seq<Source>, regions: seq<Region>) {
    exists k :: 0 <= k < |sources|
      && sources[k].id == citation.sourceId && sources[k].side.Head? && sources[k].unavailable == ""
      && InRegion(sources[k].path, citation.line, regions)
  }

  predicate CitesChangedRegion(evidence: seq<Citation>, sources: seq<Source>, regions: seq<Region>) {
    exists i :: 0 <= i < |evidence| && CitesRegion(evidence[i], sources, regions)
  }

  method DecisionCitesChangedRegion(d: Decision, c: Candidate) returns (cites: bool)
    ensures cites == CitesChangedRegion(d.evidence, c.sources + c.retrieved, c.changedRegions)
  {
    var sources := c.sources + c.retrieved;
    for i := 0 to |d.evidence|
      invariant forall h :: 0 <= h < i ==> !CitesRegion(d.evidence[h], sources, c.changedRegions)
    {
      var citation := d.evidence[i];
      for k := 0 to |sources|
        invariant !CitesRegion(citation, sources[..k], c.changedRegions)
      {
        if sources[k].id != citation.sourceId || !sources[k].side.Head? || sources[k].unavailable != "" {
          continue;
        }
        for m := 0 to |c.changedRegions|
          invariant !InRegion(sources[k].path, citation.line, c.changedRegions[..m])
        {
          var region := c.changedRegions[m];
          if sources[k].path == region.path && citation.line >= region.start && citation.line <= region.end {
            return true;
          }
        }
        assert c.changedRegions[..|c.changedRegions|] == c.changedRegions;
      }
      assert sources[..|sources|] == sources;
    }
    return false;
  }

  function Validate(d: Decision, c: Candidate): Option<Flaw> {
    if d.candidateId != c.id then Some(WrongCandidate)
    else if d.status.OtherStatus? then Some(UnknownStatus)
    else if d.confidence.OtherConfidence? then Some(UnknownConfidence)
    else if TrimSpace(d.reason) == "" || Utf8Length(d.reason) > 4000 then Some(BadReason)
    else if |d.requests| > 3 || |d.evidence| > 8 then Some(OverBudget)
    else if exists k :: 0 <= k < |d.requests| && !ValidRequest(d.requests[k]) then Some(InvalidRequest)
    else if !d.status.Unresolved? && |d.evidence| == 0 then Some(MissingCitations)
    else if exists k :: 0 <= k < |d.evidence| && !Resolves(d.evidence[k], c.sources) then Some(UnresolvedCitation)
    else if d.status.Keep? && !c.wholeRepository && |c.changedRegions| > 0
            && !CitesChangedRegion(d.evidence, c.sources + c.retrieved, c.changedRegions) then Some(NoCausalCitation)
    else None
  }

  // ---- asking the provider, with at most two structural corrections ----

  function Ranges(sources: seq<Source>): seq<Range> {
    if sources == [] then []
    else
      var s := sources[|sources| - 1];
      Ranges(sources[..|sources| - 1])
      + if s.unavailable == "" && LineCount(s.content) > 0
        then [Range(s.id, s.path, s.side, s.startLine, s.startLine + LineCount(s.content) - 1)] else []
  }

  function SpellSources(sources: seq<Source>): seq<Source> {
    if sources == [] then []
    else [sources[0].(content := Spelling(sources[0].content))] + SpellSources(sources[1..])
  }

  /** The bytes the provider sees: the working candidate in its JSON spelling. */
  function Prompt(working: Candidate, previous: Option<Decision>, invalidOutput: Option<Json>,
                  flaw: Option<Flaw>): Input {
    var spelled := working.(sources := SpellSources(working.sources), retrieved := SpellSources(working.retrieved),
                            patch := Spelling(working.patch));
    Input(spelled, previous, Ranges(working.sources), invalidOutput, flaw)
  }

  datatype Stage = Stage(result: Result<Decision, Failure>, calls: seq<Call>)

  /** The call record before its reply has been judged. */
  function NewCall(working: Candidate, round: int, attempt: int, input: Input): Call {
    Call(working.id, round, attempt, input, None, NoError, 0)
  }

  /** What one attempt comes to: a final stage result, or a flaw to correct. */
  datatype Verdict = Final(result: Result<Decision, Failure>) | Correct(flaw: Flaw)

  function Judge(reply: Reply, working: Candidate, call: Call): (Verdict, Call) {
    match reply
    case RequestFailed => (Final(Err(ProviderRequest)), call.(error := CallFailed))
    case Reply(oversized, json, parsed, usage) =>
      if oversized then (Final(Err(OutputBudget)), call.(usage := usage, error := OutputTooLarge))
      else
        var answered := call.(usage := usage, output := json);
        match parsed
        case Err(detail) => (Correct(Malformed(detail)), answered.(error := Flawed(Malformed(detail))))
        case Ok(d) =>
          match Validate(d, working)
          case Some(flaw) => (Correct(flaw), answered.(error := Flawed(flaw)))
          // The output schema has no failure field, so an accepted decision carries none.
          case None => (Final(Ok(d.(failure := NoFailure))), answered)
  }

  /** The stage from this attempt on; `flaw` and `invalidOutput` are the correction feedback of the attempt before. */
  function Ask(m: Model, working: Candidate, previous: Option<Decision>, round: int, attempt: nat,
               invalidOutput: Option<Json>, flaw: Option<Flaw>, calls: seq<Call>): Stage
    requires attempt > 3 ==> flaw.Some?
    decreases 4 - attempt
  {
    if attempt > 3 then Stage(Err(InvalidDecision(flaw.value)), calls)
    else
      var input := Prompt(working, previous, invalidOutput, flaw);
      if m.size(input) > MAX_INPUT_BYTES then Stage(Err(InputBudget), calls)
      else
        var (verdict, call) := Judge(m.review(input), working, NewCall(working, round, attempt, input));
        match verdict
        case Final(result) => Stage(result, calls + [call])
        case Correct(f) => Ask(m, working, previous, round, attempt + 1, call.output, Some(f), calls + [call])
  }

  function RequestSpec(m: Model, working: Candidate, previous: Option<Decision>, round: int): Stage {
    Ask(m, working, previous, round, 1, None, None, [])
  }

  method RequestDecision(m: Model, working: Candidate, previous: Option<Decision>, round: int) returns (stage: Stage)
    ensures stage == RequestSpec(m, working, previous, round)
  {
    var calls: seq<Call> := [];
    var invalidOutput: Option<Json> := None;
    var flaw: Option<Flaw> := None;
    for attempt := 1 to 4
      invariant attempt > 3 ==> flaw.Some?
      invariant RequestSpec(m, working, previous, round)
                == Ask(m, working, previous, round, attempt, invalidOutput, flaw, calls)
    {
      var input := Prompt(working, previous, invalidOutput, flaw);
      if m.size(input) > MAX_INPUT_BYTES {
        return Stage(Err(InputBudget), calls);
      }
      var (verdict, call) := Judge(m.review(input), working, NewCall(working, round, attempt, input));
      calls := calls + [call];
      match verdict
      case Final(result) => return Stage(result, calls);
      case Correct(f) => invalidOutput, flaw := call.output, Some(f);
    }
    return Stage(Err(InvalidDecision(flaw.value)), calls);
  }

  // ---- fetching requested evidence ----

  /** A source saved for replay that stands for this request. */
  predicate Stands(s: Source, r: ReadRequest) {
    s.path == r.path && s.side == r.side && s.startLine == r.startLine && (s.unavailable != "" || Covers(s, r))
  }

  function FirstStanding(saved: seq<Source>, r: ReadRequest): Option<Source> {
    if saved == [] then None else if Stands(saved[0], r) then Some(saved[0]) else FirstStanding(saved[1..], r)
  }

  method FindStanding(saved: seq<Source>, r: ReadRequest) returns (found: Option<Source>)
    ensures found == FirstStanding(saved, r)
  {
    for k := 0 to |saved|
      invariant FirstStanding(saved, r) == FirstStanding(saved[k..], r)
    {
      if Stands(saved[k], r) {
        return Some(saved[k]);
      }
    }
    return None;
  }

  function Absent(r: ReadRequest): Source {
    var s := Source(false, NoId, r.path, r.side, r.startLine, [],
        "Requested context is absent from the saved replay packet.");
    s.(id := SourceId(s))
  }

  /** The saved retrievals and the working sources, which grow together while requests are served. */
  datatype Gathering = Gathered(retrieved: seq<Source>, sources: seq<Source>)

  function FetchOne(reader: Option<Reader>, g: Gathering, r: ReadRequest): Gathering {
    if SavedRequest(g.sources, r) then g
    else
      var saved := FirstStanding(g.retrieved, r);
      if saved.Some? && saved.value.id != NoId then g.(sources := g.sources + [saved.value])
      else if reader.Some? then
        var read := reader.value(r);
        Gathered(g.retrieved + [read], g.sources + [if read.id != NoId then read else Absent(r)])
      else g.(sources := g.sources + [Absent(r)])
  }

  function Fetch(reader: Option<Reader>, g: Gathering, requests: seq<ReadRequest>): Gathering
    decreases |requests|
  {
    if requests == [] then g else Fetch(reader, FetchOne(reader, g, requests[0]), requests[1..])
  }

  // ---- the protocol ----

  predicate Settled(d: Decision) {
    !d.status.Unresolved? && d.confidence.High?
  }

  function Withheld(d: Decision): Decision {
    d.(status := Unresolved)
  }

  function FailureReason(failure: Failure): string {
    match failure
    case NoFailure => ""
    case ContextUnavailable => ""
    case ProviderUnavailable => "Verification provider unavailable."
    case ProviderRequest => "Verification provider request failed."
    case InputBudget => "Candidate context exceeds the verification input budget."
    case OutputBudget => "Verification output exceeds 32 KiB."
    case InvalidDecision(_) => "Invalid verification decision:" + " (structural correction attempts exhausted)"
  }

  function UnresolvedFor(id: string, reason: string, failure: Failure): Decision {
    Decision(id, Unresolved, Low, reason, [], [], failure)
  }

  function WorkingCandidate(c: Candidate, sources: seq<Source>): Candidate {
    c.(sources := sources, retrieved := [])
  }

  /** The decision a stage ends the protocol with. */
  function Conclude(id: string, result: Result<Decision, Failure>): Decision {
    match result
    case Err(failure) => UnresolvedFor(id, FailureReason(failure), failure)
    case Ok(d) => if Settled(d) then d else Withheld(d)
  }

  /** After the first stage the protocol goes on only for an unsettled decision that asks for source. */
  predicate AsksForMore(result: Result<Decision, Failure>) {
    result.Ok? && !Settled(result.value) && result.value.requests != []
  }

  function SecondStage(m: Model, c: Candidate, first: Decision, g: Gathering): Stage {
    RequestSpec(m, WorkingCandidate(c, g.sources), Some(Withheld(first)), 2)
  }

  function VerifySpec(model: Option<Model>, reader: Option<Reader>, c: Candidate): Outcome {
    if c.contextError != "" then Outcome(UnresolvedFor(c.id, c.contextError, ContextUnavailable), [], c.retrieved)
    else if model.None? then
      Outcome(UnresolvedFor(c.id, FailureReason(ProviderUnavailable), ProviderUnavailable), [], c.retrieved)
    else
      var first := RequestSpec(model.value, WorkingCandidate(c, c.sources), None, 1);
      if !AsksForMore(first.result) then Outcome(Conclude(c.id, first.result), first.calls, c.retrieved)
      else
        var g := Fetch(reader, Gathered(c.retrieved, c.sources), first.result.value.requests);
        var second := SecondStage(model.value, c, first.result.value, g);
        Outcome(Conclude(c.id, second.result), first.calls + second.calls, g.retrieved)
  }

  /** The candidate a worker owns; only its retrieved sources change. */
  class Cell {
    var candidate: Candidate

    constructor (c: Candidate)
      ensures candidate == c
    {
      candidate := c;
    }
  }

  method VerifyCandidate(cell: Cell, model: Option<Model>, reader: Option<Reader>)
    returns (decision: Decision, calls: seq<Call>)
    modifies cell
    ensures var outcome := VerifySpec(model, reader, old(cell.candidate));
            && decision == outcome.decision && calls == outcome.calls
            && cell.candidate == old(cell.candidate).(retrieved := outcome.retrieved)
  {
    hide Fetch, RequestSpec, Conclude, FailureReason, Settled;
    var c := cell.candidate;
    calls := [];
    if c.contextError != "" {
      return UnresolvedFor(c.id, c.contextError, ContextUnavailable), calls;
    }
    if model.None? {
      return UnresolvedFor(c.id, FailureReason(ProviderUnavailable), ProviderUnavailable), calls;
    }
    var working := WorkingCandidate(c, c.sources);
    var previous: Option<Decision> := None;
    ghost var first := RequestSpec(model.value, working, None, 1);
    for round := 1 to 3
      invariant round == 1 ==>
                  working == WorkingCandidate(c, c.sources) && previous.None? && calls == [] && cell.candidate == c
      invariant round >= 2 ==> round == 2 && AsksForMore(first.result) && calls == first.calls
      invariant round == 2 ==>
        var g := Fetch(reader, Gathered(c.retrieved, c.sources), first.result.value.requests);
        && previous == Some(Withheld(first.result.value)) && working == WorkingCandidate(c, g.sources)
        && cell.candidate == c.(retrieved := g.retrieved)
    {
      var stage := RequestDecision(model.value, working, previous, round);
      calls := calls + stage.calls;
      if stage.result.Err? || Settled(stage.result.value) || round == 2 || |stage.result.value.requests| == 0 {
        return Conclude(c.id, stage.result), calls;
      }
      var d := stage.result.value;
      working := ServeRequests(cell, working, d.requests, reader);
      previous := Some(Withheld(d));
    }
  }

  /** The request loop of a round that asked for more source. */
  method ServeRequests(cell: Cell, working: Candidate, requests: seq<ReadRequest>, reader: Option<Reader>)
    returns (working': Candidate)
    modifies cell
    ensures var g := Fetch(reader, Gathered(old(cell.candidate.retrieved), working.sources), requests);
            && cell.candidate == old(cell.candidate).(retrieved := g.retrieved)
            && working' == working.(sources := g.sources)
  {
    ghost var g := Gathered(cell.candidate.retrieved, working.sources);
    working' := working;
    for k := 0 to |requests|
      invariant cell.candidate == old(cell.candidate).(retrieved := cell.candidate.retrieved)
      invariant working' == working.(sources := working'.sources)
      invariant Fetch(reader, Gathered(cell.candidate.retrieved, working'.sources), requests[k..])
                == Fetch(reader, g, requests)
    {
      working' := ServeRequest(cell, working', requests[k], reader);
      assert requests[k..][1..] == requests[k + 1..];
    }
  }

  /** One turn of the request loop: skip covered requests, reuse a saved source, or read and save a new one. */
  method ServeRequest(cell: Cell, working: Candidate, r: ReadRequest, reader: Option<Reader>)
    returns (working': Candidate)
    modifies cell
    ensures var g := FetchOne(reader, Gathered(old(cell.candidate.retrieved), working.sources), r);
            && cell.candidate == old(cell.candidate).(retrieved := g.retrieved)
            && working' == working.(sources := g.sources)
  {
    working' := working;
    if SavedRequest(working.sources, r) {
      return;
    }
    var found := FindStanding(cell.candidate.retrieved, r);
    var source := if found.Some? then found.value else Absent(r).(id := NoId);
    if source.id == NoId && reader.Some? {
      source := reader.value(r);
      cell.candidate := cell.candidate.(retrieved := cell.candidate.retrieved + [source]);
    }
    if source.id == NoId {
      source := Absent(r);
    }
    working' := working.(sources := working.sources + [source]);
  }
}
