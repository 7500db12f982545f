/** What a verification decides, in terms of the provider's answers (verify and requestDecision, verify.go). */
module Verdicts {
  import opened Prelude
  import opened RegionGroups
  import opened Sources
  import opened Verify
  import opened Replay

  // ---- which snapshots are accepted ----

  /** Regions with a valid path and at least one line. */
  ghost predicate GoodRegions(regions: seq<Region>) {
    forall r :: r in regions ==> ValidPath(r.path) && r.start >= 1 && r.end >= r.start
  }

  /** Sources whose ID is that of their own content. */
  ghost predicate GoodSources(sources: seq<Source>) {
    forall s :: s in sources ==> s.id == SourceId(s) && s.startLine >= 1
  }

  ghost predicate GoodSnapshot(s: Snapshot) {
    && s.version == "adversary.finding-verification.v1" && |s.candidates| <= 1000
    && (forall c :: c in s.candidates ==>
          c.id != "" && GoodRegions(c.changedRegions) && GoodSources(c.sources) && GoodSources(c.retrieved))
    && forall i, j :: 0 <= i < j < |s.candidates| ==> s.candidates[i].id != s.candidates[j].id
  }

  /** A run reports on exactly the good snapshots of at most 64 MiB. */
  lemma RunIff(s: Snapshot, model: Option<Model>, reader: Option<Reader>, size: Snapshot -> nat)
    ensures Run(s, model, reader, size).Ok? <==> GoodSnapshot(s) && size(s) <= 67108864
    ensures Run(s, model, reader, size) == Err(InvalidSnapshot) <==> !GoodSnapshot(s)
  {
    hide ValidPath, SourceId, VerifySpec;
    forall c | c in s.candidates
      ensures ValidCandidate(c) <==>
                c.id != "" && GoodRegions(c.changedRegions) && GoodSources(c.sources) && GoodSources(c.retrieved)
    {
      RegionsMean(c.changedRegions);
      SourcesMean(c.sources);
      SourcesMean(c.retrieved);
    }
    hide ValidCandidate, GoodRegions, GoodSources;
    AllCandidates(s);
  }

  lemma AllCandidates(s: Snapshot)
    ensures (forall c :: c in s.candidates ==> ValidCandidate(c))
       <==> forall i :: 0 <= i < |s.candidates| ==> ValidCandidate(s.candidates[i])
  {
    hide ValidCandidate;
  }

  lemma RegionsMean(regions: seq<Region>)
    ensures ValidRegions(regions) <==> GoodRegions(regions)
  {
    hide ValidPath;
    if ValidRegions(regions) {
      forall r | r in regions ensures ValidPath(r.path) && r.start >= 1 && r.end >= r.start {
        var k :| 0 <= k < |regions| && regions[k] == r;
      }
    }
  }

  lemma SourcesMean(sources: seq<Source>)
    ensures ValidSources(sources) <==> GoodSources(sources)
  {
    hide SourceId;
    if ValidSources(sources) {
      forall s | s in sources ensures s.id == SourceId(s) && s.startLine >= 1 {
        var k :| 0 <= k < |sources| && sources[k] == s;
      }
    }
  }

  // ---- which answers are accepted ----

  /** The citation names a readable source and one of its lines. */
  ghost predicate Cites(e: Citation, s: Source) {
    && s.id == e.sourceId && s.unavailable == ""
    && s.startLine <= e.line && e.line - s.startLine < LineCount(s.content)
  }

  ghost predicate CitesChange(e: Citation, s: Source, regions: seq<Region>) {
    && s.id == e.sourceId && s.unavailable == "" && s.side == Head
    && exists r :: r in regions && r.path == s.path && r.start <= e.line && e.line <= r.end
  }

  /** The rules for an answer, one conjunct for each way of breaking them. */
  ghost predicate Acceptable(d: Decision, c: Candidate) {
    && d.candidateId == c.id && d.status in {Keep, Reject, Unresolved} && d.confidence in {High, Low}
    && (exists x :: x in d.reason && !IsSpace(x)) && Utf8Length(d.reason) <= 4000
    && |d.requests| <= 3 && |d.evidence| <= 8
    && (forall r :: r in d.requests ==> ValidRequest(r))
    && (d.evidence == [] ==> d.status == Unresolved)
    && (forall e :: e in d.evidence ==> exists s :: s in c.sources && Cites(e, s))
    && (d.status == Keep && !c.wholeRepository && c.changedRegions != [] ==>
          exists e, s :: e in d.evidence && s in c.sources + c.retrieved && CitesChange(e, s, c.changedRegions))
  }

  lemma ResolvesMeans(e: Citation, sources: seq<Source>)
    ensures Resolves(e, sources) <==> exists s :: s in sources && Cites(e, s)
  {
    hide LineCount;
    if Resolves(e, sources) {
      var k :| 0 <= k < |sources| && sources[k].id == e.sourceId && Holds(sources[k], e.line);
      assert Cites(e, sources[k]);
    }
    if s :| s in sources && Cites(e, s) {
      var k :| 0 <= k < |sources| && sources[k] == s;
      assert Holds(sources[k], e.line);
    }
  }

  lemma CitesChangedMeans(evidence: seq<Citation>, sources: seq<Source>, regions: seq<Region>)
    ensures CitesChangedRegion(evidence, sources, regions)
       <==> exists e, s :: e in evidence && s in sources && CitesChange(e, s, regions)
  {
    if CitesChangedRegion(evidence, sources, regions) {
      var i :| 0 <= i < |evidence| && CitesRegion(evidence[i], sources, regions);
      var k :| 0 <= k < |sources| && sources[k].id == evidence[i].sourceId && sources[k].side.Head?
               && sources[k].unavailable == "" && InRegion(sources[k].path, evidence[i].line, regions);
      assert CitesChange(evidence[i], sources[k], regions);
    }
    if e, s :| e in evidence && s in sources && CitesChange(e, s, regions) {
      var i :| 0 <= i < |evidence| && evidence[i] == e;
      var k :| 0 <= k < |sources| && sources[k] == s;
      var r :| r in regions && r.path == s.path && r.start <= e.line && e.line <= r.end;
      var m :| 0 <= m < |regions| && regions[m] == r;
      assert InRegion(s.path, e.line, regions);
      assert CitesRegion(evidence[i], sources, regions);
    }
  }

  /** An answer is accepted exactly when it keeps the rules. */
  lemma AcceptedIff(d: Decision, c: Candidate)
    ensures Validate(d, c).None? <==> Acceptable(d, c)
  {
    hide TrimSpace, IsSpace, Utf8Length, ValidRequest, Resolves, CitesChangedRegion, Cites, CitesChange;
    TrimmedAway(d.reason);
    forall e | e in d.evidence ensures Resolves(e, c.sources) <==> exists s :: s in c.sources && Cites(e, s) {
      ResolvesMeans(e, c.sources);
    }
    CitesChangedMeans(d.evidence, c.sources + c.retrieved, c.changedRegions);
    RuleByRule(d, c);
  }

  lemma RuleByRule(d: Decision, c: Candidate)
    ensures (exists k :: 0 <= k < |d.requests| && !ValidRequest(d.requests[k]))
       <==> !(forall r :: r in d.requests ==> ValidRequest(r))
    ensures (exists k :: 0 <= k < |d.evidence| && !Resolves(d.evidence[k], c.sources))
       <==> !(forall e :: e in d.evidence ==> Resolves(e, c.sources))
  {
    hide ValidRequest, Resolves;
  }

  /** A refusal names a rule that the answer breaks. */
  lemma FlawIsReal(d: Decision, c: Candidate)
    ensures match Validate(d, c)
            case None => true
            case Some(WrongCandidate) => d.candidateId != c.id
            case Some(UnknownStatus) => d.status !in {Keep, Reject, Unresolved}
            case Some(UnknownConfidence) => d.confidence !in {High, Low}
            case Some(BadReason) => (forall x :: x in d.reason ==> IsSpace(x)) || Utf8Length(d.reason) > 4000
            case Some(OverBudget) => |d.requests| > 3 || |d.evidence| > 8
            case Some(InvalidRequest) => exists r :: r in d.requests && !ValidRequest(r)
            case Some(MissingCitations) => d.evidence == [] && d.status in {Keep, Reject}
            case Some(UnresolvedCitation) =>
              exists e :: e in d.evidence && forall s :: s in c.sources ==> !Cites(e, s)
            case Some(NoCausalCitation) =>
              d.status == Keep && forall e, s :: e in d.evidence && s in c.sources + c.retrieved ==>
                  !CitesChange(e, s, c.changedRegions)
            case Some(Malformed(_)) => false
  {
    hide TrimSpace, IsSpace, Utf8Length, ValidRequest, Resolves, CitesChangedRegion, Cites, CitesChange;
    TrimmedAway(d.reason);
    forall e | e in d.evidence ensures Resolves(e, c.sources) <==> exists s :: s in c.sources && Cites(e, s) {
      ResolvesMeans(e, c.sources);
    }
    CitesChangedMeans(d.evidence, c.sources + c.retrieved, c.changedRegions);
    RuleByRule(d, c);
    if e :| e in d.evidence && !Resolves(e, c.sources) {
      assert forall s :: s in c.sources ==> !Cites(e, s);
    }
  }

  // ---- the transcript of one stage ----

  /** The provider's reply cannot be used, and this is what is wrong with it. */
  ghost predicate Rejected(reply: Reply, working: Candidate, flaw: Flaw) {
    && reply.Reply? && !reply.oversized
    && match reply.parsed
       case Err(detail) => flaw == Malformed(detail)
       case Ok(d) => Validate(d, working) == Some(flaw) && !Acceptable(d, working)
  }

  /** The sources in their JSON spelling. */
  ghost predicate Spelled(spelled: seq<Source>, sources: seq<Source>) {
    && |spelled| == |sources|
    && forall k :: 0 <= k < |sources| ==> spelled[k] == sources[k].(content := Spelling(sources[k].content))
  }

  /** Each range is the lines of a source, and each line of a source is in some range. */
  ghost predicate ListsLines(ranges: seq<Range>, sources: seq<Source>) {
    && (forall r :: r in ranges ==> exists s :: s in sources && IsRangeOf(r, s))
    && forall s, line :: s in sources && Holds(s, line) ==> exists r :: r in ranges && IsRangeOf(r, s)
  }

  ghost predicate IsRangeOf(r: Range, s: Source) {
    && r.sourceId == s.id && r.path == s.path && r.side == s.side && s.unavailable == ""
    && r.startLine == s.startLine && r.endLine == s.startLine + LineCount(s.content) - 1 && r.startLine <= r.endLine
  }

  /** What an input shows: the working candidate, the earlier answer, and the reply to correct, if there is one. */
  ghost predicate Shows(input: Input, working: Candidate, previous: Option<Decision>, invalid: Option<Json>,
                        flaw: Option<Flaw>) {
    var shown := input.candidate;
    && shown == working.(sources := shown.sources, retrieved := shown.retrieved, patch := Spelling(working.patch))
    && Spelled(shown.sources, working.sources) && Spelled(shown.retrieved, working.retrieved)
    && ListsLines(input.ranges, working.sources)
    && input.previous == previous && input.invalidOutput == invalid && input.flaw == flaw
  }

  lemma {:induction false} SpellSourcesMeans(sources: seq<Source>)
    ensures Spelled(SpellSources(sources), sources)
  {
    if sources != [] {
      SpellSourcesMeans(sources[1..]);
    }
  }

  lemma {:induction false} RangesMean(sources: seq<Source>)
    ensures ListsLines(Ranges(sources), sources)
  {
    hide LineCount;
    if sources != [] {
      var before, s := sources[..|sources| - 1], sources[|sources| - 1];
      RangesMean(before);
      assert sources == before + [s];
      var ranges := Ranges(sources);
      if s.unavailable == "" && LineCount(s.content) > 0 {
        assert ranges == Ranges(before) + [ranges[|ranges| - 1]] && IsRangeOf(ranges[|ranges| - 1], s);
      }
    }
  }

  lemma PromptShows(working: Candidate, previous: Option<Decision>, invalid: Option<Json>, flaw: Option<Flaw>)
    ensures Shows(Prompt(working, previous, invalid, flaw), working, previous, invalid, flaw)
  {
    hide SpellSources, Ranges, Spelled, ListsLines, Spelling;
    SpellSourcesMeans(working.sources);
    SpellSourcesMeans(working.retrieved);
    RangesMean(working.sources);
  }

  const INPUT_LIMIT := 786432

  /** Call `k` of a stage, and the reply it got if that reply was rejected. */
  ghost predicate Logged(m: Model, working: Candidate, previous: Option<Decision>, round: int, inputs: seq<Input>,
                         flaws: seq<Flaw>, calls: seq<Call>, k: nat)
    requires k < |inputs| == |calls| && |flaws| <= |inputs| <= |flaws| + 1
  {
    && m.size(inputs[k]) <= INPUT_LIMIT
    && Shows(inputs[k], working, previous, if k == 0 then None else calls[k - 1].output,
             if k == 0 then None else Some(flaws[k - 1]))
    && calls[k].candidateId == working.id && calls[k].round == round && calls[k].attempt == k + 1
    && calls[k].digest == inputs[k]
    && (k < |flaws| ==>
          var reply := m.review(inputs[k]);
          && Rejected(reply, working, flaws[k])
          && calls[k].output == reply.json && calls[k].usage == reply.usage && calls[k].error == Flawed(flaws[k]))
  }

  ghost predicate AllLogged(m: Model, working: Candidate, previous: Option<Decision>, round: int, inputs: seq<Input>,
                            flaws: seq<Flaw>, calls: seq<Call>)
  {
    && |inputs| == |calls| && |flaws| <= |inputs| <= |flaws| + 1
    && forall k :: 0 <= k < |inputs| ==> Logged(m, working, previous, round, inputs, flaws, calls, k)
  }

  /** How a stage ends: after three rejected replies, before an input that is too large, or with the last reply. */
  ghost predicate Ends(m: Model, working: Candidate, previous: Option<Decision>, inputs: seq<Input>, flaws: seq<Flaw>,
                       stage: Stage)
    requires |inputs| == |stage.calls| && |flaws| <= |inputs| <= |flaws| + 1
  {
    var n := |flaws|;
    if |inputs| == n then
      || (n == 3 && stage.result == Err(InvalidDecision(flaws[2])))
      || (n < 3 && stage.result == Err(InputBudget)
          && exists input :: m.size(input) > INPUT_LIMIT
               && Shows(input, working, previous, if n == 0 then None else stage.calls[n - 1].output,
                        if n == 0 then None else Some(flaws[n - 1])))
    else
      && n < 3
      && match m.review(inputs[n])
         case RequestFailed =>
           && stage.result == Err(ProviderRequest) && stage.calls[n].error == CallFailed
           && stage.calls[n].output == None && stage.calls[n].usage == 0
         case Reply(oversized, json, parsed, usage) =>
           if oversized then
             && stage.result == Err(OutputBudget) && stage.calls[n].error == OutputTooLarge
             && stage.calls[n].output == None && stage.calls[n].usage == usage
           else
             && parsed.Ok? && Acceptable(parsed.value, working)
             && stage.result == Ok(parsed.value.(failure := NoFailure))
             && stage.calls[n].error == NoError && stage.calls[n].output == json && stage.calls[n].usage == usage
  }

  /**
   * A stage asks at most three times. Every input shows the working candidate and what was wrong with the reply before;
   * every reply but the last one was rejected, and the last one decides.
   */
  lemma {:induction false} StageTranscript(m: Model, working: Candidate, previous: Option<Decision>, round: int)
    returns (inputs: seq<Input>, flaws: seq<Flaw>)
    ensures var stage := RequestSpec(m, working, previous, round);
            && AllLogged(m, working, previous, round, inputs, flaws, stage.calls)
            && Ends(m, working, previous, inputs, flaws, stage)
  {
    assert AllLogged(m, working, previous, round, [], [], []);
    hide AllLogged, Ends, Ask;
    inputs, flaws := AskTranscript(m, working, previous, round, 1, None, None, [], [], []);
  }

  lemma {:induction false} AskTranscript(m: Model, working: Candidate, previous: Option<Decision>, round: int,
                                         attempt: nat, invalidOutput: Option<Json>, flaw: Option<Flaw>,
                                         calls: seq<Call>, asked: seq<Input>, found: seq<Flaw>)
    returns (inputs: seq<Input>, flaws: seq<Flaw>)
    requires 1 <= attempt <= 4 && |asked| == |found| == |calls| == attempt - 1
    requires AllLogged(m, working, previous, round, asked, found, calls)
    requires flaw == (if attempt == 1 then None else Some(found[attempt - 2]))
    requires invalidOutput == (if attempt == 1 then None else calls[attempt - 2].output)
    ensures var stage := Ask(m, working, previous, round, attempt, invalidOutput, flaw, calls);
            && AllLogged(m, working, previous, round, inputs, flaws, stage.calls)
            && Ends(m, working, previous, inputs, flaws, stage)
    decreases 4 - attempt
  {
    hide Prompt, Validate, Acceptable, Shows, Judge, AllLogged, Logged;
    inputs, flaws := asked, found;
    if attempt <= 3 {
      var input := Prompt(working, previous, invalidOutput, flaw);
      PromptShows(working, previous, invalidOutput, flaw);
      if m.size(input) <= MAX_INPUT_BYTES {
        var (verdict, call) := Judge(m.review(input), working, NewCall(working, round, attempt, input));
        OneAttempt(m, working, previous, round, asked, found, calls, input);
        inputs := asked + [input];
        if verdict.Correct? {
          inputs, flaws := AskTranscript(m, working, previous, round, attempt + 1, call.output, Some(verdict.flaw),
                                         calls + [call], asked + [input], found + [verdict.flaw]);
        } else {
          LastReply(m, working, previous, round, asked, found, calls, input);
        }
      } else {
        assert Shows(input, working, previous, invalidOutput, flaw);
      }
    }
  }

  /** One more attempt is logged, with its flaw if the reply is to be corrected. */
  lemma OneAttempt(m: Model, working: Candidate, previous: Option<Decision>, round: int, inputs: seq<Input>,
                   flaws: seq<Flaw>, calls: seq<Call>, input: Input)
    requires |inputs| == |flaws| <= 2 && AllLogged(m, working, previous, round, inputs, flaws, calls)
    requires m.size(input) <= INPUT_LIMIT
    requires Shows(input, working, previous, if calls == [] then None else calls[|calls| - 1].output,
                   if flaws == [] then None else Some(flaws[|flaws| - 1]))
    ensures var (verdict, call) := Judge(m.review(input), working, NewCall(working, round, |inputs| + 1, input));
            AllLogged(m, working, previous, round, inputs + [input],
                      if verdict.Correct? then flaws + [verdict.flaw] else flaws, calls + [call])
  {
    hide Shows, Validate, Acceptable;
    var reply := m.review(input);
    var (verdict, call) := Judge(reply, working, NewCall(working, round, |inputs| + 1, input));
    if reply.Reply? && reply.parsed.Ok? {
      AcceptedIff(reply.parsed.value, working);
    }
    var more := if verdict.Correct? then flaws + [verdict.flaw] else flaws;
    assert Logged(m, working, previous, round, inputs + [input], more, calls + [call], |inputs|);
    LoggedMore(m, working, previous, round, inputs, flaws, calls, input, more, call);
  }

  lemma LastReply(m: Model, working: Candidate, previous: Option<Decision>, round: int, inputs: seq<Input>,
                  flaws: seq<Flaw>, calls: seq<Call>, input: Input)
    requires |inputs| == |flaws| == |calls| <= 2
    requires Judge(m.review(input), working, NewCall(working, round, |inputs| + 1, input)).0.Final?
    ensures var (verdict, call) := Judge(m.review(input), working, NewCall(working, round, |inputs| + 1, input));
            Ends(m, working, previous, inputs + [input], flaws, Stage(verdict.result, calls + [call]))
  {
    hide Shows, Validate, Acceptable;
    var reply := m.review(input);
    if reply.Reply? && reply.parsed.Ok? {
      AcceptedIff(reply.parsed.value, working);
    }
  }

  lemma LoggedMore(m: Model, working: Candidate, previous: Option<Decision>, round: int, inputs: seq<Input>,
                   flaws: seq<Flaw>, calls: seq<Call>, input: Input, more: seq<Flaw>, call: Call)
    requires |inputs| == |flaws| && AllLogged(m, working, previous, round, inputs, flaws, calls)
    requires flaws <= more && |more| <= |flaws| + 1
    requires Logged(m, working, previous, round, inputs + [input], more, calls + [call], |inputs|)
    ensures AllLogged(m, working, previous, round, inputs + [input], more, calls + [call])
  {
    hide Shows, Rejected;
    forall k | 0 <= k < |inputs|
      ensures Logged(m, working, previous, round, inputs + [input], more, calls + [call], k)
    {
      assert Logged(m, working, previous, round, inputs, flaws, calls, k);
    }
  }

  // ---- serving requests ----

  /** The source holds all the requested lines, as far as the file has them. */
  ghost predicate Holding(s: Source, r: ReadRequest) {
    && s.path == r.path && s.side == r.side && s.unavailable == "" && s.startLine <= r.startLine
    && (s.endOfFile || r.endLine < s.startLine + LineCount(s.content))
  }

  /** A source kept from an earlier run answers the request: the same place, with the lines or with a reason. */
  ghost predicate KeptFor(s: Source, r: ReadRequest) {
    s.path == r.path && s.side == r.side && s.startLine == r.startLine && (s.unavailable == "" ==> Holding(s, r))
  }

  /** What is noted for a request that can neither be found nor read. */
  ghost predicate Noted(s: Source, r: ReadRequest) {
    && s.path == r.path && s.side == r.side && s.startLine == r.startLine && s.content == [] && !s.endOfFile
    && s.unavailable == "Requested context is absent from the saved replay packet." && s.id == SourceId(s)
  }

  lemma SavedMeans(sources: seq<Source>, r: ReadRequest)
    ensures SavedRequest(sources, r) <==> exists s :: s in sources && Holding(s, r)
  {
    hide LineCount;
    if SavedRequest(sources, r) {
      var k :| 0 <= k < |sources| && Covers(sources[k], r);
      assert Holding(sources[k], r);
    }
    if s :| s in sources && Holding(s, r) {
      var k :| 0 <= k < |sources| && sources[k] == s;
      assert Covers(s, r);
    }
  }

  lemma {:induction false} FirstKept(saved: seq<Source>, r: ReadRequest)
    ensures match FirstStanding(saved, r)
            case Some(s) => exists k :: 0 <= k < |saved| && saved[k] == s && KeptFor(s, r)
                                        && forall h :: 0 <= h < k ==> !KeptFor(saved[h], r)
            case None => forall s :: s in saved ==> !KeptFor(s, r)
  {
    hide LineCount;
    if saved != [] && !Stands(saved[0], r) {
      FirstKept(saved[1..], r);
      if FirstStanding(saved, r).Some? {
        var k :| 0 <= k < |saved[1..]| && saved[1..][k] == FirstStanding(saved, r).value && KeptFor(saved[1..][k], r)
                 && forall h :: 0 <= h < k ==> !KeptFor(saved[1..][h], r);
        assert saved[k + 1] == saved[1..][k];
        forall h | 0 <= h < k + 1 ensures !KeptFor(saved[h], r) {
          if h > 0 { assert saved[h] == saved[1..][h - 1]; }
        }
      }
    }
  }

  /**
   * One request: nothing happens when its lines are at hand. Otherwise the first kept source for it joins the working
   * sources; without one the reader is asked, and its answer is kept too; without a reader the gap is noted.
   */
  lemma ServingMeans(reader: Option<Reader>, g: Gathering, r: ReadRequest)
    requires forall s :: s in g.retrieved ==> s.id != NoId
    requires reader.Some? ==> reader.value(r).id != NoId
    ensures var out := FetchOne(reader, g, r);
            if exists s :: s in g.sources && Holding(s, r) then out == g
            else if exists s :: s in g.retrieved && KeptFor(s, r) then
              && out.retrieved == g.retrieved
              && exists k :: && 0 <= k < |g.retrieved| && KeptFor(g.retrieved[k], r)
                             && out.sources == g.sources + [g.retrieved[k]]
                             && forall h :: 0 <= h < k ==> !KeptFor(g.retrieved[h], r)
            else if reader.Some? then
              out == Gathered(g.retrieved + [reader.value(r)], g.sources + [reader.value(r)])
            else
              && out.retrieved == g.retrieved
              && exists s :: Noted(s, r) && out.sources == g.sources + [s]
  {
    hide SavedRequest, FirstStanding, KeptFor, Holding, SourceId;
    SavedMeans(g.sources, r);
    FirstKept(g.retrieved, r);
    AbsentIsNoted(r);
  }

  lemma AbsentIsNoted(r: ReadRequest)
    ensures Noted(Absent(r), r)
  {
  }

  /** After serving, every request is answered among the working sources, and nothing is taken away. */
  lemma {:induction false} RequestsAreAnswered(reader: Option<Reader>, g: Gathering, requests: seq<ReadRequest>,
                                               r: ReadRequest)
    requires GoodReader(reader) && Identified(g.retrieved)
    requires forall k :: 0 <= k < |requests| ==> ValidRequest(requests[k])
    requires r in requests
    ensures g.sources <= Fetch(reader, g, requests).sources
    ensures exists s :: && s in Fetch(reader, g, requests).sources && s.path == r.path && s.side == r.side
                        && (Holding(s, r) || (s.unavailable != "" && s.startLine == r.startLine))
    decreases |requests|
  {
    hide ValidRequest, Holding, Answers, SourceId, KeptFor;
    var (first, next) := (requests[0], FetchOne(reader, g, requests[0]));
    FetchGrows(reader, next, requests[1..]);
    OneRequestIsAnswered(reader, g, first);
    assert requests == [first] + requests[1..];
    if r != first {
      RequestsAreAnswered(reader, next, requests[1..], r);
    } else {
      var s :| s in next.sources && s.path == r.path && s.side == r.side
               && (Holding(s, r) || (s.unavailable != "" && s.startLine == r.startLine));
      assert s in Fetch(reader, g, requests).sources;
    }
  }

  lemma {:induction false} FetchGrows(reader: Option<Reader>, g: Gathering, requests: seq<ReadRequest>)
    ensures g.sources <= Fetch(reader, g, requests).sources
    decreases |requests|
  {
    hide SavedRequest, FirstStanding, Absent;
    if requests != [] {
      FetchGrows(reader, FetchOne(reader, g, requests[0]), requests[1..]);
    }
  }

  lemma OneRequestIsAnswered(reader: Option<Reader>, g: Gathering, r: ReadRequest)
    requires GoodReader(reader) && Identified(g.retrieved) && ValidRequest(r)
    ensures var out := FetchOne(reader, g, r);
            && Identified(out.retrieved) && g.sources <= out.sources
            && exists s :: && s in out.sources && s.path == r.path && s.side == r.side
                           && (Holding(s, r) || (s.unavailable != "" && s.startLine == r.startLine))
  {
    hide ValidRequest, SavedRequest, FirstStanding, LineCount;
    SavedMeans(g.sources, r);
    FirstKept(g.retrieved, r);
    var out := FetchOne(reader, g, r);
    if out.sources != g.sources {
      var last := out.sources[|out.sources| - 1];
      assert last in out.sources;
      if reader.Some? { assert Answers(reader.value(r), r); }
    }
  }

  // ---- which decisions stand ----

  /** The first answer to a candidate. */
  ghost function FirstAnswer(m: Model, c: Candidate): Stage {
    RequestSpec(m, c.(retrieved := []), None, 1)
  }

  /** What the requests of an answer lead to. */
  ghost function Reading(reader: Option<Reader>, c: Candidate, d: Decision): Gathering {
    Fetch(reader, Gathered(c.retrieved, c.sources), d.requests)
  }

  /** The second answer, over the sources read for the first one, which is shown as unresolved. */
  ghost function SecondAnswer(m: Model, reader: Option<Reader>, c: Candidate, d: Decision): Stage {
    RequestSpec(m, c.(sources := Reading(reader, c, d).sources, retrieved := []), Some(d.(status := Unresolved)), 2)
  }

  ghost predicate Confident(d: Decision) {
    d.confidence == High && (d.status == Keep || d.status == Reject)
  }

  /** The reason given for a failure. */
  ghost predicate Explains(reason: string, c: Candidate, failure: Failure) {
    match failure
    case ContextUnavailable => c.contextError != "" && reason == c.contextError
    case ProviderUnavailable => reason == "Verification provider unavailable."
    case ProviderRequest => reason == "Verification provider request failed."
    case InputBudget => reason == "Candidate context exceeds the verification input budget."
    case OutputBudget => reason == "Verification output exceeds 32 KiB."
    case InvalidDecision(_) => "Invalid verification decision:" <= reason
    case NoFailure => false
  }

  /** What an answer ends in: a confident keep or reject stands as it is, and everything else is unresolved. */
  ghost predicate EndsIn(c: Candidate, answer: Result<Decision, Failure>, decision: Decision) {
    match answer
    case Ok(d) => decision == if Confident(d) then d else d.(status := Unresolved)
    case Err(failure) =>
      && decision.status == Unresolved && decision.candidateId == c.id && decision.failure == failure != NoFailure
      && decision.evidence == [] && decision.requests == [] && decision.confidence == Low
      && Explains(decision.reason, c, failure)
  }

  /** Without a prepared context or a provider nothing is asked, and the candidate is unresolved. */
  lemma UnaskedIsUnresolved(model: Option<Model>, reader: Option<Reader>, c: Candidate)
    requires c.contextError != "" || model.None?
    ensures var (outcome, failure) := (VerifySpec(model, reader, c),
                if c.contextError != "" then ContextUnavailable else ProviderUnavailable);
            EndsIn(c, Err(failure), outcome.decision) && outcome.calls == [] && outcome.retrieved == c.retrieved
  {
  }

  /** The first answer decides unless it is undecided and asks for source; nothing is read for it. */
  lemma FirstAnswerDecides(m: Model, reader: Option<Reader>, c: Candidate)
    requires c.contextError == ""
    requires var answer := FirstAnswer(m, c).result;
             answer.Ok? ==> Confident(answer.value) || answer.value.requests == []
    ensures var (outcome, first) := (VerifySpec(Some(m), reader, c), FirstAnswer(m, c));
            && EndsIn(c, first.result, outcome.decision)
            && outcome.calls == first.calls && outcome.retrieved == c.retrieved
  {
    hide RequestSpec, Fetch, FailureReason, Explains;
    StageIsValid(m, c.(retrieved := []), None, 1);
    AcceptedIsKnown(m, c.(retrieved := []), None, 1);
    var answer := FirstAnswer(m, c).result;
    if answer.Err? { ReasonExplains(c, answer.error); }
  }

  lemma ReasonExplains(c: Candidate, failure: Failure)
    requires failure in {ProviderRequest, InputBudget, OutputBudget} || failure.InvalidDecision?
    ensures Explains(FailureReason(failure), c, failure)
  {
    PrefixOfSum("Invalid verification decision:", " (structural correction attempts exhausted)");
  }

  lemma PrefixOfSum(start: string, end: string)
    ensures start <= start + end
  {
  }

  lemma AcceptedIsKnown(m: Model, working: Candidate, previous: Option<Decision>, round: int)
    ensures var answer := RequestSpec(m, working, previous, round).result;
            if answer.Ok? then answer.value.status in {Keep, Reject, Unresolved}
            else answer.error in {ProviderRequest, InputBudget, OutputBudget} || answer.error.InvalidDecision?
  {
    var inputs, flaws := StageTranscript(m, working, previous, round);
    hide RequestSpec, Acceptable, Logged, Shows;
    StageIsValid(m, working, previous, round);
    var answer := RequestSpec(m, working, previous, round).result;
    if answer.Ok? {
      AcceptedIff(answer.value, working);
      assert Acceptable(answer.value, working);
    }
  }

  /** Otherwise its requests are served and the second answer decides. */
  lemma SecondAnswerDecides(m: Model, reader: Option<Reader>, c: Candidate, d: Decision)
    requires c.contextError == "" && FirstAnswer(m, c).result == Ok(d) && !Confident(d) && d.requests != []
    ensures var (outcome, second) := (VerifySpec(Some(m), reader, c), SecondAnswer(m, reader, c, d));
            && EndsIn(c, second.result, outcome.decision)
            && outcome.calls == FirstAnswer(m, c).calls + second.calls
            && outcome.retrieved == Reading(reader, c, d).retrieved
  {
    hide RequestSpec, Fetch, FailureReason, Explains;
    AcceptedIsKnown(m, c.(retrieved := []), None, 1);
    var g := Reading(reader, c, d);
    AcceptedIsKnown(m, c.(sources := g.sources, retrieved := []), Some(d.(status := Unresolved)), 2);
    var answer := SecondAnswer(m, reader, c, d).result;
    if answer.Err? { ReasonExplains(c, answer.error); }
  }

  // ---- the report of a run ----

  /** Text as it is after being written to JSON and read back. */
  ghost predicate Cleaned(clean: Content, text: Content) {
    && |clean| == |text|
    && forall k :: 0 <= k < |text| ==> clean[k] == if text[k].Stray? then Rune('\U{FFFD}') else text[k]
  }

  ghost predicate CleanedSources(clean: seq<Source>, sources: seq<Source>) {
    && |clean| == |sources|
    && forall k :: 0 <= k < |sources| ==>
        clean[k] == sources[k].(content := clean[k].content) && Cleaned(clean[k].content, sources[k].content)
  }

  /** The private copy of a candidate that a run works on. */
  ghost predicate CopyOf(copy: Candidate, c: Candidate) {
    && copy == c.(patch := copy.patch, sources := copy.sources, retrieved := copy.retrieved)
    && Cleaned(copy.patch, c.patch)
    && CleanedSources(copy.sources, c.sources) && CleanedSources(copy.retrieved, c.retrieved)
  }

  /**
   * A report keeps the candidates in order, each as its copy with the sources its verification has kept, beside its own
   * decision; the calls of all candidates follow each other in the same order.
   */
  lemma {:induction false} ReportTells(s: Snapshot, model: Option<Model>, reader: Option<Reader>, size: Snapshot -> nat,
                                       report: Report) returns (copies: seq<Candidate>, calls: seq<seq<Call>>)
    requires Run(s, model, reader, size) == Ok(report)
    ensures |copies| == |calls| == |report.decisions| == |s.candidates|
    ensures report.snapshot == s.(candidates := report.snapshot.candidates)
    ensures |report.snapshot.candidates| == |s.candidates|
    ensures forall i :: 0 <= i < |s.candidates| ==>
              var outcome := VerifySpec(model, reader, copies[i]);
              && CopyOf(copies[i], s.candidates[i])
              && report.snapshot.candidates[i] == copies[i].(retrieved := outcome.retrieved)
              && report.decisions[i] == outcome.decision && calls[i] == outcome.calls
    ensures report.calls == Flatten(calls)
  {
    hide VerifySpec, ValidSnapshot, Flatten;
    copies := CleanSnapshot(s).candidates;
    var outcomes := Outcomes(model, reader, copies);
    calls := seq(|outcomes|, i requires 0 <= i < |outcomes| => outcomes[i].calls);
    forall i | 0 <= i < |s.candidates| ensures CopyOf(copies[i], s.candidates[i]) {
      CopiesAreClean(s.candidates[i]);
    }
  }

  lemma CopiesAreClean(c: Candidate)
    ensures CopyOf(CleanCandidate(c), c)
  {
  }
}
