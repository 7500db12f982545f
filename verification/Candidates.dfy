/**
 * Building the candidates of a verification run (cmd/finding_verification.go; Prepare,
 * internal/findingverify/source.go).
 */
module Candidates {
  import opened Prelude
  import opened RegionGroups
  import opened Findings
  import opened Sources
  import opened Verify
  import opened Replay

  datatype ReviewRun = ReviewRun(ref: string, scope: string, changedRegions: seq<Region>,
                                 findings: Option<seq<Finding>>)

  // ---- the place of each finding ----

  /** One finding of one run, in the order in which the runs are read. */
  datatype Slot = Slot(run: nat, index: nat, changedRegions: seq<Region>, finding: Finding)

  function RunFindings(run: ReviewRun): seq<Finding> {
    if run.findings.Some? then run.findings.value else []
  }

  function Offset(runs: seq<ReviewRun>, i: nat): nat
    requires i <= |runs|
  {
    if i == 0 then 0 else Offset(runs, i - 1) + |RunFindings(runs[i - 1])|
  }

  function RunSlots(run: ReviewRun, i: nat, n: nat): (slots: seq<Slot>)
    requires n <= |RunFindings(run)|
    ensures |slots| == n
    ensures forall j :: 0 <= j < n ==> slots[j] == Slot(i, j, run.changedRegions, RunFindings(run)[j])
  {
    seq(n, j requires 0 <= j < n => Slot(i, j, run.changedRegions, RunFindings(run)[j]))
  }

  function Slots(runs: seq<ReviewRun>, i: nat): seq<Slot>
    requires i <= |runs|
  {
    if i == 0 then [] else Slots(runs, i - 1) + RunSlots(runs[i - 1], i - 1, |RunFindings(runs[i - 1])|)
  }

  lemma {:induction false} SlotsLength(runs: seq<ReviewRun>, n: nat)
    requires n <= |runs|
    ensures |Slots(runs, n)| == Offset(runs, n)
  {
    if n > 0 {
      SlotsLength(runs, n - 1);
    }
  }

  /** Run `i`, finding `j` has slot Offset(i) + j. */
  lemma {:induction false} SlotOf(runs: seq<ReviewRun>, n: nat, i: nat, j: nat)
    requires i < n <= |runs| && j < |RunFindings(runs[i])|
    ensures Offset(runs, i) + j < |Slots(runs, n)| == Offset(runs, n)
    ensures Slots(runs, n)[Offset(runs, i) + j] == Slot(i, j, runs[i].changedRegions, RunFindings(runs[i])[j])
    decreases n
  {
    hide RunFindings;
    SlotsLength(runs, n);
    SlotsLength(runs, n - 1);
    if i < n - 1 {
      SlotOf(runs, n - 1, i, j);
    }
  }

  /** And every slot belongs to a finding of a run. */
  lemma {:induction false} SlotHasOrigin(runs: seq<ReviewRun>, n: nat, k: nat) returns (i: nat, j: nat)
    requires n <= |runs| && k < |Slots(runs, n)|
    ensures i < n && j < |RunFindings(runs[i])| && k == Offset(runs, i) + j
    ensures Slots(runs, n)[k] == Slot(i, j, runs[i].changedRegions, RunFindings(runs[i])[j])
    decreases n
  {
    hide RunFindings;
    SlotsLength(runs, n - 1);
    if k < Offset(runs, n - 1) {
      i, j := SlotHasOrigin(runs, n - 1, k);
    } else {
      i, j := n - 1, k - Offset(runs, n - 1);
    }
  }

  // ---- the names of candidates ----

  function CandidateId(run: nat, index: nat): (id: string)
    ensures id != ""
  {
    "run-" + Decimal(run) + "-finding-" + Decimal(index)
  }

  /** The name tells the run and the finding. */
  lemma CandidateIdTells(i: nat, j: nat, k: nat, m: nat)
    requires CandidateId(i, j) == CandidateId(k, m)
    ensures i == k && j == m
  {
    DecimalHasValue(i);
    DecimalHasValue(j);
    DecimalHasValue(k);
    DecimalHasValue(m);
    hide Decimal, Value;
    RunNameSplits(i, j);
    RunNameSplits(k, m);
    assert SplitOn(CandidateId(i, j)[4..], '-')[0] == Decimal(i);
    assert CandidateId(i, j) == "run-" + Decimal(i) + "-finding-" + Decimal(j);
    assert CandidateId(i, j)[4 + |Decimal(i)| + 9..] == Decimal(j);
    assert CandidateId(k, m)[4 + |Decimal(k)| + 9..] == Decimal(m);
  }

  lemma RunNameSplits(i: nat, j: nat)
    ensures |CandidateId(i, j)| >= 4 && SplitOn(CandidateId(i, j)[4..], '-')[0] == Decimal(i)
  {
    hide Decimal, SplitOn;
    DecimalHasValue(i);
    assert '-' !in Decimal(i) by { assert Digits(Decimal(i)); }
    assert CandidateId(i, j)[4..] == Decimal(i) + ['-'] + ("finding-" + Decimal(j));
    SplitOffPiece(Decimal(i), '-', "finding-" + Decimal(j));
  }

  // ---- preparing one candidate ----

  function Text(s: string): Content {
    seq(|s|, i requires 0 <= i < |s| => Rune(s[i]))
  }

  /** The changed files and their patches, in path order. */
  type Patches = seq<(string, Content)>

  function PatchOf(patches: Patches, path: string): Content {
    if patches == [] then [] else if patches[0].0 == path then patches[0].1 else PatchOf(patches[1..], path)
  }

  /** strings.Join with a comma and a blank. */
  function Listing(patches: Patches): string {
    if patches == [] then ""
    else if |patches| == 1 then patches[0].0
    else patches[0].0 + ", " + Listing(patches[1..])
  }

  const MAX_PATHS := 4
  const MAX_LEADS := 100
  const POLICIES := ["AGENTS.md", "CLAUDE.md"]

  function AtLeastOne(line: int): int {
    if line < 1 then 1 else line
  }

  /** A hundred lines around the cited one. */
  function Around(e: Evidence, side: Side): ReadRequest {
    var line := if e.line.Some? then AtLeastOne(e.line.value) else 1;
    ReadRequest(e.file, side, AtLeastOne(line - 40), line + 60)
  }

  /** Both sides of a cited file, and its patch if it has one. */
  function WithFile(view: Key -> File, patches: Patches, c: Candidate, e: Evidence): Candidate {
    var patch := PatchOf(patches, e.file);
    c.(sources := c.sources + [ReadSpec(view, Around(e, Base)), ReadSpec(view, Around(e, Head))],
       patch := if patch == [] then c.patch else c.patch + (Text("\nFile: " + e.file + "\n") + patch))
  }

  /** The first four valid cited files, each once. */
  function WithEvidence(view: Key -> File, patches: Patches, c: Candidate, evidence: seq<Evidence>,
                        paths: set<string>): Candidate
    decreases |evidence|
  {
    if evidence == [] || |paths| >= MAX_PATHS then c
    else if !ValidPath(evidence[0].file) || evidence[0].file in paths then
      WithEvidence(view, patches, c, evidence[1..], paths)
    else
      WithEvidence(view, patches, WithFile(view, patches, c, evidence[0]), evidence[1..], paths + {evidence[0].file})
  }

  function PolicyRequest(policy: string): ReadRequest {
    ReadRequest(policy, Head, 1, 120)
  }

  function WithPolicies(view: Key -> File, c: Candidate, policies: seq<string>): Candidate
    decreases |policies|
  {
    if policies == [] then c
    else
      var source := ReadSpec(view, PolicyRequest(policies[0]));
      WithPolicies(view, if source.unavailable == "" then c.(sources := c.sources + [source]) else c, policies[1..])
  }

  function Leads(patches: Patches): Content {
    Text("\nOther changed-file leads (read before relying on them): "
         + Listing(if |patches| > MAX_LEADS then patches[..MAX_LEADS] else patches))
  }

  function Prepared(view: Key -> File, patches: Patches, c: Candidate): Candidate {
    var read := WithPolicies(view, WithEvidence(view, patches, c, c.finding.evidence, {}), POLICIES);
    read.(patch := read.patch + Leads(patches))
  }

  /** Reads depend on the one file they ask for. */
  lemma SameReads(a: Key -> File, b: Key -> File, r: ReadRequest)
    requires a((r.side, r.path)) == b((r.side, r.path))
    ensures ReadSpec(a, r) == ReadSpec(b, r)
  {
  }

  ghost predicate ShowsView(collector: Collector, view: Key -> File)
    reads collector
  {
    forall k :: collector.View()(k) == view(k)
  }

  method ReadView(collector: Collector, ghost view: Key -> File, r: ReadRequest) returns (s: Source)
    requires ShowsView(collector, view)
    modifies collector
    ensures ShowsView(collector, view) && s == ReadSpec(view, r)
  {
    SameReads(collector.View(), view, r);
    s := collector.Read(r);
  }

  method PrepareFile(collector: Collector, ghost view: Key -> File, patches: Patches, c: Candidate, e: Evidence)
    returns (work: Candidate)
    requires ShowsView(collector, view)
    modifies collector
    ensures ShowsView(collector, view) && work == WithFile(view, patches, c, e)
  {
    hide ShowsView, ReadSpec;
    var old_ := ReadView(collector, view, Around(e, Base));
    var new_ := ReadView(collector, view, Around(e, Head));
    work := c.(sources := c.sources + [old_, new_]);
    var patch := PatchOf(patches, e.file);
    if patch != [] {
      work := work.(patch := work.patch + (Text("\nFile: " + e.file + "\n") + patch));
    }
  }

  method PrepareEvidence(collector: Collector, ghost view: Key -> File, patches: Patches, c: Candidate)
    returns (work: Candidate)
    requires ShowsView(collector, view)
    modifies collector
    ensures ShowsView(collector, view) && work == WithEvidence(view, patches, c, c.finding.evidence, {})
  {
    hide ShowsView, WithFile, ValidPath;
    var evidence := c.finding.evidence;
    var paths: set<string> := {};
    work := c;
    for k := 0 to |evidence|
      invariant ShowsView(collector, view)
      invariant WithEvidence(view, patches, work, evidence[k..], paths) == WithEvidence(view, patches, c, evidence, {})
    {
      assert evidence[k..][1..] == evidence[k + 1..];
      if |paths| >= MAX_PATHS {
        break;
      }
      var e := evidence[k];
      if !ValidPath(e.file) || e.file in paths {
        continue;
      }
      paths := paths + {e.file};
      work := PrepareFile(collector, view, patches, work, e);
    }
  }

  method PreparePolicies(collector: Collector, ghost view: Key -> File, c: Candidate) returns (work: Candidate)
    requires ShowsView(collector, view)
    modifies collector
    ensures ShowsView(collector, view) && work == WithPolicies(view, c, POLICIES)
  {
    hide ShowsView, ReadSpec;
    work := c;
    for k := 0 to |POLICIES|
      invariant ShowsView(collector, view)
      invariant WithPolicies(view, work, POLICIES[k..]) == WithPolicies(view, c, POLICIES)
    {
      assert POLICIES[k..][1..] == POLICIES[k + 1..];
      var source := ReadView(collector, view, PolicyRequest(POLICIES[k]));
      if source.unavailable == "" {
        work := work.(sources := work.sources + [source]);
      }
    }
  }

  method Prepare(collector: Collector, ghost view: Key -> File, patches: Patches, c: Candidate)
    returns (prepared: Candidate)
    requires ShowsView(collector, view)
    modifies collector
    ensures ShowsView(collector, view) && prepared == Prepared(view, patches, c)
  {
    hide ShowsView, WithEvidence, WithPolicies;
    var work := PrepareEvidence(collector, view, patches, c);
    work := PreparePolicies(collector, view, work);
    prepared := work.(patch := work.patch + Leads(patches));
  }

  // ---- what preparing keeps and adds ----

  /** `d` is `c` with more identified sources and another patch. */
  ghost predicate Extends(c: Candidate, d: Candidate, more: nat) {
    && d == c.(sources := d.sources, patch := d.patch)
    && c.sources <= d.sources && |d.sources| <= |c.sources| + more
    && forall k :: |c.sources| <= k < |d.sources| ==>
        d.sources[k].id == SourceId(d.sources[k]) && d.sources[k].startLine >= 1
  }

  lemma ReadIsIdentified(view: Key -> File, r: ReadRequest)
    ensures ReadSpec(view, r).id == SourceId(ReadSpec(view, r)) && ReadSpec(view, r).startLine >= 1
  {
    hide ValidPath, SplitOn, JoinWith, ByteLength;
  }

  lemma ExtendsTwice(a: Candidate, b: Candidate, c: Candidate, m: nat, n: nat)
    requires Extends(a, b, m) && Extends(b, c, n)
    ensures Extends(a, c, m + n)
  {
    hide SourceId;
    forall k | |a.sources| <= k < |c.sources|
      ensures c.sources[k].id == SourceId(c.sources[k]) && c.sources[k].startLine >= 1
    {
      if k < |b.sources| { assert c.sources[k] == b.sources[k]; }
    }
  }

  lemma {:induction false} EvidenceExtends(view: Key -> File, patches: Patches, c: Candidate, evidence: seq<Evidence>,
                                           paths: set<string>)
    ensures Extends(c, WithEvidence(view, patches, c, evidence, paths), if |paths| >= MAX_PATHS then 0
            else 2 * (MAX_PATHS - |paths|))
    decreases |evidence|
  {
    hide ValidPath, ReadSpec, SourceId;
    if evidence != [] && |paths| < MAX_PATHS {
      var e := evidence[0];
      if !ValidPath(e.file) || e.file in paths {
        EvidenceExtends(view, patches, c, evidence[1..], paths);
      } else {
        ReadIsIdentified(view, Around(e, Base));
        ReadIsIdentified(view, Around(e, Head));
        var d := WithFile(view, patches, c, e);
        assert Extends(c, d, 2);
        EvidenceExtends(view, patches, d, evidence[1..], paths + {e.file});
        hide Extends, WithFile;
        ExtendsTwice(c, d, WithEvidence(view, patches, c, evidence, paths), 2, 2 * (MAX_PATHS - |paths|) - 2);
      }
    }
  }

  lemma {:induction false} PoliciesExtend(view: Key -> File, c: Candidate, policies: seq<string>)
    ensures Extends(c, WithPolicies(view, c, policies), |policies|)
    decreases |policies|
  {
    hide ReadSpec, SourceId;
    if policies != [] {
      ReadIsIdentified(view, PolicyRequest(policies[0]));
      var source := ReadSpec(view, PolicyRequest(policies[0]));
      var d := if source.unavailable == "" then c.(sources := c.sources + [source]) else c;
      assert Extends(c, d, 1);
      PoliciesExtend(view, d, policies[1..]);
      ExtendsTwice(c, d, WithPolicies(view, c, policies), 1, |policies| - 1);
    }
  }

  /** Preparing adds at most ten sources, each identified by its content, and changes nothing else but the patch. */
  lemma {:induction false} PreparedExtends(view: Key -> File, patches: Patches, c: Candidate)
    ensures Extends(c, Prepared(view, patches, c), 10)
  {
    hide WithEvidence, WithPolicies, SourceId;
    var d := WithEvidence(view, patches, c, c.finding.evidence, {});
    EvidenceExtends(view, patches, c, c.finding.evidence, {});
    PoliciesExtend(view, d, POLICIES);
    ExtendsTwice(c, d, WithPolicies(view, d, POLICIES), 8, 2);
  }

  // ---- the candidates of all runs ----

  const NO_CONTEXT := "Pinned review context unavailable."

  /** What verifyComposedResults is given; without a view there is no collector, and nothing can be read. */
  datatype Setup = Setup(allFiles: bool, contextFailed: bool, patches: Patches, view: Option<Key -> File>,
                         base: string, head: string) {
    function Reading(): Option<Reader> {
      if view.Some? then Some(Reads(view.value)) else None
    }
  }

  function Bare(setup: Setup, slot: Slot): Candidate {
    Candidate(CandidateId(slot.run, slot.index), setup.allFiles, slot.changedRegions, slot.finding, [], [], [], "")
  }

  function CandidateFor(setup: Setup, slot: Slot): Candidate {
    var c := Bare(setup, slot);
    if setup.contextFailed || setup.view.None? then c.(contextError := NO_CONTEXT)
    else Prepared(setup.view.value, setup.patches, c)
  }

  function CandidatesFor(setup: Setup, slots: seq<Slot>): (candidates: seq<Candidate>)
    ensures |candidates| == |slots|
    ensures forall k :: 0 <= k < |slots| ==> candidates[k] == CandidateFor(setup, slots[k])
  {
    seq(|slots|, k requires 0 <= k < |slots| => CandidateFor(setup, slots[k]))
  }

  /** The snapshot a verification run starts from. */
  function Opened(setup: Setup, runs: seq<ReviewRun>): Snapshot {
    Snapshot(VERSION, if setup.view.Some? then setup.base else "", if setup.view.Some? then setup.head else "",
             CandidatesFor(setup, Slots(runs, |runs|)))
  }

  /** The collector, where there is one, shows what the setup says. */
  ghost predicate Serves(collector: Collector?, setup: Setup)
    reads collector
  {
    if collector == null then setup.view.None? else setup.view.Some? && ShowsView(collector, setup.view.value)
  }

  method BuildCandidate(collector: Collector?, setup: Setup, slot: Slot) returns (c: Candidate)
    requires Serves(collector, setup)
    modifies collector
    ensures Serves(collector, setup) && c == CandidateFor(setup, slot)
  {
    hide ShowsView, Prepared;
    c := Bare(setup, slot);
    if setup.contextFailed || collector == null {
      c := c.(contextError := NO_CONTEXT);
    } else {
      c := Prepare(collector, setup.view.value, setup.patches, c);
    }
  }

  method BuildRun(collector: Collector?, setup: Setup, run: ReviewRun, i: nat) returns (candidates: seq<Candidate>)
    requires Serves(collector, setup)
    modifies collector
    ensures Serves(collector, setup) && candidates == CandidatesFor(setup, RunSlots(run, i, |RunFindings(run)|))
  {
    hide Serves, CandidateFor, RunFindings;
    var findings := RunFindings(run);
    candidates := [];
    for j := 0 to |findings|
      invariant Serves(collector, setup)
      invariant candidates == CandidatesFor(setup, RunSlots(run, i, j))
    {
      var c := BuildCandidate(collector, setup, Slot(i, j, run.changedRegions, findings[j]));
      candidates := candidates + [c];
    }
  }

  method BuildCandidates(collector: Collector?, setup: Setup, runs: seq<ReviewRun>) returns (candidates: seq<Candidate>)
    requires Serves(collector, setup)
    modifies collector
    ensures Serves(collector, setup) && candidates == CandidatesFor(setup, Slots(runs, |runs|))
  {
    hide Serves, CandidateFor, RunFindings;
    candidates := [];
    for i := 0 to |runs|
      invariant Serves(collector, setup)
      invariant candidates == CandidatesFor(setup, Slots(runs, i))
    {
      var more := BuildRun(collector, setup, runs[i], i);
      candidates := candidates + more;
    }
  }

  // ---- what is built ----

  lemma CandidateForKeeps(setup: Setup, slot: Slot)
    ensures var c := CandidateFor(setup, slot);
            && c.id == CandidateId(slot.run, slot.index) && c.finding == slot.finding
            && c.changedRegions == slot.changedRegions && c.wholeRepository == setup.allFiles
            && c.retrieved == [] && ValidSources(c.sources)
  {
    hide CandidateId, Prepared, SourceId;
    if !setup.contextFailed && setup.view.Some? {
      PreparedExtends(setup.view.value, setup.patches, Bare(setup, slot));
    }
  }

  /**
   * The candidate at Offset(i) + j carries finding `j` of run `i`, under its name and with the changed regions of its
   * run.
   */
  lemma CandidateAt(setup: Setup, runs: seq<ReviewRun>, i: nat, j: nat)
    requires i < |runs| && j < |RunFindings(runs[i])|
    ensures var (s, k) := (Opened(setup, runs), Offset(runs, i) + j);
            && k < |s.candidates| == Offset(runs, |runs|)
            && s.candidates[k].id == CandidateId(i, j) && s.candidates[k].finding == RunFindings(runs[i])[j]
            && s.candidates[k].changedRegions == runs[i].changedRegions
            && s.candidates[k].wholeRepository == setup.allFiles
  {
    hide CandidateFor, CandidateId, RunFindings;
    SlotOf(runs, |runs|, i, j);
    CandidateForKeeps(setup, Slot(i, j, runs[i].changedRegions, RunFindings(runs[i])[j]));
  }

  /** No other candidate has that name. */
  lemma CandidateNamedOnce(setup: Setup, runs: seq<ReviewRun>, i: nat, j: nat, k: nat)
    requires i < |runs| && j < |RunFindings(runs[i])|
    requires k < |Opened(setup, runs).candidates| && Opened(setup, runs).candidates[k].id == CandidateId(i, j)
    ensures k == Offset(runs, i) + j
  {
    hide CandidateId, RunFindings, Offset, Slots, CandidateFor;
    var p, q := SlotHasOrigin(runs, |runs|, k);
    CandidateAt(setup, runs, p, q);
    CandidateIdTells(i, j, p, q);
  }

  /** The changed regions of a run with findings are well formed. */
  predicate RunValid(run: ReviewRun) {
    RunFindings(run) != [] ==> ValidRegions(run.changedRegions)
  }

  lemma AcceptedIsWellFormed(setup: Setup, runs: seq<ReviewRun>, i: nat)
    requires ValidSnapshot(Opened(setup, runs)) && i < |runs|
    ensures RunValid(runs[i])
  {
    hide ValidRegions, ValidSources, CandidateId, RunFindings, CandidateFor, Slots;
    if RunFindings(runs[i]) != [] {
      CandidateAt(setup, runs, i, 0);
      assert ValidCandidate(Opened(setup, runs).candidates[Offset(runs, i)]);
    }
  }

  lemma BuiltCandidateIsValid(setup: Setup, runs: seq<ReviewRun>, k: nat)
    requires forall i :: 0 <= i < |runs| ==> RunValid(runs[i])
    requires k < |Opened(setup, runs).candidates|
    ensures ValidCandidate(Opened(setup, runs).candidates[k])
  {
    hide ValidRegions, CandidateId, CandidateFor, Slots;
    var i, j := SlotHasOrigin(runs, |runs|, k);
    CandidateForKeeps(setup, Slots(runs, |runs|)[k]);
    assert RunValid(runs[i]);
  }

  lemma BuiltNamesDiffer(setup: Setup, runs: seq<ReviewRun>, k: nat, m: nat)
    requires k < m < |Opened(setup, runs).candidates|
    ensures Opened(setup, runs).candidates[k].id != Opened(setup, runs).candidates[m].id
  {
    hide CandidateId, CandidateFor, Slots;
    var i, j := SlotHasOrigin(runs, |runs|, k);
    CandidateAt(setup, runs, i, j);
    if Opened(setup, runs).candidates[m].id == CandidateId(i, j) {
      CandidateNamedOnce(setup, runs, i, j, m);
    }
  }

  /** The built snapshot is accepted exactly when it has at most 1000 findings and well-formed changed regions. */
  lemma OpenedIsValidIff(setup: Setup, runs: seq<ReviewRun>)
    ensures ValidSnapshot(Opened(setup, runs)) <==>
              Offset(runs, |runs|) <= MAX_CANDIDATES && forall i :: 0 <= i < |runs| ==> RunValid(runs[i])
  {
    hide ValidCandidate, RunValid, CandidateFor, Slots;
    var s := Opened(setup, runs);
    SlotsLength(runs, |runs|);
    if ValidSnapshot(s) {
      forall i | 0 <= i < |runs| ensures RunValid(runs[i]) { AcceptedIsWellFormed(setup, runs, i); }
    } else if Offset(runs, |runs|) <= MAX_CANDIDATES && forall i :: 0 <= i < |runs| ==> RunValid(runs[i]) {
      forall k | 0 <= k < |s.candidates|
        ensures ValidCandidate(s.candidates[k])
      {
        BuiltCandidateIsValid(setup, runs, k);
      }
      forall k, m | 0 <= k < m < |s.candidates| ensures s.candidates[k].id != s.candidates[m].id {
        BuiltNamesDiffer(setup, runs, k, m);
      }
      assert false;
    }
  }
}
