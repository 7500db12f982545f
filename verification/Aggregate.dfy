/** Composing the findings of all reviewers into one review (aggregateComposedReview, cmd/composite_run.go). */
module Aggregate {
  import opened Prelude
  import opened Findings

  // ---- ranks and text ----

  function SeverityRank(s: string): nat {
    match s
    case "critical" => 4
    case "high" => 3
    case "medium" => 2
    case "low" => 1
    case _ => 0
  }

  function ConfidenceRank(s: string): nat {
    match s
    case "high" => 3
    case "medium" => 2
    case "low" => 1
    case _ => 0
  }

  /** strings.Fields: the maximal runs of characters that are not white space. */
  function Fields(s: string): seq<string> {
    if s == [] then []
    else
      var last := |s| - 1;
      var before := Fields(s[..last]);
      if IsSpace(s[last]) then before
      else if last > 0 && !IsSpace(s[last - 1]) && before != [] then
        before[|before| - 1 := before[|before| - 1] + [s[last]]]
      else before + [[s[last]]]
  }

  function Normalize(s: string): string {
    var fields := Fields(s);
    if fields == [] then "" else JoinWith(fields, ' ')
  }

  /**
   * `words` splits a text into its set of lower-case words; `suffix` abbreviates a hash; `bytes` is the length of a
   * string.
   */
  datatype Tools = Tools(words: string -> set<string>, suffix: (string, string) -> string, bytes: string -> nat) {
    /** The token sets overlap in at least `tenths` tenths of their union. */
    predicate Similar(a: string, b: string, tenths: nat) {
      var (x, y) := (words(a), words(b));
      x != {} && y != {} && 10 * |x * y| >= tenths * |x + y|
    }
  }

  // ---- when two findings are the same claim ----

  predicate SameDetails(a: Finding, b: Finding) {
    && Normalize(a.whyItMatters) == Normalize(b.whyItMatters)
    && Normalize(a.impact) == Normalize(b.impact)
    && Normalize(a.recommendation) == Normalize(b.recommendation)
    && a.remediation == b.remediation
  }

  predicate SameAssertion(a: Finding, b: Finding) {
    Normalize(a.summary) != "" && Normalize(a.summary) == Normalize(b.summary) && SameDetails(a, b)
  }

  predicate SamePrimaryFile(a: Finding, b: Finding) {
    a.evidence != [] && b.evidence != [] && a.evidence[0].file != "" && a.evidence[0].file == b.evidence[0].file
  }

  predicate SameLocation(a: Finding, b: Finding) {
    && SamePrimaryFile(a, b) && a.evidence[0].line.Some? && b.evidence[0].line.Some?
    && -2 <= a.evidence[0].line.value - b.evidence[0].line.value <= 2
  }

  predicate ShareEvidenceFile(a: Finding, b: Finding) {
    exists i, j :: 0 <= i < |a.evidence| && 0 <= j < |b.evidence| && a.evidence[i].file != ""
        && a.evidence[i].file == b.evidence[j].file
  }

  predicate SummariesSimilar(tools: Tools, a: Finding, b: Finding) {
    TrimSpace(a.summary) != "" && TrimSpace(b.summary) != "" && tools.Similar(a.summary, b.summary, 6)
  }

  predicate Duplicates(tools: Tools, a: Finding, b: Finding) {
    || (b.groupKey != "" && a.groupKey == b.groupKey && SamePrimaryFile(a, b) && SameAssertion(a, b))
    || (SameLocation(a, b) && tools.Similar(a.title, b.title, 6) && SameAssertion(a, b))
    || (ShareEvidenceFile(a, b) && tools.Similar(a.title, b.title, 7) && SummariesSimilar(tools, a, b)
        && SameDetails(a, b))
  }

  /** The first existing finding the candidate duplicates, or the length of the list. */
  function FirstDuplicate(tools: Tools, existing: seq<Finding>, candidate: Finding): (i: nat)
    ensures i <= |existing|
  {
    if existing == [] || Duplicates(tools, existing[0], candidate) then 0
    else 1 + FirstDuplicate(tools, existing[1..], candidate)
  }

  /** What is found is a duplicate, and nothing before it is. */
  lemma {:induction false} FirstDuplicateMeans(tools: Tools, existing: seq<Finding>, candidate: Finding)
    ensures var i := FirstDuplicate(tools, existing, candidate);
            && (i < |existing| ==> Duplicates(tools, existing[i], candidate))
            && forall k :: 0 <= k < i ==> !Duplicates(tools, existing[k], candidate)
  {
    hide Duplicates;
    if existing != [] {
      FirstDuplicateMeans(tools, existing[1..], candidate);
      forall k | 0 <= k < FirstDuplicate(tools, existing, candidate)
        ensures !Duplicates(tools, existing[k], candidate)
      {
        assert k > 0 ==> existing[k] == existing[1..][k - 1];
      }
    }
  }

  lemma DuplicateSharesDetails(tools: Tools, existing: seq<Finding>, candidate: Finding)
    ensures var i := FirstDuplicate(tools, existing, candidate);
            i < |existing| ==> SameDetails(existing[i], candidate)
  {
    hide FirstDuplicate, ShareEvidenceFile, SameDetails;
    FirstDuplicateMeans(tools, existing, candidate);
  }

  method DuplicateFindingIndex(tools: Tools, existing: seq<Finding>, candidate: Finding) returns (index: int)
    ensures index == -1 || (0 <= index < |existing| && Duplicates(tools, existing[index], candidate))
    ensures forall k :: 0 <= k < (if index == -1 then |existing| else index) ==>
              !Duplicates(tools, existing[k], candidate)
    ensures var first := FirstDuplicate(tools, existing, candidate);
            index == if first < |existing| then first else -1
  {
    hide Duplicates;
    FirstDuplicateMeans(tools, existing, candidate);
    for i := 0 to |existing|
      invariant FirstDuplicate(tools, existing, candidate) == i + FirstDuplicate(tools, existing[i..], candidate)
    {
      if Duplicates(tools, existing[i], candidate) {
        return i;
      }
    }
    return -1;
  }

  // ---- merging ----

  predicate SameOrigin(a: Origin, b: Origin) {
    a.adversary == b.adversary && a.scope == b.scope && a.findingId == b.findingId
  }

  predicate HasOrigin(origins: seq<Origin>, origin: Origin) {
    exists k :: 0 <= k < |origins| && SameOrigin(origins[k], origin)
  }

  function AddOrigin(origins: seq<Origin>, origin: Origin): seq<Origin> {
    if HasOrigin(origins, origin) then origins else origins + [origin]
  }

  function LineOrZero(line: Option<int>): int {
    if line.Some? then line.value else 0
  }

  predicate SameEvidence(a: Evidence, b: Evidence) {
    a.file == b.file && LineOrZero(a.line) == LineOrZero(b.line) && a.message == b.message
  }

  predicate HasEvidence(list: seq<Evidence>, e: Evidence) {
    exists k :: 0 <= k < |list| && SameEvidence(list[k], e)
  }

  function AddEvidence(list: seq<Evidence>, values: seq<Evidence>): seq<Evidence>
    decreases |values|
  {
    if values == [] then list
    else AddEvidence(if HasEvidence(list, values[0]) then list else list + [values[0]], values[1..])
  }

  function AddTags(list: seq<string>, values: seq<string>): seq<string>
    decreases |values|
  {
    if values == [] then list
    else AddTags(if values[0] in list then list else list + [values[0]], values[1..])
  }

  method AppendUniqueEvidence(list: seq<Evidence>, values: seq<Evidence>) returns (out: seq<Evidence>)
    ensures out == AddEvidence(list, values)
  {
    out := list;
    for i := 0 to |values|
      invariant AddEvidence(list, values) == AddEvidence(out, values[i..])
    {
      if !HasEvidence(out, values[i]) {
        out := out + [values[i]];
      }
    }
  }

  method AppendUniqueStrings(list: seq<string>, values: seq<string>) returns (out: seq<string>)
    ensures out == AddTags(list, values)
  {
    out := list;
    for i := 0 to |values|
      invariant AddTags(list, values) == AddTags(out, values[i..])
    {
      if values[i] !in out {
        out := out + [values[i]];
      }
    }
  }

  function MergeSpec(tools: Tools, dst: Finding, src: Finding, origin: Origin): Finding {
    dst.(
    origins := AddOrigin(dst.origins, origin),
    severity := if SeverityRank(src.severity) > SeverityRank(dst.severity) then src.severity else dst.severity,
    confidence := if ConfidenceRank(src.confidence) > ConfidenceRank(dst.confidence) then src.confidence
        else dst.confidence,
    evidence := AddEvidence(dst.evidence, src.evidence),
    tags := AddTags(dst.tags, src.tags),
    whyItMatters := if tools.bytes(src.whyItMatters) > tools.bytes(dst.whyItMatters) then src.whyItMatters
        else dst.whyItMatters,
    recommendation := if tools.bytes(src.recommendation) > tools.bytes(dst.recommendation) then src.recommendation
        else dst.recommendation)
  }

  method MergeFinding(tools: Tools, dst: Finding, src: Finding, origin: Origin) returns (merged: Finding)
    ensures merged == MergeSpec(tools, dst, src, origin)
  {
    merged := dst.(origins := AddOrigin(dst.origins, origin));
    if SeverityRank(src.severity) > SeverityRank(merged.severity) {
      merged := merged.(severity := src.severity);
    }
    if ConfidenceRank(src.confidence) > ConfidenceRank(merged.confidence) {
      merged := merged.(confidence := src.confidence);
    }
    var evidence := AppendUniqueEvidence(merged.evidence, src.evidence);
    var tags := AppendUniqueStrings(merged.tags, src.tags);
    merged := merged.(evidence := evidence, tags := tags);
    if tools.bytes(src.whyItMatters) > tools.bytes(merged.whyItMatters) {
      merged := merged.(whyItMatters := src.whyItMatters);
    }
    if tools.bytes(src.recommendation) > tools.bytes(merged.recommendation) {
      merged := merged.(recommendation := src.recommendation);
    }
  }

  function UniqueId(tools: Tools, existing: seq<Finding>, id: string, source: string): string {
    if exists k :: 0 <= k < |existing| && existing[k].id == id then id + "-" + tools.suffix(source, id) else id
  }

  function OriginOf(f: Finding, ref: string, scope: string): Origin {
    Origin(ref, scope, f.id, f.ruleId)
  }

  /** Add one reviewer's finding to the composed list. */
  function Compose(tools: Tools, existing: seq<Finding>, finding: Finding, ref: string, scope: string): seq<Finding> {
    var origin := OriginOf(finding, ref, scope);
    var f := finding.(origins := AddOrigin(finding.origins, origin));
    var i := FirstDuplicate(tools, existing, f);
    if i < |existing| then existing[i := MergeSpec(tools, existing[i], f, origin)]
    else existing + [f.(id := UniqueId(tools, existing, f.id, ref + "\U{0}" + scope))]
  }

  method MergeComposedFinding(tools: Tools, existing: seq<Finding>, finding: Finding, ref: string, scope: string)
    returns (out: seq<Finding>)
    ensures out == Compose(tools, existing, finding, ref, scope)
  {
    var source := OriginOf(finding, ref, scope);
    var f := finding.(origins := AddOrigin(finding.origins, source));
    var index := DuplicateFindingIndex(tools, existing, f);
    if index < 0 {
      return existing + [f.(id := UniqueId(tools, existing, f.id, ref + "\U{0}" + scope))];
    }
    var merged := MergeFinding(tools, existing[index], f, source);
    return existing[index := merged];
  }

  function ComposeAll(tools: Tools, existing: seq<Finding>, findings: seq<Finding>, ref: string,
                      scope: string): seq<Finding> {
    if findings == [] then existing
    else Compose(tools, ComposeAll(tools, existing, findings[..|findings| - 1], ref, scope), findings[|findings| - 1],
        ref, scope)
  }

  // ---- a finding is represented ----

  /** `g` makes every claim `f` makes, at least as strongly. */
  ghost predicate Dominates(tools: Tools, g: Finding, f: Finding) {
    && SeverityRank(g.severity) >= SeverityRank(f.severity)
    && ConfidenceRank(g.confidence) >= ConfidenceRank(f.confidence)
    && (forall e :: e in f.evidence ==> HasEvidence(g.evidence, e))
    && (forall t :: t in f.tags ==> t in g.tags)
    && SameDetails(g, f)
    && tools.bytes(g.whyItMatters) >= tools.bytes(f.whyItMatters)
    && tools.bytes(g.recommendation) >= tools.bytes(f.recommendation)
  }

  ghost predicate Represents(tools: Tools, g: Finding, f: Finding, ref: string, scope: string) {
    HasOrigin(g.origins, OriginOf(f, ref, scope)) && Dominates(tools, g, f)
  }

  ghost predicate Represented(tools: Tools, list: seq<Finding>, f: Finding, ref: string, scope: string) {
    exists k :: 0 <= k < |list| && Represents(tools, list[k], f, ref, scope)
  }

  lemma {:induction false} AddEvidenceKeeps(list: seq<Evidence>, values: seq<Evidence>)
    ensures forall e :: HasEvidence(list, e) || e in values ==> HasEvidence(AddEvidence(list, values), e)
    decreases |values|
  {
    if values != [] {
      var next := if HasEvidence(list, values[0]) then list else list + [values[0]];
      AddEvidenceKeeps(next, values[1..]);
      forall e | HasEvidence(list, e) || e in values ensures HasEvidence(AddEvidence(list, values), e) {
        if HasEvidence(list, e) {
          var k :| 0 <= k < |list| && SameEvidence(list[k], e);
          assert SameEvidence(next[k], e);
        } else if e == values[0] {
          assert next != list ==> SameEvidence(next[|list|], e);
          assert HasEvidence(next, e);
        } else {
          assert e in values[1..];
        }
      }
    }
  }

  lemma {:induction false} AddTagsKeeps(list: seq<string>, values: seq<string>)
    ensures forall t :: t in list || t in values ==> t in AddTags(list, values)
    decreases |values|
  {
    if values != [] {
      AddTagsKeeps(if values[0] in list then list else list + [values[0]], values[1..]);
    }
  }

  lemma AddOriginKeeps(origins: seq<Origin>, origin: Origin, o: Origin)
    ensures HasOrigin(AddOrigin(origins, origin), origin)
    ensures HasOrigin(origins, o) ==> HasOrigin(AddOrigin(origins, origin), o)
  {
    if !HasOrigin(origins, origin) {
      assert SameOrigin((origins + [origin])[|origins|], origin);
    }
    if HasOrigin(origins, o) {
      var k :| 0 <= k < |origins| && SameOrigin(origins[k], o);
      assert SameOrigin(AddOrigin(origins, origin)[k], o);
    }
  }

  /** Merging duplicates strengthens what was there and represents what is added. */
  lemma MergeDominates(tools: Tools, dst: Finding, src: Finding, origin: Origin, f: Finding)
    requires SameDetails(dst, src)
    ensures Dominates(tools, MergeSpec(tools, dst, src, origin), src)
    ensures Dominates(tools, dst, f) ==> Dominates(tools, MergeSpec(tools, dst, src, origin), f)
  {
    AddEvidenceKeeps(dst.evidence, src.evidence);
    AddTagsKeeps(dst.tags, src.tags);
  }

  lemma ComposeRepresents(tools: Tools, existing: seq<Finding>, finding: Finding, ref: string, scope: string)
    ensures Represented(tools, Compose(tools, existing, finding, ref, scope), finding, ref, scope)
  {
    var origin := OriginOf(finding, ref, scope);
    var f := finding.(origins := AddOrigin(finding.origins, origin));
    var out := Compose(tools, existing, finding, ref, scope);
    var i := FirstDuplicate(tools, existing, f);
    DuplicateSharesDetails(tools, existing, f);
    AddOriginKeeps(finding.origins, origin, origin);
    if i < |existing| {
      AddOriginKeeps(existing[i].origins, origin, origin);
      MergeDominates(tools, existing[i], f, origin, f);
      assert Represents(tools, out[i], finding, ref, scope);
    } else {
      forall e | e in finding.evidence ensures HasEvidence(finding.evidence, e) {
        var k :| 0 <= k < |finding.evidence| && finding.evidence[k] == e;
        assert SameEvidence(finding.evidence[k], e);
      }
      assert Represents(tools, out[|existing|], finding, ref, scope);
    }
  }

  lemma ComposeKeeps(tools: Tools, existing: seq<Finding>, finding: Finding, ref: string, scope: string, f: Finding,
                     fRef: string, fScope: string)
    requires Represented(tools, existing, f, fRef, fScope)
    ensures Represented(tools, Compose(tools, existing, finding, ref, scope), f, fRef, fScope)
  {
    var origin := OriginOf(finding, ref, scope);
    var added := finding.(origins := AddOrigin(finding.origins, origin));
    var out := Compose(tools, existing, finding, ref, scope);
    var i := FirstDuplicate(tools, existing, added);
    DuplicateSharesDetails(tools, existing, added);
    var k :| 0 <= k < |existing| && Represents(tools, existing[k], f, fRef, fScope);
    if i == k {
      AddOriginKeeps(existing[i].origins, origin, OriginOf(f, fRef, fScope));
      MergeDominates(tools, existing[i], added, origin, f);
    }
    assert Represents(tools, out[k], f, fRef, fScope);
  }

  lemma {:induction false} ComposeAllRepresents(tools: Tools, existing: seq<Finding>, findings: seq<Finding>,
                                                ref: string, scope: string, j: nat)
    requires j < |findings|
    ensures Represented(tools, ComposeAll(tools, existing, findings, ref, scope), findings[j], ref, scope)
    decreases |findings|
  {
    hide Compose, Represented;
    var (init, last) := (findings[..|findings| - 1], findings[|findings| - 1]);
    var before := ComposeAll(tools, existing, init, ref, scope);
    if j == |init| {
      ComposeRepresents(tools, before, last, ref, scope);
    } else {
      ComposeAllRepresents(tools, existing, init, ref, scope, j);
      ComposeKeeps(tools, before, last, ref, scope, init[j], ref, scope);
    }
  }

  lemma {:induction false} ComposeAllKeeps(tools: Tools, existing: seq<Finding>, findings: seq<Finding>, ref: string,
                                           scope: string, f: Finding, fRef: string, fScope: string)
    requires Represented(tools, existing, f, fRef, fScope)
    ensures Represented(tools, ComposeAll(tools, existing, findings, ref, scope), f, fRef, fScope)
  {
    if findings != [] {
      hide Compose, Represented;
      var last := |findings| - 1;
      ComposeAllKeeps(tools, existing, findings[..last], ref, scope, f, fRef, fScope);
      ComposeKeeps(tools, ComposeAll(tools, existing, findings[..last], ref, scope), findings[last], ref, scope, f,
          fRef, fScope);
    }
  }

  // ---- ordering by severity ----

  /** sort.SliceStable by falling severity: each finding goes behind those of at least its rank. */
  function InsertStable(sorted: seq<Finding>, f: Finding): seq<Finding> {
    if sorted == [] || SeverityRank(sorted[|sorted| - 1].severity) >= SeverityRank(f.severity) then sorted + [f]
    else InsertStable(sorted[..|sorted| - 1], f) + [sorted[|sorted| - 1]]
  }

  function StableSort(findings: seq<Finding>): seq<Finding> {
    if findings == [] then [] else InsertStable(StableSort(findings[..|findings| - 1]), findings[|findings| - 1])
  }

  predicate BySeverity(findings: seq<Finding>) {
    forall i, j :: 0 <= i < j < |findings| ==> SeverityRank(findings[i].severity) >= SeverityRank(findings[j].severity)
  }

  function OfRank(findings: seq<Finding>, rank: nat): seq<Finding> {
    if findings == [] then []
    else
      var last := findings[|findings| - 1];
      OfRank(findings[..|findings| - 1], rank) + if SeverityRank(last.severity) == rank then [last] else []
  }

  lemma OfRankSnoc(findings: seq<Finding>, f: Finding, rank: nat)
    ensures OfRank(findings + [f], rank)
         == OfRank(findings, rank) + if SeverityRank(f.severity) == rank then [f] else []
  {
    assert (findings + [f])[..|findings|] == findings;
  }

  lemma {:induction false} InsertStableMembers(sorted: seq<Finding>, f: Finding)
    ensures forall g :: g in InsertStable(sorted, f) <==> g in sorted || g == f
  {
    if sorted != [] && SeverityRank(sorted[|sorted| - 1].severity) < SeverityRank(f.severity) {
      InsertStableMembers(sorted[..|sorted| - 1], f);
      assert sorted == sorted[..|sorted| - 1] + [sorted[|sorted| - 1]];
    }
  }

  lemma BySeveritySnoc(findings: seq<Finding>, f: Finding)
    requires BySeverity(findings) && forall g :: g in findings ==> SeverityRank(g.severity) >= SeverityRank(f.severity)
    ensures BySeverity(findings + [f])
  {
  }

  lemma {:induction false} InsertStableSorts(sorted: seq<Finding>, f: Finding)
    requires BySeverity(sorted)
    ensures BySeverity(InsertStable(sorted, f))
  {
    if sorted == [] {
    } else {
      var (before, last) := (sorted[..|sorted| - 1], sorted[|sorted| - 1]);
      assert forall g :: g in before ==> SeverityRank(g.severity) >= SeverityRank(last.severity);
      if SeverityRank(last.severity) >= SeverityRank(f.severity) {
        assert forall g :: g in sorted ==> g in before || g == last;
        BySeveritySnoc(sorted, f);
      } else {
        InsertStableSorts(before, f);
        InsertStableMembers(before, f);
        BySeveritySnoc(InsertStable(before, f), last);
      }
    }
  }

  lemma InsertStableStep(sorted: seq<Finding>, f: Finding)
    ensures var n := |sorted|;
            InsertStable(sorted, f) == if n == 0 || SeverityRank(sorted[n - 1].severity) >= SeverityRank(f.severity)
              then sorted + [f] else InsertStable(sorted[..n - 1], f) + [sorted[n - 1]]
  {
  }

  lemma {:induction false} InsertStableRank(sorted: seq<Finding>, f: Finding, rank: nat)
    ensures OfRank(InsertStable(sorted, f), rank)
         == OfRank(sorted, rank) + if SeverityRank(f.severity) == rank then [f] else []
  {
    hide *;
    InsertStableStep(sorted, f);
    if sorted == [] || SeverityRank(sorted[|sorted| - 1].severity) >= SeverityRank(f.severity) {
      OfRankSnoc(sorted, f, rank);
    } else {
      var (before, last) := (sorted[..|sorted| - 1], sorted[|sorted| - 1]);
      InsertStableRank(before, f, rank);
      OfRankSnoc(InsertStable(before, f), last, rank);
      assert sorted == before + [last];
      OfRankSnoc(before, last, rank);
    }
  }

  lemma {:induction false} StableSortMembers(findings: seq<Finding>)
    ensures forall g :: g in StableSort(findings) <==> g in findings
  {
    if findings != [] {
      var (before, last) := (findings[..|findings| - 1], findings[|findings| - 1]);
      StableSortMembers(before);
      InsertStableMembers(StableSort(before), last);
      assert findings == before + [last];
    }
  }

  /** The result is sorted by falling severity, and findings of equal rank keep their order. */
  lemma {:induction false} StableSortIsStable(findings: seq<Finding>, rank: nat)
    ensures BySeverity(StableSort(findings))
    ensures OfRank(StableSort(findings), rank) == OfRank(findings, rank)
  {
    if findings != [] {
      var (before, last) := (findings[..|findings| - 1], findings[|findings| - 1]);
      StableSortIsStable(before, rank);
      InsertStableSorts(StableSort(before), last);
      InsertStableRank(StableSort(before), last, rank);
    }
  }

  // ---- the whole aggregation ----

  datatype Envelope = Envelope(protocol: int, findings: seq<Finding>, suppressed: seq<Finding>)

  datatype ReviewerRun = ReviewerRun(ref: string, scope: string, envelope: Option<Envelope>)

  datatype Review = Review(findings: seq<Finding>, suppressed: seq<Finding>)

  /** The two lists of an envelope, composed separately. */
  datatype Part = Published | Suppressed

  function PartOf(e: Envelope, part: Part): seq<Finding> {
    if part.Published? then e.findings else e.suppressed
  }

  function Composed(tools: Tools, runs: seq<ReviewerRun>, part: Part): seq<Finding> {
    if runs == [] then []
    else
      var (before, run) := (Composed(tools, runs[..|runs| - 1], part), runs[|runs| - 1]);
      if run.envelope.None? then before
      else ComposeAll(tools, before, PartOf(run.envelope.value, part), run.ref, run.scope)
  }

  /** The envelope the composed result is based on: the root's full-change run, else the first run with one. */
  function BaseEnvelope(root: string, runs: seq<ReviewerRun>): Option<Envelope> {
    var own := FirstEnvelope(runs, root, true);
    if own.Some? && own.value.protocol != 0 then own
    else
      var any := FirstEnvelope(runs, root, false);
      if any.Some? && any.value.protocol != 0 then any else None
  }

  function FirstEnvelope(runs: seq<ReviewerRun>, root: string, rootOnly: bool): Option<Envelope> {
    if runs == [] then None
    else if runs[0].envelope.Some? && (!rootOnly || (runs[0].ref == root && runs[0].scope == "full-change")) then
      runs[0].envelope
    else FirstEnvelope(runs[1..], root, rootOnly)
  }

  method FindEnvelope(runs: seq<ReviewerRun>, root: string, rootOnly: bool) returns (found: Option<Envelope>)
    ensures found == FirstEnvelope(runs, root, rootOnly)
  {
    for i := 0 to |runs|
      invariant FirstEnvelope(runs, root, rootOnly) == FirstEnvelope(runs[i..], root, rootOnly)
    {
      if runs[i].envelope.Some? && (!rootOnly || (runs[i].ref == root && runs[i].scope == "full-change")) {
        return runs[i].envelope;
      }
    }
    return None;
  }

  /** Suppressed findings get IDs of their own beside the published ones; nothing else changes. */
  function RenamedSuppressed(tools: Tools, merged: seq<Finding>, suppressed: seq<Finding>,
                             n: nat): (renamed: seq<Finding>)
    requires n <= |suppressed|
    ensures |renamed| == |suppressed|
    ensures forall k :: 0 <= k < |suppressed| ==> renamed[k] == suppressed[k].(id := renamed[k].id)
  {
    if n == 0 then suppressed
    else
      var before := RenamedSuppressed(tools, merged, suppressed, n - 1);
      before[n - 1 := before[n - 1].(id := UniqueId(tools, merged + before[..n - 1], before[n - 1].id, "suppressed"))]
  }

  method ComposeList(tools: Tools, existing: seq<Finding>, findings: seq<Finding>, ref: string, scope: string)
    returns (out: seq<Finding>)
    ensures out == ComposeAll(tools, existing, findings, ref, scope)
  {
    out := existing;
    for i := 0 to |findings|
      invariant out == ComposeAll(tools, existing, findings[..i], ref, scope)
    {
      assert findings[..i + 1][..i] == findings[..i];
      out := MergeComposedFinding(tools, out, findings[i], ref, scope);
    }
    assert findings[..|findings|] == findings;
  }

  /** Both lists of the composed result. */
  function Aggregated(tools: Tools, runs: seq<ReviewerRun>): Review {
    var (merged, suppressed) := (StableSort(Composed(tools, runs, Published)), Composed(tools, runs, Suppressed));
    Review(merged, RenamedSuppressed(tools, merged, suppressed, |suppressed|))
  }

  method AggregateComposedReview(tools: Tools, root: string, runs: seq<ReviewerRun>) returns (result: Option<Review>)
    ensures result == if BaseEnvelope(root, runs).Some? then Some(Aggregated(tools, runs)) else None
  {
    var aggregate := FindEnvelope(runs, root, true);
    if aggregate.None? || aggregate.value.protocol == 0 {
      aggregate := FindEnvelope(runs, root, false);
    }
    if aggregate.None? || aggregate.value.protocol == 0 {
      return None;
    }
    var merged: seq<Finding>, suppressed: seq<Finding> := [], [];
    for i := 0 to |runs|
      invariant merged == Composed(tools, runs[..i], Published) && suppressed == Composed(tools, runs[..i], Suppressed)
    {
      assert runs[..i + 1][..i] == runs[..i];
      if runs[i].envelope.None? {
        continue;
      }
      merged := ComposeList(tools, merged, runs[i].envelope.value.findings, runs[i].ref, runs[i].scope);
      suppressed := ComposeList(tools, suppressed, runs[i].envelope.value.suppressed, runs[i].ref, runs[i].scope);
    }
    assert runs[..|runs|] == runs;
    var sorted := StableSort(merged);
    var renamed := RenameAll(tools, sorted, suppressed);
    return Some(Review(sorted, renamed));
  }

  method RenameAll(tools: Tools, merged: seq<Finding>, suppressed: seq<Finding>) returns (renamed: seq<Finding>)
    ensures renamed == RenamedSuppressed(tools, merged, suppressed, |suppressed|)
  {
    renamed := suppressed;
    for i := 0 to |suppressed|
      invariant renamed == RenamedSuppressed(tools, merged, suppressed, i)
    {
      renamed := renamed[i := renamed[i].(id := UniqueId(tools, merged + renamed[..i], renamed[i].id, "suppressed"))];
    }
  }

  // ---- no claim is lost, none is invented ----

  lemma {:induction false} ComposedRepresents(tools: Tools, runs: seq<ReviewerRun>, part: Part, r: nat, j: nat)
    requires r < |runs| && runs[r].envelope.Some? && j < |PartOf(runs[r].envelope.value, part)|
    ensures Represented(tools, Composed(tools, runs, part), PartOf(runs[r].envelope.value, part)[j], runs[r].ref,
            runs[r].scope)
    decreases |runs|
  {
    hide ComposeAll, Represented;
    var (init, run) := (runs[..|runs| - 1], runs[|runs| - 1]);
    var before := Composed(tools, init, part);
    if r == |init| {
      ComposeAllRepresents(tools, before, PartOf(run.envelope.value, part), run.ref, run.scope, j);
    } else {
      ComposedRepresents(tools, init, part, r, j);
      if run.envelope.Some? {
        ComposeAllKeeps(tools, before, PartOf(run.envelope.value, part), run.ref, run.scope,
                        PartOf(init[r].envelope.value, part)[j], init[r].ref, init[r].scope);
      }
    }
  }

  lemma SortingKeepsRepresented(tools: Tools, list: seq<Finding>, f: Finding, ref: string, scope: string)
    requires Represented(tools, list, f, ref, scope)
    ensures Represented(tools, StableSort(list), f, ref, scope)
  {
    StableSortMembers(list);
    var k :| 0 <= k < |list| && Represents(tools, list[k], f, ref, scope);
    assert list[k] in StableSort(list);
  }

  lemma RenamingKeepsRepresented(tools: Tools, merged: seq<Finding>, list: seq<Finding>, f: Finding, ref: string,
                                 scope: string)
    requires Represented(tools, list, f, ref, scope)
    ensures Represented(tools, RenamedSuppressed(tools, merged, list, |list|), f, ref, scope)
  {
    var k :| 0 <= k < |list| && Represents(tools, list[k], f, ref, scope);
    var renamed := RenamedSuppressed(tools, merged, list, |list|);
    assert Represents(tools, renamed[k], f, ref, scope);
  }

  /**
   * Every finding of every reviewer with a result is recorded as a source of an output finding that makes all its
   * claims.
   */
  lemma AggregationLosesNoClaim(tools: Tools, runs: seq<ReviewerRun>, r: nat, f: Finding)
    requires r < |runs| && runs[r].envelope.Some?
    ensures BySeverity(Aggregated(tools, runs).findings)
    ensures f in runs[r].envelope.value.findings ==>
              Represented(tools, Aggregated(tools, runs).findings, f, runs[r].ref, runs[r].scope)
    ensures f in runs[r].envelope.value.suppressed ==>
              Represented(tools, Aggregated(tools, runs).suppressed, f, runs[r].ref, runs[r].scope)
  {
    var review := Aggregated(tools, runs);
    hide Composed, StableSort, Represented, BySeverity, RenamedSuppressed;
    StableSortIsStable(Composed(tools, runs, Published), 0);
    if f in runs[r].envelope.value.findings {
      var j :| 0 <= j < |runs[r].envelope.value.findings| && runs[r].envelope.value.findings[j] == f;
      ComposedRepresents(tools, runs, Published, r, j);
      SortingKeepsRepresented(tools, Composed(tools, runs, Published), f, runs[r].ref, runs[r].scope);
    }
    if f in runs[r].envelope.value.suppressed {
      var j :| 0 <= j < |runs[r].envelope.value.suppressed| && runs[r].envelope.value.suppressed[j] == f;
      ComposedRepresents(tools, runs, Suppressed, r, j);
      RenamingKeepsRepresented(tools, review.findings, Composed(tools, runs, Suppressed), f, runs[r].ref,
          runs[r].scope);
    }
  }

  /** The claim of `g` is the claim of `f`: merging never rewrites title, summary, impact or remediation. */
  ghost predicate SameClaim(g: Finding, f: Finding) {
    g.title == f.title && g.summary == f.summary && g.impact == f.impact && SameDetails(g, f)
  }

  /** One step only adds the claim of the finding it is given. */
  lemma {:induction false} ComposeClaims(tools: Tools, existing: seq<Finding>, finding: Finding, ref: string,
                                         scope: string, g: Finding) returns (h: Finding)
    requires g in Compose(tools, existing, finding, ref, scope)
    ensures (h in existing || h == finding) && SameClaim(g, h)
  {
    var origin := OriginOf(finding, ref, scope);
    var f := finding.(origins := AddOrigin(finding.origins, origin));
    var i := FirstDuplicate(tools, existing, f);
    DuplicateSharesDetails(tools, existing, f);
    h := if g in existing then g else if i < |existing| then existing[i] else finding;
  }

  lemma {:induction false} ComposeAllClaims(tools: Tools, existing: seq<Finding>, findings: seq<Finding>, ref: string,
                                            scope: string, g: Finding)
    returns (h: Finding)
    requires g in ComposeAll(tools, existing, findings, ref, scope)
    ensures (h in existing || h in findings) && SameClaim(g, h)
  {
    if findings == [] {
      h := g;
    } else {
      hide Compose, Normalize;
      var (init, last) := (findings[..|findings| - 1], findings[|findings| - 1]);
      h := ComposeClaims(tools, ComposeAll(tools, existing, init, ref, scope), last, ref, scope, g);
      if h != last {
        h := ComposeAllClaims(tools, existing, init, ref, scope, h);
      }
    }
  }

  lemma {:induction false} ComposedInventsNoClaim(tools: Tools, runs: seq<ReviewerRun>, part: Part, g: Finding)
    returns (r: nat, f: Finding)
    requires g in Composed(tools, runs, part)
    ensures r < |runs| && runs[r].envelope.Some? && f in PartOf(runs[r].envelope.value, part) && SameClaim(g, f)
  {
    hide ComposeAll, Normalize;
    var (init, run) := (runs[..|runs| - 1], runs[|runs| - 1]);
    if run.envelope.None? {
      r, f := ComposedInventsNoClaim(tools, init, part, g);
    } else {
      f := ComposeAllClaims(tools, Composed(tools, init, part), PartOf(run.envelope.value, part), run.ref, run.scope,
          g);
      if f in PartOf(run.envelope.value, part) {
        r := |init|;
      } else {
        r, f := ComposedInventsNoClaim(tools, init, part, f);
      }
    }
  }

  lemma SameClaimTransitive(a: Finding, b: Finding, c: Finding)
    requires SameClaim(a, b) && SameClaim(b, c)
    ensures SameClaim(a, c)
  {
  }

  /** The composed result reports nothing a reviewer did not claim. */
  lemma AggregationInventsNoClaim(tools: Tools, runs: seq<ReviewerRun>, part: Part, k: nat) returns (r: nat, f: Finding)
    requires k < |if part.Published? then Aggregated(tools, runs).findings else Aggregated(tools, runs).suppressed|
    ensures r < |runs| && runs[r].envelope.Some? && f in PartOf(runs[r].envelope.value, part)
    ensures var review := Aggregated(tools, runs);
            SameClaim(if part.Published? then review.findings[k] else review.suppressed[k], f)
  {
    hide Composed, StableSort, RenamedSuppressed, Normalize;
    if part.Published? {
      StableSortMembers(Composed(tools, runs, Published));
      r, f := ComposedInventsNoClaim(tools, runs, part, Aggregated(tools, runs).findings[k]);
    } else {
      var g := Composed(tools, runs, Suppressed)[k];
      r, f := ComposedInventsNoClaim(tools, runs, part, g);
      SameClaimTransitive(Aggregated(tools, runs).suppressed[k], g, f);
    }
  }
}
