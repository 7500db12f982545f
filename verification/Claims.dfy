/** What composing makes of the reviewers' findings, in terms of names, words and lines (cmd/composite_run.go). */
module Claims {
  import opened Prelude
  import opened Findings
  import opened Aggregate

  // ---- ranks by name ----

  const SEVERITIES := ["critical", "high", "medium", "low"]
  const CONFIDENCES := ["high", "medium", "low"]

  /** `a` stands no later than `b` in a list of names that begins with the greatest; unlisted names come last. */
  ghost predicate AtLeast(names: seq<string>, a: string, b: string) {
    forall k :: 0 <= k < |names| && names[k] == b ==> a in names[..k + 1]
  }

  lemma RankByName(a: string, b: string)
    ensures SeverityRank(a) >= SeverityRank(b) <==> AtLeast(SEVERITIES, a, b)
    ensures ConfidenceRank(a) >= ConfidenceRank(b) <==> AtLeast(CONFIDENCES, a, b)
  {
    var (s, c) := (SEVERITIES, CONFIDENCES);
    assert s[0] == "critical" && s[1] == "high" && s[2] == "medium" && s[3] == "low";
    assert c[0] == "high" && c[1] == "medium" && c[2] == "low";
    assert s[..1] == ["critical"] && s[..2] == ["critical", "high"] && s[..3] == ["critical", "high", "medium"];
    assert c[..1] == ["high"] && c[..2] == ["high", "medium"] && c[..3] == c && s[..4] == s;
  }

  /** Graver findings come first. */
  lemma GraverComesFirst(tools: Tools, runs: seq<ReviewerRun>, i: nat, j: nat)
    requires i < j < |Aggregated(tools, runs).findings|
    ensures AtLeast(SEVERITIES, Aggregated(tools, runs).findings[i].severity,
                    Aggregated(tools, runs).findings[j].severity)
  {
    hide Composed, StableSort, SeverityRank, AtLeast;
    var findings := Aggregated(tools, runs).findings;
    StableSortIsStable(Composed(tools, runs, Published), 0);
    RankByName(findings[i].severity, findings[j].severity);
  }

  /** A finding is represented by one at least as grave and as certain. */
  lemma RepresentativeIsAsGrave(tools: Tools, runs: seq<ReviewerRun>, r: nat, f: Finding) returns (g: Finding)
    requires r < |runs| && runs[r].envelope.Some? && f in runs[r].envelope.value.findings
    ensures g in Aggregated(tools, runs).findings
    ensures exists o :: o in g.origins
              && o.adversary == runs[r].ref && o.scope == runs[r].scope && o.findingId == f.id
    ensures AtLeast(SEVERITIES, g.severity, f.severity) && AtLeast(CONFIDENCES, g.confidence, f.confidence)
  {
    hide Aggregated, SeverityRank, ConfidenceRank, AtLeast, SameDetails, HasEvidence;
    AggregationLosesNoClaim(tools, runs, r, f);
    var findings := Aggregated(tools, runs).findings;
    var k :| 0 <= k < |findings| && Represents(tools, findings[k], f, runs[r].ref, runs[r].scope);
    g := findings[k];
    RankByName(g.severity, f.severity);
    RankByName(g.confidence, f.confidence);
    var m :| 0 <= m < |g.origins| && SameOrigin(g.origins[m], OriginOf(f, runs[r].ref, runs[r].scope));
    assert g.origins[m] in g.origins;
  }

  // ---- words ----

  predicate Blank(s: string) {
    forall c :: c in s ==> IsSpace(c)
  }

  predicate Word(s: string) {
    s != "" && forall c :: c in s ==> !IsSpace(c)
  }

  /** Each word with the white space in front of it. */
  function Spaced(gaps: seq<string>, words: seq<string>): string
    requires |gaps| == |words|
  {
    if words == [] then ""
    else
      var last := |words| - 1;
      Spaced(gaps[..last], words[..last]) + gaps[last] + words[last]
  }

  /** One more character is dropped, continues the last field, or begins a field. */
  lemma FieldsSnoc(s: string, c: char)
    ensures var (before, last) := (Fields(s), |Fields(s)| - 1);
            Fields(s + [c]) == if IsSpace(c) then before
              else if s != "" && !IsSpace(s[|s| - 1]) && before != [] then before[last := before[last] + [c]]
              else before + [[c]]
  {
    assert (s + [c])[..|s|] == s;
  }

  lemma {:induction false} FieldsOfGap(s: string, gap: string)
    requires Blank(gap)
    ensures Fields(s + gap) == Fields(s)
  {
    hide Fields;
    if gap == "" {
      assert s + gap == s;
    } else {
      var last := |gap| - 1;
      FieldsOfGap(s, gap[..last]);
      FieldsSnoc(s + gap[..last], gap[last]);
      assert s + gap == s + gap[..last] + [gap[last]];
    }
  }

  lemma {:induction false} FieldsOfWord(s: string, word: string)
    requires Word(word) && (s == "" || IsSpace(s[|s| - 1]))
    ensures Fields(s + word) == Fields(s) + [word]
  {
    hide Fields, IsSpace;
    var last := |word| - 1;
    assert word == word[..last] + [word[last]] && s + word == s + word[..last] + [word[last]];
    if last > 0 {
      FieldsOfWord(s, word[..last]);
      FieldsSnoc(s + word[..last], word[last]);
      assert (s + word[..last])[|s| + last - 1] == word[last - 1];
    } else {
      assert s + word[..0] == s;
      FieldsSnoc(s, word[0]);
    }
  }

  /** Splitting into fields finds the words, whatever white space parts and surrounds them. */
  lemma {:induction false} FieldsFindTheWords(gaps: seq<string>, words: seq<string>, end: string)
    requires |gaps| == |words| && Blank(end)
    requires forall k :: 0 <= k < |words| ==> Word(words[k]) && Blank(gaps[k]) && (k > 0 ==> gaps[k] != "")
    ensures Fields(Spaced(gaps, words) + end) == words
  {
    hide Fields;
    FieldsOfGap(Spaced(gaps, words), end);
    if words == [] {
      NoFields();
    } else {
      var last := |words| - 1;
      var before := Spaced(gaps[..last], words[..last]) + gaps[last];
      FieldsFindTheWords(gaps[..last], words[..last], gaps[last]);
      assert last > 0 ==> before[|before| - 1] == gaps[last][|gaps[last]| - 1] && before[|before| - 1] in gaps[last];
      assert last == 0 ==> Spaced(gaps[..last], words[..last]) == "";
      if before != "" { assert before[|before| - 1] in gaps[last]; }
      FieldsOfWord(before, words[last]);
      assert words == words[..last] + [words[last]];
    }
  }

  lemma NoFields()
    ensures Fields("") == []
  {
  }

  lemma {:induction false} FieldsAreWords(s: string)
    ensures forall w :: w in Fields(s) ==> Word(w)
    ensures s != "" && !IsSpace(s[|s| - 1]) ==> Fields(s) != []
  {
    if s != "" {
      hide Fields, IsSpace;
      var (init, c) := (s[..|s| - 1], s[|s| - 1]);
      FieldsAreWords(init);
      assert s == init + [c];
      FieldsSnoc(init, c);
      var before := Fields(init);
      forall w | w in Fields(s) && w !in before ensures Word(w) {
        assert w != [c] ==> w == before[|before| - 1] + [c] && before[|before| - 1] in before;
      }
    } else {
      NoFields();
    }
  }

  /** Two texts are the same after normalization exactly when they consist of the same words. */
  lemma NormalizedAlike(a: string, b: string)
    ensures Normalize(a) == Normalize(b) <==> Fields(a) == Fields(b)
    ensures Normalize(a) != "" <==> Fields(a) != []
  {
    hide Fields, SplitOn;
    JoinedBack(a);
    JoinedBack(b);
  }

  lemma JoinedBack(s: string)
    ensures Fields(s) != [] ==> Normalize(s) != "" && SplitOn(Normalize(s), ' ') == Fields(s)
  {
    hide Fields;
    FieldsAreWords(s);
    if Fields(s) != [] {
      forall k | 0 <= k < |Fields(s)| ensures ' ' !in Fields(s)[k] {
        assert Fields(s)[k] in Fields(s);
      }
      SplitUndoesJoin(Fields(s), ' ');
      assert Fields(s)[0] in Fields(s);
    }
  }

  lemma {:induction false} FieldsOfBlank(s: string)
    ensures Fields(s) == [] <==> Blank(s)
  {
    if s != "" {
      hide Fields, IsSpace;
      var last := |s| - 1;
      FieldsOfBlank(s[..last]);
      assert s == s[..last] + [s[last]];
      FieldsSnoc(s[..last], s[last]);
    } else {
      NoFields();
    }
  }

  // ---- when two findings are composed into one ----

  /** The texts consist of the same words. */
  ghost predicate SameWords(a: string, b: string) {
    Fields(a) == Fields(b)
  }

  ghost predicate SameReasoning(a: Finding, b: Finding) {
    && SameWords(a.whyItMatters, b.whyItMatters) && SameWords(a.impact, b.impact)
    && SameWords(a.recommendation, b.recommendation) && a.remediation == b.remediation
  }

  ghost predicate SameSummary(a: Finding, b: Finding) {
    !Blank(a.summary) && SameWords(a.summary, b.summary)
  }

  /** Of all words of the two texts at least `n` in `d` are in both. */
  ghost predicate ShareWords(tools: Tools, a: string, b: string, n: nat, d: nat) {
    var (x, y) := (tools.words(a), tools.words(b));
    x != {} && y != {} && d * |x * y| >= n * |x + y|
  }

  /** The first evidence of both is in one file. */
  ghost predicate SamePlace(a: Finding, b: Finding) {
    && a.evidence != [] && b.evidence != [] && a.evidence[0].file == b.evidence[0].file
    && a.evidence[0].file != ""
  }

  /** And no more than two lines apart. */
  ghost predicate NearBy(a: Finding, b: Finding) {
    && SamePlace(a, b)
    && match (a.evidence[0].line, b.evidence[0].line)
       case (Some(x), Some(y)) => x in {y - 2, y - 1, y, y + 1, y + 2}
       case _ => false
  }

  ghost predicate SomeCommonFile(a: Finding, b: Finding) {
    exists x, y :: x in a.evidence && y in b.evidence && x.file == y.file != ""
  }

  /** One group key, or similar titles close by; and the same summary for the same reasons. */
  ghost predicate Twins(tools: Tools, a: Finding, b: Finding) {
    && ((a.groupKey == b.groupKey != "" && SamePlace(a, b))
        || (NearBy(a, b) && ShareWords(tools, a.title, b.title, 3, 5)))
    && SameSummary(a, b) && SameReasoning(a, b)
  }

  /** Similar titles and summaries over a common file, for the same reasons. */
  ghost predicate Cousins(tools: Tools, a: Finding, b: Finding) {
    && SomeCommonFile(a, b) && ShareWords(tools, a.title, b.title, 7, 10)
    && !Blank(a.summary) && !Blank(b.summary) && ShareWords(tools, a.summary, b.summary, 3, 5)
    && SameReasoning(a, b)
  }

  lemma SameDetailsMeans(a: Finding, b: Finding)
    ensures SameDetails(a, b) <==> SameReasoning(a, b)
  {
    hide Normalize, Fields;
    NormalizedAlike(a.whyItMatters, b.whyItMatters);
    NormalizedAlike(a.impact, b.impact);
    NormalizedAlike(a.recommendation, b.recommendation);
  }

  lemma SameAssertionMeans(a: Finding, b: Finding)
    ensures SameAssertion(a, b) <==> SameSummary(a, b) && SameReasoning(a, b)
  {
    hide Normalize, Fields, SameDetails, SameReasoning, Blank;
    NormalizedAlike(a.summary, b.summary);
    FieldsOfBlank(a.summary);
    SameDetailsMeans(a, b);
  }

  lemma CommonFileMeans(a: Finding, b: Finding)
    ensures ShareEvidenceFile(a, b) <==> SomeCommonFile(a, b)
  {
    if SomeCommonFile(a, b) {
      var x, y :| x in a.evidence && y in b.evidence && x.file == y.file != "";
      var i :| 0 <= i < |a.evidence| && a.evidence[i] == x;
      var j :| 0 <= j < |b.evidence| && b.evidence[j] == y;
    }
  }

  lemma SimilarMeans(tools: Tools, a: string, b: string)
    ensures tools.Similar(a, b, 6) <==> ShareWords(tools, a, b, 3, 5)
    ensures tools.Similar(a, b, 7) <==> ShareWords(tools, a, b, 7, 10)
  {
  }

  lemma PlaceMeans(a: Finding, b: Finding)
    ensures SamePrimaryFile(a, b) <==> SamePlace(a, b)
    ensures SameLocation(a, b) <==> NearBy(a, b)
  {
  }

  /** Which findings are duplicates, clause by clause. */
  lemma DuplicatesMeans(tools: Tools, a: Finding, b: Finding)
    ensures Duplicates(tools, a, b) <==> Twins(tools, a, b) || Cousins(tools, a, b)
  {
    hide SameAssertion, SameDetails, SamePrimaryFile, SameLocation, ShareEvidenceFile, ShareWords, SamePlace, NearBy,
        SomeCommonFile, SameSummary, SameReasoning, Blank;
    SameAssertionMeans(a, b);
    SameDetailsMeans(a, b);
    PlaceMeans(a, b);
    CommonFileMeans(a, b);
    SimilarMeans(tools, a.title, b.title);
    SimilarMeans(tools, a.summary, b.summary);
    TrimmedAway(a.summary);
    TrimmedAway(b.summary);
    BlankMeans(a.summary);
    BlankMeans(b.summary);
    hide Tools.Similar;
  }

  lemma BlankMeans(s: string)
    ensures Blank(s) <==> !exists c :: c in s && !IsSpace(c)
  {
  }

  // ---- one step of composing ----

  ghost predicate Known(tools: Tools, existing: seq<Finding>, f: Finding) {
    exists g :: g in existing && (Twins(tools, g, f) || Cousins(tools, g, f))
  }

  /** The evidence shows the same file and line with the same message; a missing line counts as line 0. */
  ghost predicate Repeats(a: Evidence, b: Evidence) {
    && a.file == b.file && a.message == b.message
    && (a.line == b.line || (a.line in {None, Some(0)} && b.line in {None, Some(0)}))
  }

  /** `out` is `list` with each of `values` put behind it that does not repeat what is there by then. */
  ghost predicate Gathered<T(!new)>(list: seq<T>, values: seq<T>, out: seq<T>, repeats: (T, T) -> bool) {
    && list <= out
    && (forall k :: |list| <= k < |out| ==> out[k] in values && forall h :: 0 <= h < k ==> !repeats(out[h], out[k]))
    && forall v :: v in values ==> exists h :: 0 <= h < |out| && repeats(out[h], v)
  }

  ghost predicate SameRecord(a: Origin, b: Origin) {
    a == b.(ruleId := a.ruleId)
  }

  /**
   * What a finding becomes when another one is merged into it: the graver and more certain of the two names, the longer
   * texts, all evidence and tags, and one more origin.
   */
  ghost predicate MergedOf(tools: Tools, dst: Finding, src: Finding, origin: Origin, m: Finding) {
    && m == dst.(origins := m.origins, severity := m.severity, confidence := m.confidence, evidence := m.evidence,
                 tags := m.tags, whyItMatters := m.whyItMatters, recommendation := m.recommendation)
    && m.severity == (if AtLeast(SEVERITIES, dst.severity, src.severity) then dst else src).severity
    && m.confidence == (if AtLeast(CONFIDENCES, dst.confidence, src.confidence) then dst else src).confidence
    && m.whyItMatters
       == (if tools.bytes(dst.whyItMatters) < tools.bytes(src.whyItMatters) then src else dst).whyItMatters
    && m.recommendation
       == (if tools.bytes(dst.recommendation) < tools.bytes(src.recommendation) then src else dst).recommendation
    && Gathered(dst.evidence, src.evidence, m.evidence, (x, y) => Repeats(x, y))
    && Gathered(dst.tags, src.tags, m.tags, (x, y) => x == y)
    && Gathered(dst.origins, [origin], m.origins, (x, y) => SameRecord(x, y))
  }

  lemma {:induction false} EvidenceIsGathered(list: seq<Evidence>, values: seq<Evidence>)
    ensures Gathered(list, values, AddEvidence(list, values), (x, y) => Repeats(x, y))
    decreases |values|
  {
    if values != [] {
      var (v, rest) := (values[0], values[1..]);
      var next := if HasEvidence(list, v) then list else list + [v];
      EvidenceIsGathered(next, rest);
      forall h | 0 <= h < |next| ensures Repeats(next[h], v) <==> SameEvidence(next[h], v) {}
      assert exists h :: 0 <= h < |next| && Repeats(next[h], v) by {
        if HasEvidence(list, v) {
          var h :| 0 <= h < |list| && SameEvidence(list[h], v);
          assert Repeats(next[h], v);
        } else {
          assert Repeats(next[|list|], v);
        }
      }
      assert !HasEvidence(list, v) ==> forall h :: 0 <= h < |list| ==> !Repeats(list[h], v);
      GatheredFrom(list, v, next, rest, AddEvidence(list, values), (x, y) => Repeats(x, y));
      assert values == [v] + rest;
    }
  }

  lemma {:induction false} TagsAreGathered(list: seq<string>, values: seq<string>)
    ensures Gathered(list, values, AddTags(list, values), (x, y) => x == y)
    decreases |values|
  {
    if values != [] {
      var (v, rest) := (values[0], values[1..]);
      var next := if v in list then list else list + [v];
      TagsAreGathered(next, rest);
      assert v !in list ==> next[|list|] == v;
      GatheredFrom(list, v, next, rest, AddTags(list, values), (x, y) => x == y);
      assert values == [v] + rest;
    }
  }

  /** Gathering the first value and then the rest is gathering them all. */
  lemma GatheredFrom<T(!new)>(list: seq<T>, v: T, next: seq<T>, rest: seq<T>, out: seq<T>, repeats: (T, T) -> bool)
    requires next == list || (next == list + [v] && forall h :: 0 <= h < |list| ==> !repeats(list[h], v))
    requires exists h :: 0 <= h < |next| && repeats(next[h], v)
    requires Gathered(next, rest, out, repeats)
    ensures Gathered(list, [v] + rest, out, repeats)
  {
    assert v in [v] + rest && forall x :: x in rest ==> x in [v] + rest;
    forall x | x in [v] + rest ensures exists h :: 0 <= h < |out| && repeats(out[h], x) {
      if x == v {
        var h :| 0 <= h < |next| && repeats(next[h], v);
        assert out[h] == next[h];
      } else {
        assert x in rest;
      }
    }
    forall k | |list| <= k < |out|
      ensures out[k] in [v] + rest && forall h :: 0 <= h < k ==> !repeats(out[h], out[k])
    {
      if k < |next| {
        assert out[k] == v && forall h :: 0 <= h < k ==> out[h] == list[h];
      }
    }
  }

  lemma OriginsAreGathered(origins: seq<Origin>, origin: Origin)
    ensures Gathered(origins, [origin], AddOrigin(origins, origin), (x, y) => SameRecord(x, y))
  {
    var out := AddOrigin(origins, origin);
    forall o: Origin ensures SameOrigin(o, origin) <==> SameRecord(o, origin) {}
    if HasOrigin(origins, origin) {
      var k :| 0 <= k < |origins| && SameOrigin(origins[k], origin);
      assert SameRecord(out[k], origin);
    } else {
      assert SameRecord(out[|origins|], origin);
    }
  }

  /** What merging does to each field of a finding. */
  lemma MergeMeans(tools: Tools, dst: Finding, src: Finding, origin: Origin)
    ensures MergedOf(tools, dst, src, origin, MergeSpec(tools, dst, src, origin))
  {
    hide AddEvidence, AddTags, AddOrigin, Gathered, SeverityRank, ConfidenceRank, AtLeast;
    RankByName(dst.severity, src.severity);
    RankByName(dst.confidence, src.confidence);
    EvidenceIsGathered(dst.evidence, src.evidence);
    TagsAreGathered(dst.tags, src.tags);
    OriginsAreGathered(dst.origins, origin);
  }

  /** The finding as it comes from the reviewer `ref`, with that reviewer among its origins. */
  ghost predicate Attributed(finding: Finding, ref: string, scope: string, f: Finding) {
    && f == finding.(origins := f.origins)
    && Gathered(finding.origins, [Origin(ref, scope, finding.id, finding.ruleId)], f.origins,
                (x, y) => SameRecord(x, y))
  }

  /** A taken ID gets a suffix. */
  ghost predicate NamedApart(tools: Tools, taken: seq<Finding>, id: string, source: string, name: string) {
    name == if exists g :: g in taken && g.id == id then id + "-" + tools.suffix(source, id) else id
  }

  /**
   * One step of composing. A finding that is known already is merged into the first one it equals, and no other finding
   * changes; an unknown one is appended, under an ID of its own.
   */
  lemma ComposeMeans(tools: Tools, existing: seq<Finding>, finding: Finding, ref: string, scope: string)
    returns (f: Finding, i: nat)
    ensures Attributed(finding, ref, scope, f)
    ensures var out := Compose(tools, existing, finding, ref, scope);
            if Known(tools, existing, f) then
              && i < |existing| == |out| && out == existing[i := out[i]]
              && (Twins(tools, existing[i], f) || Cousins(tools, existing[i], f))
              && (forall k :: 0 <= k < i ==> !Twins(tools, existing[k], f) && !Cousins(tools, existing[k], f))
              && MergedOf(tools, existing[i], f, Origin(ref, scope, finding.id, finding.ruleId), out[i])
            else
              && |out| == |existing| + 1 && out == existing + [f.(id := out[|existing|].id)]
              && NamedApart(tools, existing, finding.id, ref + "\U{0}" + scope, out[|existing|].id)
  {
    hide Duplicates, Twins, Cousins, Gathered, AddOrigin, MergeSpec, MergedOf, FirstDuplicate;
    var origin := Origin(ref, scope, finding.id, finding.ruleId);
    f := finding.(origins := AddOrigin(finding.origins, origin));
    i := FirstDuplicate(tools, existing, f);
    OriginsAreGathered(finding.origins, origin);
    FirstDuplicateMeans(tools, existing, f);
    forall g: Finding ensures Duplicates(tools, g, f) <==> Twins(tools, g, f) || Cousins(tools, g, f) {
      DuplicatesMeans(tools, g, f);
    }
    if i < |existing| {
      assert existing[i] in existing;
      MergeMeans(tools, existing[i], f, origin);
    } else {
      UniqueIdMeans(tools, existing, finding.id, ref + "\U{0}" + scope);
    }
  }

  lemma UniqueIdMeans(tools: Tools, taken: seq<Finding>, id: string, source: string)
    ensures NamedApart(tools, taken, id, source, UniqueId(tools, taken, id, source))
  {
    if g :| g in taken && g.id == id {
      var k :| 0 <= k < |taken| && taken[k] == g;
    }
  }

  // ---- no finding is listed twice ----

  ghost predicate NoTwins(tools: Tools, findings: seq<Finding>) {
    forall i, j :: 0 <= i < j < |findings| ==> !Twins(tools, findings[i], findings[j])
  }

  lemma TwinsAreSymmetric(tools: Tools, a: Finding, b: Finding)
    ensures Twins(tools, a, b) <==> Twins(tools, b, a)
  {
    hide Fields;
    var (x, y) := (tools.words(a.title), tools.words(b.title));
    assert x * y == y * x && x + y == y + x;
    if SameSummary(a, b) { SameWordsNotBlank(a.summary, b.summary); }
    if SameSummary(b, a) { SameWordsNotBlank(b.summary, a.summary); }
  }

  lemma SameWordsNotBlank(a: string, b: string)
    requires Fields(a) == Fields(b) && !Blank(a)
    ensures !Blank(b)
  {
    FieldsOfBlank(a);
    FieldsOfBlank(b);
  }

  /** Merging duplicates, and naming a finding, leave it the twin of what it was the twin of. */
  lemma TwinsSurvive(tools: Tools, a: Finding, m: Finding, b: Finding)
    requires m.groupKey == a.groupKey && m.title == a.title && m.summary == a.summary && SameReasoning(a, m)
    requires a.evidence == [] ==> m.evidence == []
    requires a.evidence != [] ==> m.evidence != [] && m.evidence[0] == a.evidence[0]
    ensures Twins(tools, m, b) <==> Twins(tools, a, b)
  {
    hide Fields, Blank;
  }

  lemma MergingSurvives(tools: Tools, dst: Finding, src: Finding, origin: Origin, m: Finding, b: Finding)
    requires MergedOf(tools, dst, src, origin, m) && (Twins(tools, dst, src) || Cousins(tools, dst, src))
    ensures Twins(tools, m, b) <==> Twins(tools, dst, b)
  {
    hide Fields, Blank, AtLeast, ShareWords;
    assert dst.evidence != [];
    assert m.evidence[0] == dst.evidence[0];
    TwinsSurvive(tools, dst, m, b);
  }

  lemma {:induction false} ComposeKeepsNoTwins(tools: Tools, existing: seq<Finding>, finding: Finding, ref: string,
                                               scope: string)
    requires NoTwins(tools, existing)
    ensures NoTwins(tools, Compose(tools, existing, finding, ref, scope))
  {
    hide Compose, Twins, Cousins, MergedOf, Attributed;
    var out := Compose(tools, existing, finding, ref, scope);
    var f, i := ComposeMeans(tools, existing, finding, ref, scope);
    forall j, k | 0 <= j < k < |out| ensures !Twins(tools, out[j], out[k]) {
      TwinsAreSymmetric(tools, out[j], out[k]);
      if Known(tools, existing, f) {
        if j == i {
          MergingSurvives(tools, existing[i], f, Origin(ref, scope, finding.id, finding.ruleId), out[i], out[k]);
        } else if k == i {
          MergingSurvives(tools, existing[i], f, Origin(ref, scope, finding.id, finding.ruleId), out[i], out[j]);
          TwinsAreSymmetric(tools, existing[i], out[j]);
        }
      } else if k == |existing| {
        var named := out[k];
        NamedSurvives(tools, f, named, out[j]);
        TwinsAreSymmetric(tools, f, out[j]);
        assert out[j] in existing;
      }
    }
  }

  lemma NamedSurvives(tools: Tools, f: Finding, named: Finding, b: Finding)
    requires named == f.(id := named.id)
    ensures Twins(tools, named, b) <==> Twins(tools, f, b)
  {
    TwinsSurvive(tools, f, named, b);
  }

  lemma {:induction false} ComposeAllKeepsNoTwins(tools: Tools, existing: seq<Finding>, findings: seq<Finding>,
                                                  ref: string, scope: string)
    requires NoTwins(tools, existing)
    ensures NoTwins(tools, ComposeAll(tools, existing, findings, ref, scope))
  {
    hide Compose, NoTwins;
    if findings != [] {
      var last := |findings| - 1;
      ComposeAllKeepsNoTwins(tools, existing, findings[..last], ref, scope);
      ComposeKeepsNoTwins(tools, ComposeAll(tools, existing, findings[..last], ref, scope), findings[last], ref, scope);
    }
  }

  lemma {:induction false} ComposedHasNoTwins(tools: Tools, runs: seq<ReviewerRun>, part: Part)
    ensures NoTwins(tools, Composed(tools, runs, part))
  {
    hide ComposeAll, Twins;
    if runs != [] {
      var (before, run) := (runs[..|runs| - 1], runs[|runs| - 1]);
      ComposedHasNoTwins(tools, before, part);
      if run.envelope.Some? {
        hide NoTwins;
        ComposeAllKeepsNoTwins(tools, Composed(tools, before, part), PartOf(run.envelope.value, part), run.ref,
                               run.scope);
      }
    }
  }

  lemma {:induction false} InsertKeepsNoTwins(tools: Tools, sorted: seq<Finding>, f: Finding)
    requires NoTwins(tools, sorted) && forall g :: g in sorted ==> !Twins(tools, g, f)
    ensures NoTwins(tools, InsertStable(sorted, f))
  {
    hide Twins, InsertStable;
    InsertStableStep(sorted, f);
    InsertStableMembers(sorted, f);
    if sorted != [] {
      var (before, last) := (sorted[..|sorted| - 1], sorted[|sorted| - 1]);
      assert forall g :: g in before ==> g in sorted;
      InsertKeepsNoTwins(tools, before, f);
      InsertStableMembers(before, f);
      TwinsAreSymmetric(tools, last, f);
      assert last in sorted;
      var inserted := InsertStable(before, f);
      forall k | 0 <= k < |inserted| ensures !Twins(tools, inserted[k], last) {
        assert inserted[k] in inserted;
        if inserted[k] != f {
          var m :| 0 <= m < |before| && before[m] == inserted[k];
          assert sorted[m] == before[m];
        }
      }
    }
  }

  lemma {:induction false} SortingKeepsNoTwins(tools: Tools, findings: seq<Finding>)
    requires NoTwins(tools, findings)
    ensures NoTwins(tools, StableSort(findings))
  {
    hide Twins, InsertStable;
    if findings != [] {
      var (before, last) := (findings[..|findings| - 1], findings[|findings| - 1]);
      SortingKeepsNoTwins(tools, before);
      StableSortMembers(before);
      forall g | g in before ensures !Twins(tools, g, last) {
        var k :| 0 <= k < |before| && before[k] == g;
        assert findings[k] == g;
      }
      InsertKeepsNoTwins(tools, StableSort(before), last);
    }
  }

  lemma {:induction false} RenamingKeepsNoTwins(tools: Tools, findings: seq<Finding>, renamed: seq<Finding>)
    requires NoTwins(tools, findings) && |renamed| == |findings|
    requires forall k :: 0 <= k < |findings| ==> renamed[k] == findings[k].(id := renamed[k].id)
    ensures NoTwins(tools, renamed)
  {
    hide Twins;
    forall i, j | 0 <= i < j < |renamed| ensures !Twins(tools, renamed[i], renamed[j]) {
      NamedSurvives(tools, findings[i], renamed[i], renamed[j]);
      TwinsAreSymmetric(tools, findings[i], renamed[j]);
      NamedSurvives(tools, findings[j], renamed[j], findings[i]);
      TwinsAreSymmetric(tools, findings[j], findings[i]);
    }
  }

  /** No two findings of the composed review make the same claim in one place, and no two suppressed ones. */
  lemma AggregationHasNoTwins(tools: Tools, runs: seq<ReviewerRun>)
    ensures NoTwins(tools, Aggregated(tools, runs).findings) && NoTwins(tools, Aggregated(tools, runs).suppressed)
  {
    hide Composed, StableSort, NoTwins, RenamedSuppressed;
    ComposedHasNoTwins(tools, runs, Published);
    ComposedHasNoTwins(tools, runs, Suppressed);
    SortingKeepsNoTwins(tools, Composed(tools, runs, Published));
    RenamingKeepsNoTwins(tools, Composed(tools, runs, Suppressed), Aggregated(tools, runs).suppressed);
  }

  // ---- names of suppressed findings ----

  /** Each suppressed finding is named apart from the published ones and from the suppressed ones before it. */
  lemma {:induction false} SuppressedAreNamedApart(tools: Tools, merged: seq<Finding>, suppressed: seq<Finding>, n: nat,
                                                   k: nat)
    requires k < n <= |suppressed|
    ensures var renamed := RenamedSuppressed(tools, merged, suppressed, n);
            NamedApart(tools, merged + renamed[..k], suppressed[k].id, "suppressed", renamed[k].id)
  {
    hide NamedApart, UniqueId;
    var before := RenamedSuppressed(tools, merged, suppressed, n - 1);
    var renamed := RenamedSuppressed(tools, merged, suppressed, n);
    assert renamed[..k] == before[..k];
    if k < n - 1 {
      SuppressedAreNamedApart(tools, merged, suppressed, n - 1, k);
    } else {
      LaterAreUntouched(tools, merged, suppressed, n - 1, k);
      UniqueIdMeans(tools, merged + before[..k], before[k].id, "suppressed");
    }
  }

  lemma {:induction false} LaterAreUntouched(tools: Tools, merged: seq<Finding>, suppressed: seq<Finding>, n: nat,
                                             k: nat)
    requires n <= k < |suppressed|
    ensures RenamedSuppressed(tools, merged, suppressed, n)[k] == suppressed[k]
  {
    if n > 0 {
      LaterAreUntouched(tools, merged, suppressed, n - 1, k);
    }
  }

  // ---- when there is a result ----

  /** Run `i` is the first one with a result, of the root's full-change runs if `own`. */
  ghost predicate Leads(root: string, runs: seq<ReviewerRun>, own: bool, i: int) {
    && 0 <= i < |runs| && Eligible(root, runs[i], own)
    && forall k :: 0 <= k < i ==> !Eligible(root, runs[k], own)
  }

  ghost predicate Eligible(root: string, run: ReviewerRun, own: bool) {
    run.envelope != None && (own ==> run.ref == root && run.scope == "full-change")
  }

  lemma {:induction false} FirstEnvelopeMeans(runs: seq<ReviewerRun>, root: string, own: bool)
    ensures FirstEnvelope(runs, root, own).Some? <==> exists i :: Leads(root, runs, own, i)
    ensures forall i :: Leads(root, runs, own, i) ==> FirstEnvelope(runs, root, own) == runs[i].envelope
  {
    if runs != [] {
      FirstEnvelopeMeans(runs[1..], root, own);
      if Eligible(root, runs[0], own) {
        assert Leads(root, runs, own, 0);
      } else {
        forall i ensures Leads(root, runs, own, i) <==> Leads(root, runs[1..], own, i - 1) {
          assert forall k :: 1 <= k < |runs| ==> runs[k] == runs[1..][k - 1];
          assert Leads(root, runs, own, i) ==> forall k :: 0 <= k < i - 1 ==> runs[1..][k] == runs[k + 1];
        }
        assert forall i :: Leads(root, runs[1..], own, i) ==> Leads(root, runs, own, i + 1);
      }
    }
  }

  /** There is a composed review exactly when the root's own or else the first result has a protocol version. */
  lemma ResultIff(root: string, runs: seq<ReviewerRun>)
    ensures BaseEnvelope(root, runs).Some? <==>
              exists own, i :: Leads(root, runs, own, i) && runs[i].envelope.value.protocol != 0
  {
    hide FirstEnvelope;
    FirstEnvelopeMeans(runs, root, true);
    FirstEnvelopeMeans(runs, root, false);
  }
}
