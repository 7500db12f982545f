/** Publishing verified findings and anchoring them to changed lines (cmd/finding_verification.go). */
module Publish {
  import opened Prelude
  import opened RegionGroups
  import opened Findings
  import opened Sources
  import opened Verify
  import opened Replay
  import opened Candidates

  // ---- which source line a finding may be anchored to ----

  predicate Blank(t: Content) {
    forall u :: u in t ==> u.Rune? && IsSpace(u.c)
  }

  /** A head-side source line usable as an anchor; an empty ID or path does not filter. */
  predicate Anchors(c: Candidate, s: Source, id: Id, path: string, line: int) {
    && (id == NoId || s.id == id) && (path == "" || s.path == path)
    && s.side.Head? && Holds(s, line) && !Blank(s.content)
    && (c.wholeRepository || InRegion(s.path, line, c.changedRegions))
  }

  function FirstAnchor(c: Candidate, sources: seq<Source>, id: Id, path: string, line: int): Option<Source> {
    if sources == [] then None
    else if Anchors(c, sources[0], id, path, line) then Some(sources[0])
    else FirstAnchor(c, sources[1..], id, path, line)
  }

  method FallbackSourceAtLine(c: Candidate, id: Id, path: string, line: int) returns (found: Option<Source>)
    ensures found == FirstAnchor(c, c.sources + c.retrieved, id, path, line)
  {
    var sources := c.sources + c.retrieved;
    for k := 0 to |sources|
      invariant FirstAnchor(c, sources, id, path, line) == FirstAnchor(c, sources[k..], id, path, line)
    {
      if Anchors(c, sources[k], id, path, line) {
        return Some(sources[k]);
      }
    }
    return None;
  }

  lemma {:induction false} FirstAnchorMeans(c: Candidate, sources: seq<Source>, id: Id, path: string, line: int)
    ensures var found := FirstAnchor(c, sources, id, path, line);
            if found.Some? then found.value in sources && Anchors(c, found.value, id, path, line)
            else forall s :: s in sources ==> !Anchors(c, s, id, path, line)
  {
    if sources != [] {
      FirstAnchorMeans(c, sources[1..], id, path, line);
    }
  }

  datatype Anchor = Anchor(source: Source, line: int)

  /** The first verifier citation that can anchor. */
  function CitationAnchor(c: Candidate, evidence: seq<Citation>): Option<Anchor> {
    if evidence == [] then None
    else
      var found := FirstAnchor(c, c.sources + c.retrieved, evidence[0].sourceId, "", evidence[0].line);
      if found.Some? then Some(Anchor(found.value, evidence[0].line)) else CitationAnchor(c, evidence[1..])
  }

  /** Otherwise the first line of the finding's own evidence that can. */
  function EvidenceAnchor(c: Candidate, evidence: seq<Evidence>): Option<Anchor> {
    if evidence == [] then None
    else
      var found := if evidence[0].line.None? then None
                   else FirstAnchor(c, c.sources + c.retrieved, NoId, evidence[0].file, evidence[0].line.value);
      if found.Some? then Some(Anchor(found.value, evidence[0].line.value)) else EvidenceAnchor(c, evidence[1..])
  }

  function CausalAnchor(c: Candidate, d: Decision): Option<Anchor> {
    var cited := CitationAnchor(c, d.evidence);
    if cited.Some? then cited else EvidenceAnchor(c, c.finding.evidence)
  }

  method FallbackCausalCitation(c: Candidate, d: Decision) returns (anchor: Option<Anchor>)
    ensures anchor == CausalAnchor(c, d)
  {
    for i := 0 to |d.evidence|
      invariant CitationAnchor(c, d.evidence) == CitationAnchor(c, d.evidence[i..])
    {
      var found := FallbackSourceAtLine(c, d.evidence[i].sourceId, "", d.evidence[i].line);
      if found.Some? {
        return Some(Anchor(found.value, d.evidence[i].line));
      }
    }
    for i := 0 to |c.finding.evidence|
      invariant CitationAnchor(c, d.evidence).None?
      invariant EvidenceAnchor(c, c.finding.evidence) == EvidenceAnchor(c, c.finding.evidence[i..])
    {
      var evidence := c.finding.evidence[i];
      if evidence.line.None? {
        continue;
      }
      var found := FallbackSourceAtLine(c, NoId, evidence.file, evidence.line.value);
      if found.Some? {
        return Some(Anchor(found.value, evidence.line.value));
      }
    }
    return None;
  }

  /**
   * An anchor is a line of a readable head-side source of the candidate, changed unless the whole repository is
   * reviewed.
   */
  ghost predicate GoodAnchor(c: Candidate, a: Anchor) {
    && a.source in c.sources + c.retrieved && a.source.side.Head? && Holds(a.source, a.line)
    && (c.wholeRepository || InRegion(a.source.path, a.line, c.changedRegions))
  }

  /** A line that a finding can be anchored at: it can be read at the head, in a source with text, and was changed. */
  ghost predicate UsableLine(c: Candidate, s: Source, line: int) {
    && s in c.sources + c.retrieved && s.side == Head && s.unavailable == ""
    && s.startLine <= line && line - s.startLine < LineCount(s.content)
    && (exists u :: u in s.content && (u.Stray? || !IsSpace(u.c)))
    && (c.wholeRepository
        || exists r :: r in c.changedRegions && r.path == s.path && r.start <= line && line <= r.end)
  }

  lemma AnchorsMeans(c: Candidate, s: Source, id: Id, path: string, line: int)
    requires s in c.sources + c.retrieved
    ensures Anchors(c, s, id, path, line) <==>
              (id == NoId || id == s.id) && (path == "" || path == s.path) && UsableLine(c, s, line)
  {
    hide LineCount, IsSpace;
    if r :| r in c.changedRegions && r.path == s.path && r.start <= line && line <= r.end {
      var k :| 0 <= k < |c.changedRegions| && c.changedRegions[k] == r;
      assert InRegion(s.path, line, c.changedRegions);
    }
  }

  ghost predicate CitesUsable(c: Candidate, e: Citation, s: Source) {
    (e.sourceId == NoId || e.sourceId == s.id) && UsableLine(c, s, e.line)
  }

  ghost predicate ShowsUsable(c: Candidate, e: Evidence, s: Source) {
    e.line.Some? && (e.file == "" || e.file == s.path) && UsableLine(c, s, e.line.value)
  }

  /** One of these citations names a usable line of a source of the candidate. */
  ghost predicate CitationCanAnchor(c: Candidate, evidence: seq<Citation>) {
    exists e, s :: e in evidence && CitesUsable(c, e, s)
  }

  /** One of these evidence entries names a usable line of a source of the candidate. */
  ghost predicate EvidenceCanAnchor(c: Candidate, evidence: seq<Evidence>) {
    exists e, s :: e in evidence && ShowsUsable(c, e, s)
  }

  lemma CitationCons(c: Candidate, first: Citation, rest: seq<Citation>)
    ensures CitationCanAnchor(c, [first] + rest) <==>
              (exists s :: CitesUsable(c, first, s)) || CitationCanAnchor(c, rest)
  {
    hide CitesUsable;
    assert first in [first] + rest && forall e :: e in [first] + rest <==> e == first || e in rest;
  }

  lemma EvidenceCons(c: Candidate, first: Evidence, rest: seq<Evidence>)
    ensures EvidenceCanAnchor(c, [first] + rest) <==>
              (exists s :: ShowsUsable(c, first, s)) || EvidenceCanAnchor(c, rest)
  {
    hide ShowsUsable;
    assert first in [first] + rest && forall e :: e in [first] + rest <==> e == first || e in rest;
  }

  lemma {:induction false} CitationAnchorMeans(c: Candidate, evidence: seq<Citation>)
    ensures CitationAnchor(c, evidence).Some? <==> CitationCanAnchor(c, evidence)
    ensures CitationAnchor(c, evidence).Some? ==> GoodAnchor(c, CitationAnchor(c, evidence).value)
  {
    hide FirstAnchor, CitesUsable, GoodAnchor;
    if evidence != [] {
      var first, rest := evidence[0], evidence[1..];
      CitationUsable(c, first);
      CitationAnchorMeans(c, rest);
      assert evidence == [first] + rest;
      CitationCons(c, first, rest);
    }
  }

  lemma {:induction false} EvidenceAnchorMeans(c: Candidate, evidence: seq<Evidence>)
    ensures EvidenceAnchor(c, evidence).Some? <==> EvidenceCanAnchor(c, evidence)
    ensures EvidenceAnchor(c, evidence).Some? ==> GoodAnchor(c, EvidenceAnchor(c, evidence).value)
  {
    hide FirstAnchor, ShowsUsable, GoodAnchor;
    if evidence != [] {
      var first, rest := evidence[0], evidence[1..];
      EvidenceUsable(c, first);
      EvidenceAnchorMeans(c, rest);
      assert evidence == [first] + rest;
      EvidenceCons(c, first, rest);
    }
  }

  lemma CitationUsable(c: Candidate, e: Citation)
    ensures var found := FirstAnchor(c, c.sources + c.retrieved, e.sourceId, "", e.line);
            && (found.Some? <==> exists s :: CitesUsable(c, e, s))
            && (found.Some? ==> GoodAnchor(c, Anchor(found.value, e.line)))
  {
    hide Anchors, UsableLine, GoodAnchor, FirstAnchor;
    FirstAnchorMeans(c, c.sources + c.retrieved, e.sourceId, "", e.line);
    FirstIsGood(c, e.sourceId, "", e.line);
    UsableIsListed(c, e.line);
    forall s | s in c.sources + c.retrieved ensures Anchors(c, s, e.sourceId, "", e.line) <==> CitesUsable(c, e, s) {
      AnchorsMeans(c, s, e.sourceId, "", e.line);
    }
  }

  lemma EvidenceUsable(c: Candidate, e: Evidence)
    ensures e.line.None? ==> forall s :: !ShowsUsable(c, e, s)
    ensures e.line.Some? ==>
              var found := FirstAnchor(c, c.sources + c.retrieved, NoId, e.file, e.line.value);
              && (found.Some? <==> exists s :: ShowsUsable(c, e, s))
              && (found.Some? ==> GoodAnchor(c, Anchor(found.value, e.line.value)))
  {
    hide Anchors, UsableLine, GoodAnchor, FirstAnchor;
    if e.line.Some? {
      var line := e.line.value;
      FirstAnchorMeans(c, c.sources + c.retrieved, NoId, e.file, line);
      FirstIsGood(c, NoId, e.file, line);
      UsableIsListed(c, line);
      forall s | s in c.sources + c.retrieved ensures Anchors(c, s, NoId, e.file, line) <==> ShowsUsable(c, e, s) {
        AnchorsMeans(c, s, NoId, e.file, line);
      }
    }
  }

  lemma UsableIsListed(c: Candidate, line: int)
    ensures forall s :: UsableLine(c, s, line) ==> s in c.sources + c.retrieved
  {
  }

  lemma FirstIsGood(c: Candidate, id: Id, path: string, line: int)
    ensures var found := FirstAnchor(c, c.sources + c.retrieved, id, path, line);
            found.Some? ==> GoodAnchor(c, Anchor(found.value, line))
  {
    FirstAnchorMeans(c, c.sources + c.retrieved, id, path, line);
  }

  /** There is an anchor exactly when some citation, or some evidence entry with a line, can anchor. */
  lemma AnchorExistsIff(c: Candidate, d: Decision)
    ensures CausalAnchor(c, d).Some? <==> CitationCanAnchor(c, d.evidence) || EvidenceCanAnchor(c, c.finding.evidence)
  {
    CitationAnchorMeans(c, d.evidence);
    EvidenceAnchorMeans(c, c.finding.evidence);
  }

  // ---- what is published ----

  const OPERATIONAL: seq<string> := [
    "Verification provider unavailable.", "Verification provider request failed.", "Verification canceled.",
    "Verification output exceeds ", "Candidate context exceeds ", "Invalid verification decision:",
    "Verification remained incomplete."]

  predicate OperationalFailure(reason: string) {
    exists k :: 0 <= k < |OPERATIONAL| && OPERATIONAL[k] <= reason
  }

  predicate Publishes(c: Candidate, d: Decision) {
    d.status.Keep?
    || (d.status.Unresolved? && c.finding.confidence == "high" && c.contextError == ""
        && d.failure.NoFailure? && !OperationalFailure(d.reason) && CausalAnchor(c, d).Some?)
  }

  // ---- re-anchoring ----

  predicate Spans(e: Evidence, path: string, line: int) {
    e.file == path && e.line.Some?
        && e.line.value <= line <= (if e.endLine.Some? then e.endLine.value else e.line.value)
  }

  /** The entry shows the line: it is about the file, and the line is its own or between its two. */
  ghost predicate ShowsLine(e: Evidence, path: string, line: int) {
    && e.file == path
    && match (e.line, e.endLine)
       case (Some(first), Some(last)) => first <= line && line <= last
       case (Some(only), None) => line == only
       case (None, _) => false
  }

  lemma SpansMeans(e: Evidence, path: string, line: int)
    ensures Spans(e, path, line) <==> ShowsLine(e, path, line)
  {
  }

  /** The first evidence entry that spans the line, or the length of the list. */
  function FirstSpan(evidence: seq<Evidence>, path: string, line: int): (i: nat)
    ensures i <= |evidence|
    ensures i < |evidence| ==> Spans(evidence[i], path, line)
  {
    if evidence == [] || Spans(evidence[0], path, line) then 0 else 1 + FirstSpan(evidence[1..], path, line)
  }

  function NewAnchor(a: Anchor): Evidence {
    Evidence(a.source.path, Some(a.line), None, "Causal changed line verified by Adversary.")
  }

  function Reanchored(evidence: seq<Evidence>, a: Anchor): seq<Evidence> {
    var i := FirstSpan(evidence, a.source.path, a.line);
    if i < |evidence| then [evidence[i]] + evidence[..i] + evidence[i + 1..] else [NewAnchor(a)] + evidence
  }

  function ReanchorSpec(f: Finding, c: Candidate, d: Decision): Finding {
    var a := CausalAnchor(c, d);
    if a.None? then f else f.(evidence := Reanchored(f.evidence, a.value))
  }

  /** Dropping entry `i` in place: later entries move down and the last one is left standing twice. */
  function DroppedInPlace(evidence: seq<Evidence>, i: nat): seq<Evidence>
    requires i < |evidence|
  {
    evidence[..i] + evidence[i + 1..] + [evidence[|evidence| - 1]]
  }

  /** What re-anchoring leaves in the array it was given. */
  function CallerArray(evidence: seq<Evidence>, a: Anchor): seq<Evidence> {
    var i := FirstSpan(evidence, a.source.path, a.line);
    if 0 < i < |evidence| then DroppedInPlace(evidence, i) else evidence
  }

  /** Nothing is moved, or all entries from the moved one on are equal. */
  predicate CallerArrayKept(evidence: seq<Evidence>, a: Anchor) {
    var i := FirstSpan(evidence, a.source.path, a.line);
    i == 0 || i == |evidence| || forall k :: i <= k < |evidence| - 1 ==> evidence[k] == evidence[k + 1]
  }

  /**
   * reanchorFindingToChangedCitation on the evidence slice it is given. The result is a fresh list, but moving a
   * later entry to the front shifts the entries behind it in the caller's own array.
   */
  method ReanchorEvidence(evidence: array<Evidence>, a: Anchor) returns (result: seq<Evidence>)
    modifies evidence
    ensures result == Reanchored(old(evidence[..]), a)
    ensures evidence[..] == CallerArray(old(evidence[..]), a)
    ensures evidence[..] == old(evidence[..]) <==> CallerArrayKept(old(evidence[..]), a)
  {
    hide CallerArrayKept, DroppedInPlace, Spans;
    ghost var before := evidence[..];
    CallerArrayKeptIff(before, a);
    for i := 0 to evidence.Length
      invariant evidence[..] == before
      invariant FirstSpan(before, a.source.path, a.line) == i + FirstSpan(before[i..], a.source.path, a.line)
    {
      var e := evidence[i];
      if !Spans(e, a.source.path, a.line) {
        continue;
      }
      if i > 0 {
        var rest := RemoveAt(evidence, i);
        return [e] + rest;
      }
      return evidence[..];
    }
    return [NewAnchor(a)] + evidence[..];
  }

  /** append(s[:i], s[i+1:]...): the shorter slice, built inside the array of `s`. */
  method RemoveAt(s: array<Evidence>, i: nat) returns (rest: seq<Evidence>)
    requires i < s.Length
    modifies s
    ensures rest == old(s[..i]) + old(s[i + 1..])
    ensures s[..] == DroppedInPlace(old(s[..]), i)
  {
    ghost var before := s[..];
    for k := i to s.Length - 1
      invariant forall m :: i <= m < k ==> s[m] == before[m + 1]
      invariant forall m :: 0 <= m < i || k <= m < s.Length ==> s[m] == before[m]
    {
      s[k] := s[k + 1];
    }
    forall m | 0 <= m < s.Length ensures s[m] == DroppedInPlace(before, i)[m] { DroppedAt(before, i, m); }
    assert s[..] == DroppedInPlace(before, i);
    return s[..s.Length - 1];
  }

  lemma DroppedAt(evidence: seq<Evidence>, i: nat, k: nat)
    requires i < |evidence| && k < |evidence|
    ensures |DroppedInPlace(evidence, i)| == |evidence|
    ensures DroppedInPlace(evidence, i)[k] == if k < i || k == |evidence| - 1 then evidence[k] else evidence[k + 1]
  {
  }

  lemma DroppingKeepsIff(evidence: seq<Evidence>, i: nat)
    requires i < |evidence|
    ensures DroppedInPlace(evidence, i) == evidence <==>
              forall k :: i <= k < |evidence| - 1 ==> evidence[k] == evidence[k + 1]
  {
    var dropped := DroppedInPlace(evidence, i);
    DroppedAt(evidence, i, 0);
    forall k | 0 <= k < |evidence|
      ensures dropped[k] == if k < i || k == |evidence| - 1 then evidence[k] else evidence[k + 1]
    {
      DroppedAt(evidence, i, k);
    }
    if dropped == evidence {
      forall k | i <= k < |evidence| - 1 ensures evidence[k] == evidence[k + 1] { assert dropped[k] == evidence[k]; }
    }
  }

  /** The caller's array survives exactly when nothing is moved or all entries from the moved one on are equal. */
  lemma {:induction false} CallerArrayKeptIff(evidence: seq<Evidence>, a: Anchor)
    ensures CallerArray(evidence, a) == evidence <==> CallerArrayKept(evidence, a)
  {
    var i := FirstSpan(evidence, a.source.path, a.line);
    if 0 < i < |evidence| {
      DroppingKeepsIff(evidence, i);
    }
  }

  const CITED := Anchor(Source(false, NoId, "b", Head, 1, [], ""), 2)
  const EVIDENCE := [Evidence("a", Some(1), None, ""), Evidence("b", Some(2), None, ""),
      Evidence("c", Some(3), None, "")]

  /** A caller's array that is changed: its second entry is overwritten by the third. */
  lemma CallerArrayCanChange()
    ensures CallerArray(EVIDENCE, CITED) == [EVIDENCE[0], EVIDENCE[2], EVIDENCE[2]] != EVIDENCE
  {
    assert !Spans(EVIDENCE[0], "b", 2) && Spans(EVIDENCE[1..][0], "b", 2);
    assert FirstSpan(EVIDENCE[1..], "b", 2) == 0;
    assert EVIDENCE[1] != EVIDENCE[2];
  }

  /** `after` is `before` with one entry moved to the front, or with `added` put there. */
  ghost predicate MovedToFront(before: seq<Evidence>, after: seq<Evidence>, added: Evidence) {
    || after == [added] + before
    || exists i :: 0 <= i < |before| && after == [before[i]] + before[..i] + before[i + 1..]
  }

  lemma {:induction false} FirstSpanMeans(evidence: seq<Evidence>, path: string, line: int)
    ensures var i := FirstSpan(evidence, path, line);
            && (i < |evidence| ==> ShowsLine(evidence[i], path, line))
            && forall k :: 0 <= k < i ==> !ShowsLine(evidence[k], path, line)
  {
    hide ShowsLine, Spans;
    if evidence != [] {
      SpansMeans(evidence[0], path, line);
      if !Spans(evidence[0], path, line) {
        FirstSpanMeans(evidence[1..], path, line);
        forall k | 0 <= k < FirstSpan(evidence, path, line) ensures !ShowsLine(evidence[k], path, line) {
          assert k > 0 ==> evidence[k] == evidence[1..][k - 1];
        }
      }
    }
  }

  /** The first entry that shows the anchor's line moves to the front; where none does, one is put there for it. */
  lemma ReanchoredMeans(evidence: seq<Evidence>, a: Anchor)
    ensures var (after, path, line) := (Reanchored(evidence, a), a.source.path, a.line);
            if exists e :: e in evidence && ShowsLine(e, path, line) then
              exists i :: && 0 <= i < |evidence| && ShowsLine(evidence[i], path, line)
                          && (forall k :: 0 <= k < i ==> !ShowsLine(evidence[k], path, line))
                          && after == [evidence[i]] + evidence[..i] + evidence[i + 1..]
            else
              after == [Evidence(path, Some(line), None, "Causal changed line verified by Adversary.")] + evidence
  {
    hide ShowsLine, FirstSpan;
    FirstSpanMeans(evidence, a.source.path, a.line);
  }

  /** `s` is the first source of the candidate that a citation of this ID, or evidence of this file, can anchor at. */
  ghost predicate FirstUsable(c: Candidate, s: Source, id: Id, path: string, line: int) {
    exists n :: && 0 <= n < |c.sources + c.retrieved| && (c.sources + c.retrieved)[n] == s
                && FitsAt(c, n, id, path, line) && forall m :: 0 <= m < n ==> !FitsAt(c, m, id, path, line)
  }

  ghost predicate FitsAt(c: Candidate, n: nat, id: Id, path: string, line: int)
    requires n < |c.sources + c.retrieved|
  {
    var s := (c.sources + c.retrieved)[n];
    (id == NoId || id == s.id) && (path == "" || path == s.path) && UsableLine(c, s, line)
  }

  lemma FirstAnchorIsFirst(c: Candidate, id: Id, path: string, line: int)
    ensures var found := FirstAnchor(c, c.sources + c.retrieved, id, path, line);
            found.Some? ==> FirstUsable(c, found.value, id, path, line)
  {
    hide UsableLine, Anchors;
    var sources := c.sources + c.retrieved;
    if FirstAnchor(c, sources, id, path, line).Some? {
      var n := FirstAnchorAt(c, sources, id, path, line);
      forall m | 0 <= m <= n ensures FitsAt(c, m, id, path, line) <==> Anchors(c, sources[m], id, path, line) {
        AnchorsMeans(c, sources[m], id, path, line);
      }
      assert FitsAt(c, n, id, path, line);
    }
  }

  lemma {:induction false} FirstAnchorAt(c: Candidate, sources: seq<Source>, id: Id, path: string, line: int)
    returns (n: nat)
    requires FirstAnchor(c, sources, id, path, line).Some?
    ensures n < |sources| && FirstAnchor(c, sources, id, path, line) == Some(sources[n])
    ensures Anchors(c, sources[n], id, path, line)
    ensures forall m :: 0 <= m < n ==> !Anchors(c, sources[m], id, path, line)
  {
    hide Anchors;
    n := 0;
    if !Anchors(c, sources[0], id, path, line) {
      var k := FirstAnchorAt(c, sources[1..], id, path, line);
      n := k + 1;
      forall m | 0 <= m < n ensures !Anchors(c, sources[m], id, path, line) {
        if m > 0 { assert sources[m] == sources[1..][m - 1]; }
      }
    }
  }

  lemma {:induction false} CitationAnchorIsFirst(c: Candidate, evidence: seq<Citation>) returns (i: nat)
    requires CitationAnchor(c, evidence).Some?
    ensures i < |evidence| && !CitationCanAnchor(c, evidence[..i])
    ensures var a := CitationAnchor(c, evidence).value;
            a.line == evidence[i].line && FirstUsable(c, a.source, evidence[i].sourceId, "", evidence[i].line)
  {
    hide FirstAnchor, FirstUsable, CitesUsable;
    var first := evidence[0];
    i := 0;
    FirstAnchorIsFirst(c, first.sourceId, "", first.line);
    CitationUsable(c, first);
    if FirstAnchor(c, c.sources + c.retrieved, first.sourceId, "", first.line).None? {
      var k := CitationAnchorIsFirst(c, evidence[1..]);
      i := k + 1;
      assert evidence[..i] == [first] + evidence[1..][..k];
      CitationCons(c, first, evidence[1..][..k]);
    }
  }

  lemma {:induction false} EvidenceAnchorIsFirst(c: Candidate, evidence: seq<Evidence>) returns (i: nat)
    requires EvidenceAnchor(c, evidence).Some?
    ensures i < |evidence| && !EvidenceCanAnchor(c, evidence[..i]) && evidence[i].line.Some?
    ensures var a := EvidenceAnchor(c, evidence).value;
            a.line == evidence[i].line.value && FirstUsable(c, a.source, NoId, evidence[i].file, a.line)
  {
    hide FirstAnchor, FirstUsable, ShowsUsable;
    var first := evidence[0];
    i := 0;
    if first.line.Some? { FirstAnchorIsFirst(c, NoId, first.file, first.line.value); }
    EvidenceUsable(c, first);
    if first.line.None? || FirstAnchor(c, c.sources + c.retrieved, NoId, first.file, first.line.value).None? {
      var k := EvidenceAnchorIsFirst(c, evidence[1..]);
      i := k + 1;
      assert evidence[..i] == [first] + evidence[1..][..k];
      EvidenceCons(c, first, evidence[1..][..k]);
    }
  }

  /**
   * The anchor is the line of the first citation that can anchor, in the first source that fits it; only where no
   * citation can, that of the first such evidence entry.
   */
  lemma AnchorIsFirst(c: Candidate, d: Decision) returns (i: nat)
    requires CausalAnchor(c, d).Some?
    ensures var (a, evidence) := (CausalAnchor(c, d).value, c.finding.evidence);
            if CitationCanAnchor(c, d.evidence) then
              && i < |d.evidence| && !CitationCanAnchor(c, d.evidence[..i]) && a.line == d.evidence[i].line
              && FirstUsable(c, a.source, d.evidence[i].sourceId, "", a.line)
            else
              && i < |evidence| && !EvidenceCanAnchor(c, evidence[..i]) && Some(a.line) == evidence[i].line
              && FirstUsable(c, a.source, NoId, evidence[i].file, a.line)
  {
    hide CitationAnchor, EvidenceAnchor, CitationCanAnchor, EvidenceCanAnchor, FirstUsable;
    CitationAnchorMeans(c, d.evidence);
    if CitationAnchor(c, d.evidence).Some? {
      i := CitationAnchorIsFirst(c, d.evidence);
    } else {
      i := EvidenceAnchorIsFirst(c, c.finding.evidence);
    }
  }

  lemma AnchorIsGood(c: Candidate, d: Decision)
    requires CausalAnchor(c, d).Some?
    ensures GoodAnchor(c, CausalAnchor(c, d).value)
  {
    hide GoodAnchor;
    CitationAnchorMeans(c, d.evidence);
    EvidenceAnchorMeans(c, c.finding.evidence);
  }

  /**
   * Publication anchoring. Whenever an anchor exists, the finding is published starting with evidence that spans a
   * line of a readable head-side source which, for a diff review, is a changed line; nothing else is lost or reordered.
   */
  lemma PublishedFindingIsAnchored(f: Finding, c: Candidate, d: Decision)
    requires CausalAnchor(c, d).Some?
    ensures var after, a := ReanchorSpec(f, c, d).evidence, CausalAnchor(c, d).value;
            && MovedToFront(f.evidence, after, NewAnchor(a)) && ShowsLine(after[0], a.source.path, a.line)
            && GoodAnchor(c, a)
  {
    hide CausalAnchor, GoodAnchor, ShowsLine;
    AnchorIsGood(c, d);
    var a := CausalAnchor(c, d).value;
    SpansMeans(Reanchored(f.evidence, a)[0], a.source.path, a.line);
  }

  /**
   * A published finding lacks an anchor only when every usable head-side line its keep decision cites is in blank
   * source.
   */
  lemma PublishedWithoutAnchor(c: Candidate, d: Decision, i: nat, s: Source)
    requires Publishes(c, d) && CausalAnchor(c, d).None?
    requires i < |d.evidence| && s in c.sources + c.retrieved && s.id == d.evidence[i].sourceId && s.side.Head?
    requires Holds(s, d.evidence[i].line)
             && (c.wholeRepository || InRegion(s.path, d.evidence[i].line, c.changedRegions))
    ensures d.status.Keep? && Blank(s.content)
  {
    hide CausalAnchor, FirstAnchor;
    AnchorExistsIff(c, d);
    AnchorsMeans(c, s, d.evidence[i].sourceId, "", d.evidence[i].line);
    assert d.evidence[i] in d.evidence && !CitesUsable(c, d.evidence[i], s);
  }

  /** Citation `i` names a head-side line of `src` in a changed region, and `src` is nothing but white space. */
  predicate CitesBlank(c: Candidate, d: Decision, i: nat, src: Source) {
    && i < |d.evidence| && src in c.sources + c.retrieved && src.id == d.evidence[i].sourceId
    && src.side.Head? && Holds(src, d.evidence[i].line) && Blank(src.content)
    && InRegion(src.path, d.evidence[i].line, c.changedRegions)
  }

  /** The blank source behind a published diff finding that has no anchor. */
  lemma BlankCause(c: Candidate, d: Decision) returns (i: nat, src: Source)
    requires CitationSafe(d, c.sources + c.retrieved, c) && Publishes(c, d) && CausalAnchor(c, d).None?
    requires !c.wholeRepository && c.changedRegions != []
    ensures CitesBlank(c, d, i, src)
  {
    hide CausalAnchor, OperationalFailure, FullyCited, Holds, InRegion, Blank;
    i :| 0 <= i < |d.evidence| && CitedAsCause(d.evidence[i], c.sources + c.retrieved, c.changedRegions);
    src :| src in c.sources + c.retrieved && src.id == d.evidence[i].sourceId && src.side.Head?
           && Holds(src, d.evidence[i].line) && InRegion(src.path, d.evidence[i].line, c.changedRegions);
    PublishedWithoutAnchor(c, d, i, src);
  }

  const SPACE := [Rune(' '), LF]
  const BLANK_ID := Hash(false, "a", Head, 1, SPACE, "")
  const BLANK := Source(false, BLANK_ID, "a", Head, 1, SPACE, "")
  const BLANK_CANDIDATE := Candidate("c", false, [Region("a", 1, 1)], NO_FINDING, [], [BLANK], [], "")
  const BLANK_SNAPSHOT := Snapshot(VERSION, "", "", [BLANK_CANDIDATE])
  const KEEPS := Decision("c", Keep, High, "blank", [Citation(BLANK_ID, 1)], [], NoFailure)
  /** A provider that keeps the finding at once, citing the blank line. */
  const KEEPER := Model((input: Input) => Reply(false, None, Ok(KEEPS), 0), (input: Input) => 0)

  lemma BlankHasOneLine()
    ensures Holds(BLANK, 1) && Spelling(SPACE) == SPACE && Clean(SPACE) == SPACE
  {
    SplitOffPiece([Rune(' ')], LF, []);
    assert TrimNewline(SPACE) == [Rune(' ')];
  }

  lemma KeeperIsAccepted()
    ensures Validate(KEEPS, BLANK_CANDIDATE).None?
  {
    hide Holds;
    BlankHasOneLine();
    Utf8LengthBound("blank");
    assert [BLANK][0] == BLANK && Resolves(KEEPS.evidence[0], [BLANK]);
    var sources := BLANK_CANDIDATE.sources + BLANK_CANDIDATE.retrieved;
    assert BLANK_CANDIDATE.changedRegions[0].path == "a" && InRegion("a", 1, BLANK_CANDIDATE.changedRegions);
    assert sources[0] == BLANK && CitesRegion(KEEPS.evidence[0], sources, BLANK_CANDIDATE.changedRegions);
  }

  lemma KeeperDecides()
    ensures var outcome := VerifySpec(Some(KEEPER), None, BLANK_CANDIDATE);
            outcome.decision == KEEPS && outcome.retrieved == []
  {
    hide Validate;
    KeeperIsAccepted();
    assert WorkingCandidate(BLANK_CANDIDATE, BLANK_CANDIDATE.sources) == BLANK_CANDIDATE;
    var input := Prompt(BLANK_CANDIDATE, None, None, None);
    assert KEEPER.review(input) == Reply(false, None, Ok(KEEPS), 0);
    assert RequestSpec(KEEPER, BLANK_CANDIDATE, None, 1).result == Ok(KEEPS);
  }

  lemma BlankIsClean()
    ensures ValidSnapshot(BLANK_SNAPSHOT) && CleanCandidate(BLANK_CANDIDATE) == BLANK_CANDIDATE
  {
    hide ValidPath;
    BlankHasOneLine();
    RequestIsValid();
  }

  lemma BlankCannotAnchor()
    ensures Publishes(BLANK_CANDIDATE, KEEPS) && CausalAnchor(BLANK_CANDIDATE, KEEPS).None?
    ensures CitesBlank(BLANK_CANDIDATE, KEEPS, 0, BLANK)
  {
    hide CausalAnchor, Holds;
    BlankHasOneLine();
    AnchorExistsIff(BLANK_CANDIDATE, KEEPS);
    assert BLANK_CANDIDATE.changedRegions[0].path == "a" && InRegion("a", 1, BLANK_CANDIDATE.changedRegions);
  }

  /** The exception is real: a run can publish a finding of a diff review that no line can anchor. */
  lemma {:induction false} BlankFindingIsPublished(size: Snapshot -> nat)
    requires size(BLANK_SNAPSHOT) <= MAX_SNAPSHOT_BYTES
    ensures var run := Run(BLANK_SNAPSHOT, Some(KEEPER), None, size);
            && run.Ok? && run.value.snapshot == BLANK_SNAPSHOT && run.value.decisions == [KEEPS]
    ensures Publishes(BLANK_CANDIDATE, KEEPS) && CausalAnchor(BLANK_CANDIDATE, KEEPS).None?
    ensures CitesBlank(BLANK_CANDIDATE, KEEPS, 0, BLANK)
  {
    hide VerifySpec, CausalAnchor, CitesBlank, Publishes, ValidSnapshot, CleanCandidate;
    KeeperDecides();
    BlankIsClean();
    BlankCannotAnchor();
    var run := Run(BLANK_SNAPSHOT, Some(KEEPER), None, size);
    assert run.value.snapshot.candidates == [BLANK_CANDIDATE];
  }

  /**
   * For a diff-review candidate of a run, a published finding is anchored to a changed line, unless the changed
   * line its keep decision cites is in a source of nothing but white space.
   */
  lemma {:induction false} DiffFindingIsAnchoredUnlessBlank(s: Snapshot, model: Option<Model>, reader: Option<Reader>,
                                                            size: Snapshot -> nat, report: Report, k: nat)
    requires GoodReader(reader) && Run(s, model, reader, size) == Ok(report) && k < |s.candidates|
    ensures |report.decisions| == |report.snapshot.candidates| == |s.candidates|
    ensures var c, d := report.snapshot.candidates[k], report.decisions[k];
            !c.wholeRepository && c.changedRegions != [] && Publishes(c, d) ==>
              || (CausalAnchor(c, d).Some? && GoodAnchor(c, CausalAnchor(c, d).value))
              || exists i, src :: CitesBlank(c, d, i, src)
  {
    hide *;
    RunIsCitationSafe(s, model, reader, size, report, k);
    var c, d := report.snapshot.candidates[k], report.decisions[k];
    if !c.wholeRepository && c.changedRegions != [] && Publishes(c, d) {
      if CausalAnchor(c, d).Some? {
        AnchorIsGood(c, d);
      } else {
        var i, src := BlankCause(c, d);
      }
    }
  }

  // ---- filtering the runs with one running decision index ----

  /** The findings among the first `n` that are published, decision `start + j` belonging to finding `j`. */
  function PublishedOf(findings: seq<Finding>, candidates: seq<Candidate>, decisions: seq<Decision>, start: nat,
                       n: nat): seq<Finding>
    requires n <= |findings| && start + n <= |candidates| == |decisions|
  {
    if n == 0 then []
    else
      var k := start + n - 1;
      PublishedOf(findings, candidates, decisions, start, n - 1)
      + if Publishes(candidates[k], decisions[k]) then [ReanchorSpec(findings[n - 1], candidates[k], decisions[k])]
          else []
  }

  /** How many of the first `n` candidates are published. */
  function PublishedCount(candidates: seq<Candidate>, decisions: seq<Decision>, n: nat): nat
    requires n <= |candidates| == |decisions|
  {
    if n == 0 then 0
    else PublishedCount(candidates, decisions, n - 1) + if Publishes(candidates[n - 1], decisions[n - 1]) then 1 else 0
  }

  lemma {:induction false} PublishedOfCount(findings: seq<Finding>, candidates: seq<Candidate>,
                                            decisions: seq<Decision>, start: nat, n: nat)
    requires n <= |findings| && start + n <= |candidates| == |decisions|
    ensures |PublishedOf(findings, candidates, decisions, start, n)|
         == PublishedCount(candidates, decisions, start + n) - PublishedCount(candidates, decisions, start)
  {
    if n > 0 {
      PublishedOfCount(findings, candidates, decisions, start, n - 1);
    }
  }

  function FindingsLeft(runs: seq<ReviewRun>, n: nat): nat
    requires n <= |runs|
  {
    if n == 0 then 0 else FindingsLeft(runs, n - 1) + |RunFindings(runs[n - 1])|
  }

  method PublishRun(findings: seq<Finding>, candidates: seq<Candidate>, decisions: seq<Decision>, start: nat)
    returns (kept: seq<Finding>)
    requires start + |findings| <= |candidates| == |decisions|
    ensures kept == PublishedOf(findings, candidates, decisions, start, |findings|)
  {
    kept := [];
    for j := 0 to |findings|
      invariant kept == PublishedOf(findings, candidates, decisions, start, j)
    {
      var decision := start + j;
      if Publishes(candidates[decision], decisions[decision]) {
        kept := kept + [ReanchorSpec(findings[j], candidates[decision], decisions[decision])];
      }
    }
  }

  /**
   * One run after filtering: its findings matched with the decisions from `start` on; a run without a result stays as
   * it is.
   */
  function FilteredRun(run: ReviewRun, candidates: seq<Candidate>, decisions: seq<Decision>, start: nat): ReviewRun
    requires start + |RunFindings(run)| <= |candidates| == |decisions|
  {
    if run.findings.None? then run
    else run.(findings := Some(PublishedOf(run.findings.value, candidates, decisions, start, |run.findings.value|)))
  }

  method FilterRun(run: ReviewRun, candidates: seq<Candidate>, decisions: seq<Decision>, start: nat)
    returns (filtered: ReviewRun)
    requires start + |RunFindings(run)| <= |candidates| == |decisions|
    ensures filtered == FilteredRun(run, candidates, decisions, start)
  {
    if run.findings.None? {
      return run;
    }
    var kept := PublishRun(run.findings.value, candidates, decisions, start);
    return run.(findings := Some(kept));
  }

  function FilteredRuns(runs: seq<ReviewRun>, candidates: seq<Candidate>, decisions: seq<Decision>,
                        n: nat): (filtered: seq<ReviewRun>)
    requires n <= |runs| && Offset(runs, n) <= |candidates| == |decisions|
    ensures |filtered| == n
  {
    if n == 0 then []
    else
      FilteredRuns(runs, candidates, decisions, n - 1)
      + [FilteredRun(runs[n - 1], candidates, decisions, Offset(runs, n - 1))]
  }

  method FilterRuns(runs: seq<ReviewRun>, candidates: seq<Candidate>, decisions: seq<Decision>)
    returns (filtered: seq<ReviewRun>)
    requires Offset(runs, |runs|) == |candidates| == |decisions|
    ensures filtered == FilteredRuns(runs, candidates, decisions, |runs|)
  {
    filtered := [];
    var decision := 0;
    for i := 0 to |runs|
      invariant decision == Offset(runs, i) <= |candidates|
      invariant filtered == FilteredRuns(runs, candidates, decisions, i)
    {
      OffsetRises(runs, i + 1, |runs|);
      var next := FilterRun(runs[i], candidates, decisions, decision);
      filtered := filtered + [next];
      decision := decision + |RunFindings(runs[i])|;
    }
  }

  /** What filtering leaves is what is published, no more and no less. */
  lemma {:induction false} FindingsLeftArePublished(runs: seq<ReviewRun>, candidates: seq<Candidate>,
                                                    decisions: seq<Decision>, n: nat)
    requires n <= |runs| && Offset(runs, n) <= |candidates| == |decisions|
    ensures FindingsLeft(FilteredRuns(runs, candidates, decisions, n), n)
            == PublishedCount(candidates, decisions, Offset(runs, n))
  {
    if n > 0 {
      hide PublishedCount, FilteredRun, FindingsLeft, RunFindings;
      var (run, start) := (runs[n - 1], Offset(runs, n - 1));
      FindingsLeftArePublished(runs, candidates, decisions, n - 1);
      LeftSnoc(FilteredRuns(runs, candidates, decisions, n - 1), FilteredRun(run, candidates, decisions, start));
      FilteredRunCount(run, candidates, decisions, start);
    } else {
      assert PublishedCount(candidates, decisions, 0) == 0;
    }
  }

  lemma FilteredRunCount(run: ReviewRun, candidates: seq<Candidate>, decisions: seq<Decision>, start: nat)
    requires start + |RunFindings(run)| <= |candidates| == |decisions|
    ensures |RunFindings(FilteredRun(run, candidates, decisions, start))|
         == PublishedCount(candidates, decisions, start + |RunFindings(run)|)
            - PublishedCount(candidates, decisions, start)
  {
    hide PublishedOf, PublishedCount;
    if run.findings.Some? {
      PublishedOfCount(run.findings.value, candidates, decisions, start, |run.findings.value|);
    }
  }

  lemma {:induction false} OffsetRises(runs: seq<ReviewRun>, i: nat, n: nat)
    requires i <= n <= |runs|
    ensures Offset(runs, i) <= Offset(runs, n)
    decreases n - i
  {
    if i < n {
      OffsetRises(runs, i, n - 1);
    }
  }

  lemma {:induction false} LeftSnoc(runs: seq<ReviewRun>, run: ReviewRun)
    ensures FindingsLeft(runs + [run], |runs| + 1) == FindingsLeft(runs, |runs|) + |RunFindings(run)|
  {
    LeftPrefix(runs, run, |runs|);
  }

  lemma {:induction false} LeftPrefix(runs: seq<ReviewRun>, run: ReviewRun, n: nat)
    requires n <= |runs|
    ensures FindingsLeft(runs + [run], n) == FindingsLeft(runs, n)
  {
    if n > 0 {
      LeftPrefix(runs, run, n - 1);
    }
  }

  // ---- what filtering publishes ----

  /** `from` lists, in order, the findings among the first `n` that are published, and what becomes of each. */
  ghost predicate Picks(findings: seq<Finding>, candidates: seq<Candidate>, decisions: seq<Decision>, start: nat,
                        n: nat, from: seq<nat>)
    requires n <= |findings| && start + n <= |candidates| == |decisions|
  {
    var kept := PublishedOf(findings, candidates, decisions, start, n);
    && |from| == |kept|
    && (forall m :: 0 <= m < |from| ==>
          && from[m] < n && Publishes(candidates[start + from[m]], decisions[start + from[m]])
          && kept[m] == ReanchorSpec(findings[from[m]], candidates[start + from[m]], decisions[start + from[m]]))
    && (forall l, m :: 0 <= l < m < |from| ==> from[l] < from[m])
    && forall j :: 0 <= j < n && Publishes(candidates[start + j], decisions[start + j]) ==> j in from
  }

  lemma {:induction false} PublishedFrom(findings: seq<Finding>, candidates: seq<Candidate>, decisions: seq<Decision>,
                                         start: nat, n: nat) returns (from: seq<nat>)
    requires n <= |findings| && start + n <= |candidates| == |decisions|
    ensures Picks(findings, candidates, decisions, start, n, from)
  {
    hide Publishes, ReanchorSpec;
    if n == 0 {
      from := [];
    } else {
      hide Picks;
      var before := PublishedFrom(findings, candidates, decisions, start, n - 1);
      from := before + if Publishes(candidates[start + n - 1], decisions[start + n - 1]) then [n - 1] else [];
      OnePick(findings, candidates, decisions, start, n, before, from);
    }
  }

  lemma {:induction false} OnePick(findings: seq<Finding>, candidates: seq<Candidate>, decisions: seq<Decision>,
                                   start: nat, n: nat, before: seq<nat>, from: seq<nat>)
    requires 0 < n <= |findings| && start + n <= |candidates| == |decisions|
    requires Picks(findings, candidates, decisions, start, n - 1, before)
    requires from == before + if Publishes(candidates[start + n - 1], decisions[start + n - 1]) then [n - 1] else []
    ensures Picks(findings, candidates, decisions, start, n, from)
  {
    hide Publishes, ReanchorSpec;
    var (kept, now) := (PublishedOf(findings, candidates, decisions, start, n - 1),
        PublishedOf(findings, candidates, decisions, start, n));
    assert kept <= now && |now| == |from|;
    forall m | 0 <= m < |from|
      ensures from[m] < n && Publishes(candidates[start + from[m]], decisions[start + from[m]])
      ensures now[m] == ReanchorSpec(findings[from[m]], candidates[start + from[m]], decisions[start + from[m]])
    {
      if m < |before| { assert now[m] == kept[m] && from[m] == before[m]; }
    }
    forall j | 0 <= j < n && Publishes(candidates[start + j], decisions[start + j]) ensures j in from {
      if j < n - 1 { assert j in before; } else { assert from[|before|] == j; }
    }
  }

  lemma {:induction false} FilteredAt(runs: seq<ReviewRun>, candidates: seq<Candidate>, decisions: seq<Decision>,
                                      n: nat, i: nat)
    requires i < n <= |runs| && Offset(runs, n) <= |candidates| == |decisions|
    ensures Offset(runs, i) + |RunFindings(runs[i])| <= |candidates|
    ensures FilteredRuns(runs, candidates, decisions, n)[i]
            == FilteredRun(runs[i], candidates, decisions, Offset(runs, i))
    decreases n
  {
    hide FilteredRun, RunFindings;
    if i < n - 1 {
      FilteredAt(runs, candidates, decisions, n - 1, i);
    }
  }

  // ---- a whole verification of composed results ----

  /**
   * Each decision is about its own finding. The candidate and the decision at Offset(i) + j carry the name of finding
   * `j` of run `i` and that very finding, and no other decision carries the name.
   */
  lemma {:induction false} DecisionsArePaired(setup: Setup, runs: seq<ReviewRun>, model: Option<Model>,
                                              size: Snapshot -> nat, report: Report, i: nat, j: nat)
    requires Run(Opened(setup, runs), model, setup.Reading(), size) == Ok(report)
    requires i < |runs| && j < |RunFindings(runs[i])|
    ensures var k := Offset(runs, i) + j;
            && k < |report.decisions| == |report.snapshot.candidates| == Offset(runs, |runs|)
            && report.decisions[k].candidateId == report.snapshot.candidates[k].id == CandidateId(i, j)
            && report.snapshot.candidates[k].finding == RunFindings(runs[i])[j]
            && report.snapshot.candidates[k].changedRegions == runs[i].changedRegions
            && report.snapshot.candidates[k].wholeRepository == setup.allFiles
    ensures forall m :: 0 <= m < |report.decisions| && report.decisions[m].candidateId == CandidateId(i, j) ==>
              m == Offset(runs, i) + j
  {
    hide *;
    var (s, k) := (Opened(setup, runs), Offset(runs, i) + j);
    SetupReads(setup);
    CandidateAt(setup, runs, i, j);
    RunIsCitationSafe(s, model, setup.Reading(), size, report, k);
    RunKeepsCandidates(s, model, setup.Reading(), size, report, k);
    forall m | 0 <= m < |report.decisions| && report.decisions[m].candidateId == CandidateId(i, j) ensures m == k {
      RunIsCitationSafe(s, model, setup.Reading(), size, report, m);
      CandidateNamedOnce(setup, runs, i, j, m);
    }
  }

  lemma SetupReads(setup: Setup)
    ensures GoodReader(setup.Reading())
  {
    if setup.view.Some? {
      CollectorIsGoodReader(setup.view.value);
    }
  }

  /** A run leaves the finding, the regions and the kind of review of each candidate alone. */
  lemma {:induction false} RunKeepsCandidates(s: Snapshot, model: Option<Model>, reader: Option<Reader>,
                                              size: Snapshot -> nat, report: Report, k: nat)
    requires Run(s, model, reader, size) == Ok(report) && k < |s.candidates|
    ensures |report.snapshot.candidates| == |s.candidates|
    ensures var (c, d) := (s.candidates[k], report.snapshot.candidates[k]);
            d.finding == c.finding && d.changedRegions == c.changedRegions && d.wholeRepository == c.wholeRepository
  {
    hide ValidSnapshot, VerifySpec, Clean;
  }

  lemma {:induction false} RunHasAllDecisions(setup: Setup, runs: seq<ReviewRun>, model: Option<Model>,
                                              size: Snapshot -> nat, report: Report)
    requires Run(Opened(setup, runs), model, setup.Reading(), size) == Ok(report)
    ensures |report.decisions| == |report.snapshot.candidates| == Offset(runs, |runs|)
  {
    hide ValidSnapshot, VerifySpec, CandidateFor;
    SlotsLength(runs, |runs|);
  }

  /** A finding as published: its own, verified under its own decision, and anchored. */
  ghost predicate PublishedRight(allFiles: bool, run: ReviewRun, c: Candidate, d: Decision, original: Finding,
                                 published: Finding) {
    && Publishes(c, d) && c.finding == original && published == original.(evidence := published.evidence)
    && match CausalAnchor(c, d)
       case Some(a) =>
         && MovedToFront(original.evidence, published.evidence, NewAnchor(a))
         && published.evidence != [] && ShowsLine(published.evidence[0], a.source.path, a.line) && GoodAnchor(c, a)
         && (allFiles || InRegion(a.source.path, a.line, run.changedRegions))
       case None =>
         published == original && (allFiles || run.changedRegions == [] || exists n, src :: CitesBlank(c, d, n, src))
  }

  lemma {:induction false} PublishedIsRight(setup: Setup, runs: seq<ReviewRun>, model: Option<Model>,
                                            size: Snapshot -> nat, report: Report, i: nat, j: nat)
    requires Run(Opened(setup, runs), model, setup.Reading(), size) == Ok(report)
    requires i < |runs| && j < |RunFindings(runs[i])|
    ensures Offset(runs, i) + j < |report.decisions| == |report.snapshot.candidates|
    ensures var (c, d) := (report.snapshot.candidates[Offset(runs, i) + j], report.decisions[Offset(runs, i) + j]);
            var original := RunFindings(runs[i])[j];
            Publishes(c, d) ==> PublishedRight(setup.allFiles, runs[i], c, d, original, ReanchorSpec(original, c, d))
  {
    hide Run, Opened, Publishes, CausalAnchor, ShowsLine, Reanchored, NewAnchor, CandidateId, Offset, RunFindings,
        GoodReader, MovedToFront;
    hide InRegion, Holds, CitesBlank;
    var (k, original) := (Offset(runs, i) + j, RunFindings(runs[i])[j]);
    DecisionsArePaired(setup, runs, model, size, report, i, j);
    var (c, d) := (report.snapshot.candidates[k], report.decisions[k]);
    if Publishes(c, d) {
      SetupReads(setup);
      OpenedCount(setup, runs);
      if CausalAnchor(c, d).Some? {
        PublishedFindingIsAnchored(original, c, d);
        MovedIsNotEmpty(original.evidence, Reanchored(original.evidence, CausalAnchor(c, d).value),
            NewAnchor(CausalAnchor(c, d).value));
      } else {
        DiffFindingIsAnchoredUnlessBlank(Opened(setup, runs), model, setup.Reading(), size, report, k);
      }
    }
  }

  lemma OpenedCount(setup: Setup, runs: seq<ReviewRun>)
    ensures |Opened(setup, runs).candidates| == Offset(runs, |runs|)
  {
    SlotsLength(runs, |runs|);
  }

  lemma MovedIsNotEmpty(before: seq<Evidence>, after: seq<Evidence>, added: Evidence)
    requires MovedToFront(before, after, added)
    ensures after != []
  {
  }

  /**
   * One run after filtering, its candidates and decisions starting at `start`; `from` are the findings that are left.
   */
  ghost predicate RunIsRight(allFiles: bool, run: ReviewRun, filtered: ReviewRun, candidates: seq<Candidate>,
                             decisions: seq<Decision>, start: nat, from: seq<nat>)
    requires start + |RunFindings(run)| <= |candidates| == |decisions|
  {
    && filtered == run.(findings := filtered.findings) && (run.findings.None? <==> filtered.findings.None?)
    && |from| == |RunFindings(filtered)|
    && (forall m :: 0 <= m < |from| ==>
          && from[m] < |RunFindings(run)|
          && PublishedRight(allFiles, run, candidates[start + from[m]], decisions[start + from[m]],
                            RunFindings(run)[from[m]], RunFindings(filtered)[m]))
    && (forall l, m :: 0 <= l < m < |from| ==> from[l] < from[m])
    && forall j :: 0 <= j < |RunFindings(run)| && Publishes(candidates[start + j], decisions[start + j]) ==> j in from
  }

  lemma PicksAreRight(allFiles: bool, run: ReviewRun, candidates: seq<Candidate>, decisions: seq<Decision>, start: nat,
                      from: seq<nat>)
    requires run.findings.Some? && start + |run.findings.value| <= |candidates| == |decisions|
    requires Picks(run.findings.value, candidates, decisions, start, |run.findings.value|, from)
    requires forall j :: 0 <= j < |run.findings.value| && Publishes(candidates[start + j], decisions[start + j]) ==>
               PublishedRight(allFiles, run, candidates[start + j], decisions[start + j], run.findings.value[j],
                              ReanchorSpec(run.findings.value[j], candidates[start + j], decisions[start + j]))
    ensures RunIsRight(allFiles, run, FilteredRun(run, candidates, decisions, start), candidates, decisions, start,
            from)
  {
    hide Publishes, PublishedOf, PublishedRight, ReanchorSpec;
  }

  /**
   * What filtering publishes. A run without a result stays as it is; of any other run exactly the findings whose own
   * decision publishes them are left, in their order, each unchanged but for its anchor.
   */
  lemma {:induction false} FilteredRunIsRight(setup: Setup, runs: seq<ReviewRun>, model: Option<Model>,
                                              size: Snapshot -> nat, report: Report, i: nat) returns (from: seq<nat>)
    requires Run(Opened(setup, runs), model, setup.Reading(), size) == Ok(report) && i < |runs|
    ensures |report.decisions| == |report.snapshot.candidates| == Offset(runs, |runs|)
    ensures Offset(runs, i) + |RunFindings(runs[i])| <= |report.decisions|
    ensures RunIsRight(setup.allFiles, runs[i],
            FilteredRuns(runs, report.snapshot.candidates, report.decisions, |runs|)[i],
                       report.snapshot.candidates, report.decisions, Offset(runs, i), from)
  {
    hide *;
    RunHasAllDecisions(setup, runs, model, size, report);
    var (candidates, decisions, start) := (report.snapshot.candidates, report.decisions, Offset(runs, i));
    FilteredAt(runs, candidates, decisions, |runs|, i);
    FindingsOf(runs[i]);
    if runs[i].findings.Some? {
      var findings := runs[i].findings.value;
      from := PublishedFrom(findings, candidates, decisions, start, |findings|);
      forall j | 0 <= j < |findings| && Publishes(candidates[start + j], decisions[start + j])
        ensures PublishedRight(setup.allFiles, runs[i], candidates[start + j], decisions[start + j], findings[j],
                               ReanchorSpec(findings[j], candidates[start + j], decisions[start + j]))
      {
        PublishedIsRight(setup, runs, model, size, report, i, j);
      }
      PicksAreRight(setup.allFiles, runs[i], candidates, decisions, start, from);
    } else {
      from := [];
      NoResultIsRight(setup.allFiles, runs[i], candidates, decisions, start);
    }
  }

  lemma FindingsOf(run: ReviewRun)
    ensures RunFindings(run) == if run.findings.Some? then run.findings.value else []
  {
  }

  lemma NoResultIsRight(allFiles: bool, run: ReviewRun, candidates: seq<Candidate>, decisions: seq<Decision>,
                        start: nat)
    requires run.findings.None? && start + |RunFindings(run)| <= |candidates| == |decisions|
    ensures RunIsRight(allFiles, run, FilteredRun(run, candidates, decisions, start), candidates, decisions, start, [])
  {
  }

  function Verified(setup: Setup, runs: seq<ReviewRun>, model: Option<Model>,
                    size: Snapshot -> nat): Result<(seq<ReviewRun>, Report), RunError> {
    match Run(Opened(setup, runs), model, setup.Reading(), size)
    case Err(e) => Err(e)
    case Ok(report) =>
      RunHasAllDecisions(setup, runs, model, size, report);
      Ok((FilteredRuns(runs, report.snapshot.candidates, report.decisions, |runs|), report))
  }

  /** Build the candidates, verify them, and filter the runs by the decisions. */
  method VerifyComposedResults(collector: Collector?, setup: Setup, runs: seq<ReviewRun>, model: Option<Model>,
                               size: Snapshot -> nat)
    returns (res: Result<(seq<ReviewRun>, Report), RunError>)
    requires Serves(collector, setup)
    modifies collector
    ensures res == Verified(setup, runs, model, size)
  {
    hide Serves;
    var candidates := BuildCandidates(collector, setup, runs);
    var pinned := setup.view.Some?;
    var snapshot := Snapshot(VERSION, if pinned then setup.base else "", if pinned then setup.head else "", candidates);
    var run := Run(snapshot, model, setup.Reading(), size);
    if run.Err? {
      return Err(run.error);
    }
    var report := run.value;
    RunHasAllDecisions(setup, runs, model, size, report);
    var filtered := FilterRuns(runs, report.snapshot.candidates, report.decisions);
    return Ok((filtered, report));
  }

  // ---- the disposition counts ----

  /** How many of the first `n` decisions have this status. */
  function StatusCount(decisions: seq<Decision>, status: Status, n: nat): nat
    requires n <= |decisions|
  {
    if n == 0 then 0 else StatusCount(decisions, status, n - 1) + if decisions[n - 1].status == status then 1 else 0
  }

  datatype Counts = Counts(keep: nat, fallback: nat, reject: nat, unresolved: nat)

  /** Every candidate is counted once, and the kept and fallback ones are exactly the published ones. */
  method DispositionCounts(candidates: seq<Candidate>, decisions: seq<Decision>) returns (counts: Counts)
    requires |candidates| == |decisions|
    ensures counts.keep + counts.fallback == PublishedCount(candidates, decisions, |candidates|)
    ensures counts.keep + counts.fallback + counts.reject + counts.unresolved == |candidates|
    ensures counts.keep == StatusCount(decisions, Keep, |decisions|)
            && counts.reject == StatusCount(decisions, Reject, |decisions|)
  {
    counts := Counts(0, 0, 0, 0);
    for i := 0 to |decisions|
      invariant counts.keep + counts.fallback == PublishedCount(candidates, decisions, i)
      invariant counts.keep + counts.fallback + counts.reject + counts.unresolved == i
      invariant counts.keep == StatusCount(decisions, Keep, i) && counts.reject == StatusCount(decisions, Reject, i)
    {
      var d := decisions[i];
      if d.status.Keep? {
        counts := counts.(keep := counts.keep + 1);
      } else if Publishes(candidates[i], d) {
        counts := counts.(fallback := counts.fallback + 1);
      } else if d.status.Reject? {
        counts := counts.(reject := counts.reject + 1);
      } else {
        counts := counts.(unresolved := counts.unresolved + 1);
      }
    }
  }
}
