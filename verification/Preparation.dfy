/** What the verifier is given to read about a finding (Prepare, internal/findingverify/source.go). */
module Preparation {
  import opened Prelude
  import opened Findings
  import opened Sources
  import opened Verify
  import opened Candidates

  // ---- the cited files ----

  /** `at` are the first mentions of the first four cited files that have a valid path. */
  ghost predicate FirstCited(evidence: seq<Evidence>, at: seq<nat>) {
    |at| <= 4 && CitedSoFar(evidence, if |at| == 4 then at[3] + 1 else |evidence|, at)
  }

  /** `at` are the first mentions of all files with a valid path among the first `n` entries. */
  ghost predicate CitedSoFar(evidence: seq<Evidence>, n: nat, at: seq<nat>) {
    && n <= |evidence|
    && (forall i :: 0 <= i < |at| ==> at[i] < n && ValidPath(evidence[at[i]].file))
    && (forall i, j :: 0 <= i < j < |at| ==> at[i] < at[j])
    && (forall i, k :: 0 <= i < |at| && 0 <= k < at[i] ==> evidence[k].file != evidence[at[i]].file)
    && forall k :: 0 <= k < n && ValidPath(evidence[k].file) ==>
        exists i :: 0 <= i < |at| && evidence[at[i]].file == evidence[k].file
  }

  /** A hundred lines of one side of the cited file, from forty lines before the cited one if there are as many. */
  ghost function Excerpt(view: Key -> File, e: Evidence, side: Side): Source {
    var line := if e.line.Some? && e.line.value > 1 then e.line.value else 1;
    ReadSpec(view, ReadRequest(e.file, side, if line > 41 then line - 40 else 1, line + 60))
  }

  /** Both sides of each cited file. */
  ghost function Excerpts(view: Key -> File, evidence: seq<Evidence>, at: seq<nat>): seq<Source>
    requires forall i :: 0 <= i < |at| ==> at[i] < |evidence|
  {
    if at == [] then []
    else
      var last := |at| - 1;
      Excerpts(view, evidence, at[..last])
      + [Excerpt(view, evidence[at[last]], Base), Excerpt(view, evidence[at[last]], Head)]
  }

  /** The patch of each cited file that was changed, under its name. */
  ghost function Shown(patches: Patches, evidence: seq<Evidence>, at: seq<nat>): Content
    requires forall i :: 0 <= i < |at| ==> at[i] < |evidence|
  {
    if at == [] then []
    else
      var (last, file) := (|at| - 1, evidence[at[|at| - 1]].file);
      Shown(patches, evidence, at[..last])
      + if exists p :: (file, p) in patches && p != [] then Text("\nFile: " + file + "\n") + PatchOf(patches, file)
        else []
  }

  /** No file has two patches. */
  ghost predicate OnePatchEach(patches: Patches) {
    forall p, q :: p in patches && q in patches && p.0 == q.0 ==> p == q
  }

  lemma {:induction false} PatchOfMeans(patches: Patches, path: string)
    requires OnePatchEach(patches)
    ensures forall text :: (path, text) in patches ==> PatchOf(patches, path) == text
    ensures (forall p :: p in patches ==> p.0 != path) ==> PatchOf(patches, path) == []
  {
    if patches != [] {
      assert patches == [patches[0]] + patches[1..];
      PatchOfMeans(patches[1..], path);
    }
  }

  lemma ExcerptsSnoc(view: Key -> File, evidence: seq<Evidence>, at: seq<nat>, k: nat)
    requires k < |evidence| && forall i :: 0 <= i < |at| ==> at[i] < |evidence|
    ensures Excerpts(view, evidence, at + [k])
         == Excerpts(view, evidence, at) + [Excerpt(view, evidence[k], Base), Excerpt(view, evidence[k], Head)]
  {
    hide Excerpt;
    assert (at + [k])[..|at|] == at;
  }

  lemma ShownSnoc(patches: Patches, evidence: seq<Evidence>, at: seq<nat>, k: nat)
    requires OnePatchEach(patches) && k < |evidence| && forall i :: 0 <= i < |at| ==> at[i] < |evidence|
    ensures var (file, patch) := (evidence[k].file, PatchOf(patches, evidence[k].file));
            Shown(patches, evidence, at + [k])
            == Shown(patches, evidence, at) + if patch == [] then [] else Text("\nFile: " + file + "\n") + patch
  {
    hide Text, PatchOf, OnePatchEach;
    assert (at + [k])[..|at|] == at;
    PatchOfMeans(patches, evidence[k].file);
    PatchOfIsListed(patches, evidence[k].file);
  }

  lemma AroundMeans(view: Key -> File, e: Evidence)
    ensures ReadSpec(view, Around(e, Base)) == Excerpt(view, e, Base)
    ensures ReadSpec(view, Around(e, Head)) == Excerpt(view, e, Head)
  {
    hide ReadSpec;
  }

  lemma OneFileShown(view: Key -> File, patches: Patches, c: Candidate, evidence: seq<Evidence>, at: seq<nat>,
                     work: Candidate, k: nat)
    requires OnePatchEach(patches) && k < |evidence| && forall i :: 0 <= i < |at| ==> at[i] < |evidence|
    requires work == c.(sources := c.sources + Excerpts(view, evidence, at),
                        patch := c.patch + Shown(patches, evidence, at))
    ensures WithFile(view, patches, work, evidence[k])
            == c.(sources := c.sources + Excerpts(view, evidence, at + [k]),
                  patch := c.patch + Shown(patches, evidence, at + [k]))
  {
    hide ReadSpec, Text, PatchOf, Excerpt, Excerpts, Shown, Around, OnePatchEach;
    var (e, patch) := (evidence[k], PatchOf(patches, evidence[k].file));
    ExcerptsSnoc(view, evidence, at, k);
    ShownSnoc(patches, evidence, at, k);
    AroundMeans(view, e);
    AppendAssociates(c.sources, Excerpts(view, evidence, at), [Excerpt(view, e, Base), Excerpt(view, e, Head)]);
    AppendAssociates(c.patch, Shown(patches, evidence, at), Text("\nFile: " + e.file + "\n") + patch);
    assert c.patch + (Shown(patches, evidence, at) + []) == c.patch + Shown(patches, evidence, at);
  }

  lemma {:induction false} PatchOfIsListed(patches: Patches, path: string)
    ensures PatchOf(patches, path) != [] ==> (path, PatchOf(patches, path)) in patches
  {
    if patches != [] && patches[0].0 != path {
      PatchOfIsListed(patches[1..], path);
    }
  }

  ghost function Files(evidence: seq<Evidence>, at: seq<nat>): set<string>
    requires forall i :: 0 <= i < |at| ==> at[i] < |evidence|
  {
    set i | 0 <= i < |at| :: evidence[at[i]].file
  }

  /** A file that is known or has no valid path is passed over. */
  lemma PassedOver(evidence: seq<Evidence>, k: nat, at: seq<nat>)
    requires k < |evidence| && CitedSoFar(evidence, k, at)
    requires !ValidPath(evidence[k].file) || evidence[k].file in Files(evidence, at)
    ensures CitedSoFar(evidence, k + 1, at)
  {
    hide ValidPath;
  }

  lemma FilesSnoc(evidence: seq<Evidence>, at: seq<nat>, k: nat)
    requires k < |evidence| && forall i :: 0 <= i < |at| ==> at[i] < |evidence|
    ensures Files(evidence, at + [k]) == Files(evidence, at) + {evidence[k].file}
  {
    var more := at + [k];
    assert forall i :: 0 <= i < |at| ==> more[i] == at[i];
    assert more[|at|] == k;
  }

  /** Files that are not among the cited ones have not been mentioned. */
  lemma NotMentioned(evidence: seq<Evidence>, k: nat, at: seq<nat>)
    requires k < |evidence| && CitedSoFar(evidence, k, at) && ValidPath(evidence[k].file)
    requires evidence[k].file !in Files(evidence, at)
    ensures forall m :: 0 <= m < k ==> evidence[m].file != evidence[k].file
  {
    hide ValidPath;
  }

  lemma OneMoreCited(evidence: seq<Evidence>, k: nat, at: seq<nat>)
    requires k < |evidence| && CitedSoFar(evidence, k, at) && ValidPath(evidence[k].file)
    requires forall m :: 0 <= m < k ==> evidence[m].file != evidence[k].file
    ensures CitedSoFar(evidence, k + 1, at + [k])
  {
    hide ValidPath;
    var more := at + [k];
    forall i | 0 <= i < |more|
      ensures more[i] < k + 1 && ValidPath(evidence[more[i]].file)
      ensures forall m :: 0 <= m < more[i] ==> evidence[m].file != evidence[more[i]].file
    {
      if i < |at| { assert more[i] == at[i]; }
    }
    forall m | 0 <= m < k + 1 && ValidPath(evidence[m].file)
      ensures exists i :: 0 <= i < |more| && evidence[more[i]].file == evidence[m].file
    {
      if m == k {
        assert more[|at|] == k;
      } else {
        var i :| 0 <= i < |at| && evidence[at[i]].file == evidence[m].file;
        assert more[i] == at[i];
      }
    }
  }

  lemma {:induction false} EvidenceIsRead(view: Key -> File, patches: Patches, c: Candidate, evidence: seq<Evidence>,
                                          k: nat, before: seq<nat>, work: Candidate)
    returns (at: seq<nat>)
    requires OnePatchEach(patches) && k <= |evidence| && |before| <= 4 && CitedSoFar(evidence, k, before)
    requires |before| == 4 ==> before[3] == k - 1
    requires |Files(evidence, before)| == |before|
    requires work == c.(sources := c.sources + Excerpts(view, evidence, before),
                        patch := c.patch + Shown(patches, evidence, before))
    ensures FirstCited(evidence, at) && forall i :: 0 <= i < |at| ==> at[i] < |evidence|
    ensures WithEvidence(view, patches, work, evidence[k..], Files(evidence, before))
            == c.(sources := c.sources + Excerpts(view, evidence, at), patch := c.patch + Shown(patches, evidence, at))
    decreases |evidence| - k
  {
    hide WithFile, Excerpts, Shown, ValidPath, OnePatchEach, Files, CitedSoFar;
    at := before;
    CitedAreThere(evidence, k, before);
    if k < |evidence| && |before| < MAX_PATHS {
      var (rest, e) := (evidence[k..], evidence[k]);
      assert rest[0] == e && rest[1..] == evidence[k + 1..];
      if !ValidPath(e.file) || e.file in Files(evidence, before) {
        PassedOver(evidence, k, before);
        at := EvidenceIsRead(view, patches, c, evidence, k + 1, before, work);
      } else {
        NotMentioned(evidence, k, before);
        OneMoreCited(evidence, k, before);
        FilesSnoc(evidence, before, k);
        OneFileShown(view, patches, c, evidence, before, work, k);
        at := EvidenceIsRead(view, patches, c, evidence, k + 1, before + [k],
                             WithFile(view, patches, work, e));
      }
    }
  }

  lemma CitedAreThere(evidence: seq<Evidence>, k: nat, at: seq<nat>)
    requires CitedSoFar(evidence, k, at)
    ensures forall i :: 0 <= i < |at| ==> at[i] < k <= |evidence|
  {
  }

  // ---- policies and leads ----

  /** The first 120 lines of a policy file at the head, where there is one. */
  ghost function Policy(view: Key -> File, name: string): seq<Source> {
    var s := ReadSpec(view, ReadRequest(name, Head, 1, 120));
    if s.unavailable == "" then [s] else []
  }

  /** Names separated by a comma and a blank. */
  lemma {:induction false} ListingMeans(patches: Patches, name: string, text: Content)
    ensures Listing([]) == ""
    ensures Listing(patches + [(name, text)]) == if patches == [] then name else Listing(patches) + ", " + name
  {
    var all := patches + [(name, text)];
    if patches != [] {
      ListingMeans(patches[1..], name, text);
      assert all[1..] == patches[1..] + [(name, text)];
    }
  }

  /**
   * The sources of a prepared candidate are the ones it came with, both sides of each of the first four valid cited
   * files, and the two policy files; its patch shows what was changed in the cited files and names the first hundred
   * changed files.
   */
  lemma PreparedShows(view: Key -> File, patches: Patches, c: Candidate) returns (at: seq<nat>)
    requires OnePatchEach(patches)
    ensures FirstCited(c.finding.evidence, at)
    ensures Prepared(view, patches, c)
            == c.(sources := c.sources + Excerpts(view, c.finding.evidence, at)
                             + (Policy(view, "AGENTS.md") + Policy(view, "CLAUDE.md")),
                  patch := c.patch + Shown(patches, c.finding.evidence, at)
                           + Text("\nOther changed-file leads (read before relying on them): "
                                  + Listing(if |patches| > 100 then patches[..100] else patches)))
  {
    hide WithFile, WithEvidence, Excerpts, Shown, ValidPath, OnePatchEach, ReadSpec, Listing;
    var evidence := c.finding.evidence;
    assert evidence[0..] == evidence;
    assert c.sources + [] == c.sources && c.patch + [] == c.patch;
    NothingCited(view, patches, evidence);
    at := EvidenceIsRead(view, patches, c, evidence, 0, [], c);
    var read := WithEvidence(view, patches, c, evidence, {});
    PoliciesRead(view, read);
    AppendAssociates(c.sources, Excerpts(view, evidence, at), Policy(view, "AGENTS.md") + Policy(view, "CLAUDE.md"));
  }

  lemma NothingCited(view: Key -> File, patches: Patches, evidence: seq<Evidence>)
    ensures Excerpts(view, evidence, []) == [] && Shown(patches, evidence, []) == []
  {
  }

  lemma PoliciesRead(view: Key -> File, c: Candidate)
    ensures WithPolicies(view, c, POLICIES)
            == c.(sources := c.sources + (Policy(view, "AGENTS.md") + Policy(view, "CLAUDE.md")))
  {
    hide ReadSpec;
    assert POLICIES[1..] == ["CLAUDE.md"] && ["CLAUDE.md"][1..] == [];
  }

  // ---- the candidates of a verification ----

  /** What a candidate starts from: the finding of its run, and nothing read for it yet. */
  function Unread(setup: Setup, run: ReviewRun, i: nat, j: nat): Candidate
    requires j < |RunFindings(run)|
  {
    Candidate("run-" + Decimal(i) + "-finding-" + Decimal(j), setup.allFiles, run.changedRegions, RunFindings(run)[j],
              [], [], [], "")
  }

  /**
   * Each finding has a candidate that is prepared from the collector, or that says that there is no context; the
   * snapshot names the pinned revisions where there is a collector.
   */
  lemma OpenedShows(setup: Setup, runs: seq<ReviewRun>, i: nat, j: nat)
    requires i < |runs| && j < |RunFindings(runs[i])|
    ensures var (s, k, unread) := (Opened(setup, runs), Offset(runs, i) + j, Unread(setup, runs[i], i, j));
            && k < |s.candidates|
            && s.candidates[k] == (
                 match setup.view
                 case Some(view) =>
                   if !setup.contextFailed then Prepared(view, setup.patches, unread)
                   else unread.(contextError := "Pinned review context unavailable.")
                 case None => unread.(contextError := "Pinned review context unavailable."))
            && (setup.view.Some? ==> s.base == setup.base && s.head == setup.head)
            && (setup.view.None? ==> s.base == s.head == "")
  {
    hide Prepared, RunFindings, Decimal;
    SlotOf(runs, |runs|, i, j);
  }
}
