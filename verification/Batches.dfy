/** Packing routed groups into bounded batches (batchCompositeReviewGroups, cmd/composite_run.go). */
module Batches {
  import opened Prelude
  import opened RegionGroups
  import opened Review

  datatype Limits = Limits(maxLines: int, maxGroups: int) {
    /** The limit after the guard that raises it to at least one line. */
    function Lines(): int {
      if maxLines < 1 then 1 else maxLines
    }
  }

  function GroupLines(groups: seq<Group>): nat {
    LineCount(AllRegions(groups))
  }

  lemma GroupLinesConcat(a: seq<Group>, b: seq<Group>)
    ensures GroupLines(a + b) == GroupLines(a) + GroupLines(b)
  {
    AllRegionsConcat(a, b);
    LineCountConcat(AllRegions(a), AllRegions(b));
  }

  lemma GroupLinesOne(g: Group)
    ensures GroupLines([g]) == LineCount(g.regions)
  {
    assert AllRegions([g]) == g.regions + AllRegions([]) == g.regions;
  }

  /** A batch the limits allow: a single group whatever its size, or groups within both limits. */
  predicate Allowed(batch: seq<Group>, lim: Limits) {
    |batch| <= 1 || (GroupLines(batch) <= lim.Lines() && (lim.maxGroups <= 0 || |batch| <= lim.maxGroups))
  }

  // ---- the greedy cut ----

  /** Whether `group` no longer fits behind `current`. */
  predicate Overflows(current: seq<Group>, group: Group, lim: Limits) {
    |current| > 0
    && (GroupLines(current) + LineCount(group.regions) > lim.Lines()
        || (lim.maxGroups > 0 && |current| >= lim.maxGroups))
  }

  lemma FittingIsAllowed(current: seq<Group>, group: Group, lim: Limits)
    requires Allowed(current, lim)
    ensures Allowed(current + [group], lim) <==> !Overflows(current, group, lim)
  {
    GroupLinesConcat(current, [group]);
    GroupLinesOne(group);
  }

  predicate NoneEmpty(cut: seq<seq<Group>>) {
    forall i :: 0 <= i < |cut| ==> cut[i] != []
  }

  predicate AllAllowed(cut: seq<seq<Group>>, lim: Limits) {
    forall i :: 0 <= i < |cut| ==> Allowed(cut[i], lim)
  }

  /** The batches still to come when `current` is open and `rest` has not been looked at. */
  function Drain(current: seq<Group>, rest: seq<Group>, lim: Limits): (cut: seq<seq<Group>>)
    requires Allowed(current, lim)
    ensures Flatten(cut) == current + rest
    ensures NoneEmpty(cut) && AllAllowed(cut, lim)
    decreases |rest|
  {
    if rest == [] then if current == [] then [] else [current]
    else
      FittingIsAllowed(current, rest[0], lim);
      assert current + rest == current + ([rest[0]] + rest[1..]) == (current + [rest[0]]) + rest[1..];
      if Overflows(current, rest[0], lim) then [current] + Drain([rest[0]], rest[1..], lim)
      else Drain(current + [rest[0]], rest[1..], lim)
  }

  lemma DrainStep(current: seq<Group>, rest: seq<Group>, lim: Limits)
    requires Allowed(current, lim) && rest != []
    ensures Overflows(current, rest[0], lim) ==>
              Drain(current, rest, lim) == [current] + Drain([rest[0]], rest[1..], lim)
    ensures !Overflows(current, rest[0], lim) ==>
              Allowed(current + [rest[0]], lim)
                  && Drain(current, rest, lim) == Drain(current + [rest[0]], rest[1..], lim)
  {
    FittingIsAllowed(current, rest[0], lim);
  }

  function Cut(groups: seq<Group>, lim: Limits): (cut: seq<seq<Group>>)
    ensures NoneEmpty(cut)
  {
    Drain([], groups, lim)
  }

  // ---- limits in lines and groups ----

  /** A region counts its lines, and at least one. */
  lemma LinesOf(r: Region)
    ensures LineCount([]) == 0 && LineCount([r]) == if r.start < r.end then 1 + (r.end - r.start) else 1
  {
    assert [r][1..] == [];
  }

  lemma {:induction false} DrainFlushesFull(current: seq<Group>, rest: seq<Group>, lim: Limits, k: nat)
    requires Allowed(current, lim) && k + 1 < |Drain(current, rest, lim)|
    ensures var cut := Drain(current, rest, lim);
            cut[k + 1] != [] && Overflows(cut[k], cut[k + 1][0], lim)
    decreases |rest|
  {
    if rest != [] {
      DrainStep(current, rest, lim);
      if !Overflows(current, rest[0], lim) {
        DrainFlushesFull(current + [rest[0]], rest[1..], lim, k);
      } else if k > 0 {
        DrainFlushesFull([rest[0]], rest[1..], lim, k - 1);
      } else {
        DrainBegins([rest[0]], rest[1..], lim);
      }
    }
  }

  /** The first batch begins with what was open. */
  lemma {:induction false} DrainBegins(current: seq<Group>, rest: seq<Group>, lim: Limits)
    requires current != [] && Allowed(current, lim)
    ensures Drain(current, rest, lim) != [] && current <= Drain(current, rest, lim)[0]
    decreases |rest|
  {
    if rest != [] {
      DrainStep(current, rest, lim);
      if !Overflows(current, rest[0], lim) {
        DrainBegins(current + [rest[0]], rest[1..], lim);
      }
    }
  }

  /**
   * A batch of several groups has no more lines than the limit, or than one, and no more groups than the limit if there
   * is one; and a batch ends only where the next group would break a limit.
   */
  lemma BatchesKeepTheLimits(groups: seq<Group>, lim: Limits, k: nat)
    requires k < |Cut(groups, lim)|
    ensures var batch := Cut(groups, lim)[k];
            |batch| > 1 ==>
              && (LineCount(AllRegions(batch)) <= lim.maxLines || LineCount(AllRegions(batch)) <= 1)
              && (lim.maxGroups >= 1 ==> |batch| <= lim.maxGroups)
    ensures k + 1 < |Cut(groups, lim)| ==>
              var (batch, next) := (Cut(groups, lim)[k], Cut(groups, lim)[k + 1]);
              && next != []
              && ((LineCount(AllRegions(batch + [next[0]])) > lim.maxLines
                   && LineCount(AllRegions(batch + [next[0]])) > 1)
                  || (lim.maxGroups >= 1 && |batch| + 1 > lim.maxGroups))
  {
    hide Drain, LineCount, AllRegions;
    assert Allowed([], lim);
    assert AllAllowed(Cut(groups, lim), lim);
    if k + 1 < |Cut(groups, lim)| {
      DrainFlushesFull([], groups, lim, k);
      GroupLinesConcat(Cut(groups, lim)[k], [Cut(groups, lim)[k + 1][0]]);
      GroupLinesOne(Cut(groups, lim)[k + 1][0]);
    }
  }

  // ---- no cut needs fewer batches ----

  lemma AllowedHereditary(before: seq<Group>, middle: seq<Group>, after: seq<Group>, lim: Limits)
    requires Allowed(before + middle + after, lim)
    ensures Allowed(middle, lim)
  {
    GroupLinesConcat(before + middle, after);
    GroupLinesConcat(before, middle);
  }

  lemma OverreachIsNotAllowed(ahead: seq<Group>, current: seq<Group>, g: Group, beyond: seq<Group>, lim: Limits)
    requires Allowed(current, lim) && Overflows(current, g, lim)
    ensures !Allowed(ahead + (current + [g]) + beyond, lim)
  {
    FittingIsAllowed(current, g, lim);
    if Allowed(ahead + (current + [g]) + beyond, lim) {
      AllowedHereditary(ahead, current + [g], beyond, lim);
    }
  }

  /** Where greedy had to flush, an allowed piece that began no later must have ended too. */
  lemma FirstPieceEndsEarlier(ahead: seq<Group>, current: seq<Group>, g: Group, rest: seq<Group>, first: seq<Group>,
                              tail: seq<Group>, lim: Limits)
    requires Allowed(current, lim) && Overflows(current, g, lim) && Allowed(first, lim)
    requires first + tail == ahead + current + [g] + rest
    ensures |first| <= |ahead + current| && tail == (ahead + current)[|first|..] + [g] + rest
  {
    var taken := ahead + current;
    CompareCuts(first, tail, taken, g, rest);
    if |first| > |taken| {
      assert first == ahead + (current + [g]) + first[|taken| + 1..];
      OverreachIsNotAllowed(ahead, current, g, first[|taken| + 1..], lim);
      assert false;
    }
  }

  /** The open batch began no earlier than `other`, so it is never behind it. */
  lemma {:induction false} DrainStaysAhead(ahead: seq<Group>, current: seq<Group>, rest: seq<Group>,
                                           other: seq<seq<Group>>, lim: Limits)
    requires current != [] && Allowed(current, lim)
    requires Flatten(other) == ahead + current + rest
    requires AllAllowed(other, lim)
    ensures |Drain(current, rest, lim)| <= |other|
    decreases |rest|
  {
    assert other != [];
    if rest != [] {
      var g, rest' := rest[0], rest[1..];
      FittingIsAllowed(current, g, lim);
      var taken := ahead + current;
      if !Overflows(current, g, lim) {
        assert ahead + current + rest == ahead + (current + [g]) + rest';
        DrainStaysAhead(ahead, current + [g], rest', other, lim);
      } else {
        assert ahead + current + rest == ahead + current + [g] + rest';
        FirstPieceEndsEarlier(ahead, current, g, rest', other[0], Flatten(other[1..]), lim);
        DrainStaysAhead(taken[|other[0]|..], [g], rest', other[1..], lim);
      }
    }
  }

  /** Greedy batching is lossless, keeps the limits, and uses as few batches as any allowed cut. */
  lemma {:induction false} CutIsOptimal(groups: seq<Group>, lim: Limits, other: seq<seq<Group>>)
    requires Flatten(other) == groups && AllAllowed(other, lim)
    ensures Flatten(Cut(groups, lim)) == groups
    ensures NoneEmpty(Cut(groups, lim)) && AllAllowed(Cut(groups, lim), lim)
    ensures |Cut(groups, lim)| <= |other|
  {
    if groups != [] {
      assert groups == [] + [groups[0]] + groups[1..] && [] + [groups[0]] == [groups[0]];
      DrainStaysAhead([], [groups[0]], groups[1..], other, lim);
    }
  }

  // ---- merging one batch ----

  /** Files in order, each path once. */
  function FirstByPath(files: seq<ChangedFile>): seq<ChangedFile> {
    if files == [] then []
    else
      var last := |files| - 1;
      var before := FirstByPath(files[..last]);
      if files[last].path in Paths(before) then before else before + [files[last]]
  }

  lemma {:induction false} FirstByPathKeeps(files: seq<ChangedFile>)
    ensures forall f :: f in FirstByPath(files) ==> f in files
    ensures Paths(FirstByPath(files)) == Paths(files)
  {
    if files != [] {
      var (before, f) := (files[..|files| - 1], files[|files| - 1]);
      FirstByPathKeeps(before);
      PathsSnoc(FirstByPath(before), f);
      forall g | g in FirstByPath(files) ensures g in files {
        if g in FirstByPath(before) { assert g in before; }
      }
    }
  }

  lemma FirstByPathSnoc(files: seq<ChangedFile>, f: ChangedFile)
    ensures FirstByPath(files + [f])
         == if f.path in Paths(FirstByPath(files)) then FirstByPath(files) else FirstByPath(files) + [f]
  {
    assert (files + [f])[..|files|] == files;
  }

  function AllFiles(groups: seq<Group>): seq<ChangedFile> {
    if groups == [] then [] else AllFiles(groups[..|groups| - 1]) + groups[|groups| - 1].context.files
  }

  lemma {:induction false} AllFilesMembers(groups: seq<Group>)
    ensures forall f :: f in AllFiles(groups) <==> exists g :: g in groups && f in g.context.files
  {
    if groups != [] {
      var last := |groups| - 1;
      AllFilesMembers(groups[..last]);
      assert groups == groups[..last] + [groups[last]];
    }
  }

  function MergeSpec(groups: seq<Group>): Group
    requires groups != []
  {
    Group(Merged(|groups|), groups[0].context.(files := FirstByPath(AllFiles(groups))), AllRegions(groups))
  }

  method AddUnseen(files: seq<ChangedFile>, seenFiles: set<string>, f: ChangedFile, ghost read: seq<ChangedFile>)
    returns (files': seq<ChangedFile>, seenFiles': set<string>)
    requires files == FirstByPath(read) && seenFiles == Paths(files)
    ensures files' == FirstByPath(read + [f]) && seenFiles' == Paths(files')
  {
    FirstByPathSnoc(read, f);
    if f.path in seenFiles {
      return files, seenFiles;
    }
    PathsSnoc(files, f);
    return files + [f], seenFiles + {f.path};
  }

  method AddAllUnseen(files: seq<ChangedFile>, seenFiles: set<string>, incoming: seq<ChangedFile>,
                      ghost before: seq<ChangedFile>)
    returns (files': seq<ChangedFile>, seenFiles': set<string>)
    requires files == FirstByPath(before) && seenFiles == Paths(files)
    ensures files' == FirstByPath(before + incoming) && seenFiles' == Paths(files')
  {
    files', seenFiles' := files, seenFiles;
    ghost var read := before;
    for j := 0 to |incoming|
      invariant read == before + incoming[..j]
      invariant files' == FirstByPath(read) && seenFiles' == Paths(files')
    {
      files', seenFiles' := AddUnseen(files', seenFiles', incoming[j], read);
      PrefixSnoc(before, incoming, j);
      read := read + [incoming[j]];
    }
    assert incoming[..|incoming|] == incoming;
  }

  lemma MergeStep(groups: seq<Group>, i: nat)
    requires i < |groups|
    ensures AllFiles(groups[..i + 1]) == AllFiles(groups[..i]) + groups[i].context.files
    ensures AllRegions(groups[..i + 1]) == AllRegions(groups[..i]) + groups[i].regions
  {
    assert groups[..i + 1][..i] == groups[..i] && groups[..i + 1] == groups[..i] + [groups[i]];
    AllRegionsConcat(groups[..i], [groups[i]]);
    assert AllRegions([groups[i]]) == groups[i].regions + AllRegions([]);
  }

  method MergeCompositeReviewGroups(groups: seq<Group>) returns (merged: Group)
    requires groups != []
    ensures merged == MergeSpec(groups)
  {
    var files: seq<ChangedFile> := [];
    var regions: seq<Region> := [];
    var seenFiles: set<string> := {};
    for i := 0 to |groups|
      invariant files == FirstByPath(AllFiles(groups[..i])) && seenFiles == Paths(files)
      invariant regions == AllRegions(groups[..i])
    {
      MergeStep(groups, i);
      files, seenFiles := AddAllUnseen(files, seenFiles, groups[i].context.files, AllFiles(groups[..i]));
      regions := regions + groups[i].regions;
    }
    assert groups[..|groups|] == groups;
    merged := Group(Merged(|groups|), groups[0].context.(files := files), regions);
  }

  // ---- the batching loop ----

  function MergeEach(cut: seq<seq<Group>>): (batches: seq<Group>)
    requires NoneEmpty(cut)
    ensures |batches| == |cut|
  {
    if cut == [] then [] else MergeEach(cut[..|cut| - 1]) + [MergeSpec(cut[|cut| - 1])]
  }

  function BatchSpec(groups: seq<Group>, lim: Limits): seq<Group> {
    MergeEach(Cut(groups, lim))
  }

  lemma NothingBatched(groups: seq<Group>, lim: Limits)
    ensures Allowed([], lim) && GroupLines([]) == 0 && Drain([], groups, lim) == Cut(groups, lim)
    ensures NoneEmpty([]) && MergeEach([]) == []
  {
  }

  lemma LastBatch(current: seq<Group>, lim: Limits)
    requires Allowed(current, lim)
    ensures Drain(current, [], lim) == if current == [] then [] else [current]
  {
  }

  method BatchCompositeReviewGroups(groups: seq<Group>, lim: Limits) returns (batches: seq<Group>)
    ensures batches == BatchSpec(groups, lim)
  {
    hide Allowed, Drain, GroupLines, MergeEach, Cut, NoneEmpty;
    NothingBatched(groups, lim);
    if |groups| == 0 {
      LastBatch([], lim);
      return [];
    }
    batches := [];
    var current: seq<Group> := [];
    var currentLines := 0;
    ghost var done: seq<seq<Group>> := [];
    ghost var rest := groups;
    for i := 0 to |groups|
      invariant rest == groups[i..] && (current == [] <==> i == 0)
      invariant Allowed(current, lim) && done + Drain(current, rest, lim) == Cut(groups, lim)
      invariant currentLines == GroupLines(current)
      invariant NoneEmpty(done) && batches == MergeEach(done)
    {
      batches, current, currentLines, done := Take(batches, current, currentLines, groups[i], lim, done, rest);
      rest := rest[1..];
    }
    LastBatch(current, lim);
    batches, done := Flush(batches, current, done);
  }

  /** The loop body: flush first when `group` does not fit, then open or extend the current batch. */
  method Take(batches: seq<Group>, current: seq<Group>, currentLines: int, group: Group, lim: Limits,
              ghost done: seq<seq<Group>>, ghost rest: seq<Group>)
    returns (batches': seq<Group>, current': seq<Group>, currentLines': int, ghost done': seq<seq<Group>>)
    requires rest != [] && rest[0] == group && Allowed(current, lim) && currentLines == GroupLines(current)
    requires NoneEmpty(done) && batches == MergeEach(done)
    ensures current' != [] && Allowed(current', lim) && currentLines' == GroupLines(current')
    ensures NoneEmpty(done') && batches' == MergeEach(done')
    ensures done' + Drain(current', rest[1..], lim) == done + Drain(current, rest, lim)
  {
    var maxChangedLines := lim.maxLines;
    if maxChangedLines < 1 {
      maxChangedLines := 1;
    }
    batches', current', currentLines', done' := batches, current, currentLines, done;
    var lines := LineCount(group.regions);
    DrainStep(current, rest, lim);
    if |current| > 0 && (currentLines + lines > maxChangedLines || (lim.maxGroups > 0 && |current| >= lim.maxGroups)) {
      batches', done' := Flush(batches, current, done);
      current', currentLines' := [], 0;
      assert [] + [group] == [group];
      AppendAssociates(done, [current], Drain([group], rest[1..], lim));
    }
    GroupLinesConcat(current', [group]);
    GroupLinesOne(group);
    current', currentLines' := current' + [group], currentLines' + lines;
  }

  method Flush(batches: seq<Group>, current: seq<Group>, ghost done: seq<seq<Group>>)
    returns (batches': seq<Group>, ghost done': seq<seq<Group>>)
    requires current != [] && NoneEmpty(done) && batches == MergeEach(done)
    ensures done' == done + [current]
    ensures NoneEmpty(done + [current]) && batches' == MergeEach(done + [current])
  {
    var merged := MergeCompositeReviewGroups(current);
    batches', done' := batches + [merged], done + [current];
    assert done'[..|done|] == done;
  }
}
