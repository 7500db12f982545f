/** The job list of a composed review and its accounting (routedComposedRunJobs, cmd/composite_run.go). */
module Jobs {
  import opened Prelude
  import opened RegionGroups
  import opened Review
  import opened Scope
  import opened Batches
  import opened Routing

  datatype JobScope = FullChange | Batch(n: nat)

  /** `focused` jobs carry their regions as the review assignment. */
  datatype Job = Job(ref: string, scope: JobScope, context: Context, focused: bool, regions: seq<Region>,
                     groups: nat, regionCount: nat, lines: nat)

  datatype Plan = Plan(full: Context, groups: seq<Group>, manifests: map<string, Manifest>)

  datatype Options = Options(limits: Limits, includeRootBatches: bool, broadFullOnly: bool, fullReviewers: seq<string>)

  datatype Stats = Stats(candidates: int, routed: nat, skipped: nat, batches: nat)

  // ---- which reviewers see the whole change ----

  predicate Selective(m: Manifest) {
    var patterns := m.detection.files + m.filesChanged;
    patterns != [] && forall p :: p in patterns ==> TrimSpace(p) !in {"*", "**", "**/*"}
  }

  predicate ListedReviewer(reviewers: seq<string>, ref: string) {
    exists r :: r in reviewers && TrimSpace(r) == TrimSpace(ref)
  }

  /** The reviewer gets one job over the full change instead of batches. */
  predicate FullOnly(root: string, ref: string, plan: Plan, opts: Options) {
    ref != root
    && ((opts.broadFullOnly && ref in plan.manifests && !Selective(plan.manifests[ref]))
        || ListedReviewer(opts.fullReviewers, ref))
  }

  // ---- the jobs of one reviewer ----

  ghost function Route(plan: Plan, ref: string, group: Group): Option<Group> {
    if ref in plan.manifests then RouteSpec(plan.manifests[ref], group) else Some(group)
  }

  /** The first `n` planned groups as this reviewer sees them, without those that do not apply. */
  ghost function RoutedGroups(plan: Plan, ref: string, n: nat): seq<Group>
    requires n <= |plan.groups|
  {
    if n == 0 then []
    else
      RoutedGroups(plan, ref, n - 1) + match Route(plan, ref, plan.groups[n - 1]) case Some(g) => [g] case None => []
  }

  /** batchGroupCount: the count a merged batch remembers, else one. */
  function GroupCount(group: Group): nat {
    if group.id.Merged? && group.id.groups > 0 then group.id.groups else 1
  }

  function BatchJob(ref: string, batch: Group, n: nat): Job {
    Job(ref, Batch(n), batch.context, true, batch.regions, GroupCount(batch), |batch.regions|, LineCount(batch.regions))
  }

  function BatchJobs(ref: string, batches: seq<Group>): (jobs: seq<Job>)
    ensures |jobs| == |batches|
  {
    if batches == [] then []
    else BatchJobs(ref, batches[..|batches| - 1]) + [BatchJob(ref, batches[|batches| - 1], |batches|)]
  }

  function FullJob(ref: string, plan: Plan): Job {
    var regions := AllRegions(plan.groups);
    Job(ref, FullChange, plan.full, false, regions, |plan.groups|, |regions|, LineCount(regions))
  }

  ghost function ReviewerJobs(root: string, ref: string, plan: Plan, opts: Options): seq<Job> {
    if !opts.includeRootBatches && ref == root then []
    else if FullOnly(root, ref, plan, opts) then [FullJob(ref, plan)]
    else BatchJobs(ref, BatchSpec(RoutedGroups(plan, ref, |plan.groups|), opts.limits))
  }

  ghost function AllJobs(root: string, refs: seq<string>, plan: Plan, opts: Options): seq<Job> {
    if refs == [] then []
    else AllJobs(root, refs[..|refs| - 1], plan, opts) + ReviewerJobs(root, refs[|refs| - 1], plan, opts)
  }

  // ---- what the jobs carry ----

  function JobRegions(jobs: seq<Job>): seq<Region> {
    if jobs == [] then [] else JobRegions(jobs[..|jobs| - 1]) + jobs[|jobs| - 1].regions
  }

  function JobGroups(jobs: seq<Job>): nat {
    if jobs == [] then 0 else JobGroups(jobs[..|jobs| - 1]) + jobs[|jobs| - 1].groups
  }

  function JobLines(jobs: seq<Job>): nat {
    if jobs == [] then 0 else JobLines(jobs[..|jobs| - 1]) + jobs[|jobs| - 1].lines
  }

  lemma {:induction false} JobGroupsConcat(a: seq<Job>, b: seq<Job>)
    ensures JobGroups(a + b) == JobGroups(a) + JobGroups(b)
  {
    if b == [] {
      assert a + b == a;
    } else {
      var last := |b| - 1;
      JobGroupsConcat(a, b[..last]);
      assert (a + b)[..|a| + last] == a + b[..last];
    }
  }

  lemma MergedTotals(batch: seq<Group>)
    requires batch != []
    ensures MergeSpec(batch).regions == AllRegions(batch) && GroupCount(MergeSpec(batch)) == |batch|
  {
    hide AllRegions;
  }

  /** What the jobs carry grows by what the last merged batch carries. */
  lemma LastBatchJob(ref: string, cut: seq<seq<Group>>)
    requires NoneEmpty(cut) && cut != []
    ensures var last := |cut| - 1;
            var batch := MergeSpec(cut[last]);
            var before, jobs := BatchJobs(ref, MergeEach(cut[..last])), BatchJobs(ref, MergeEach(cut));
            && JobRegions(jobs) == JobRegions(before) + batch.regions
            && JobGroups(jobs) == JobGroups(before) + GroupCount(batch)
            && JobLines(jobs) == JobLines(before) + LineCount(batch.regions)
  {
    hide MergeSpec, GroupCount, LineCount;
    var last := |cut| - 1;
    var batches := MergeEach(cut);
    assert batches[..last] == MergeEach(cut[..last]) && batches[last] == MergeSpec(cut[last]);
    var jobs := BatchJobs(ref, batches);
    assert jobs[..last] == BatchJobs(ref, MergeEach(cut[..last]));
  }

  /** The groups of a cut, their regions and their lines grow by those of the last piece. */
  lemma LastPieceTotals(cut: seq<seq<Group>>)
    requires cut != []
    ensures var before, piece := cut[..|cut| - 1], cut[|cut| - 1];
            && Flatten(cut) == Flatten(before) + piece
            && AllRegions(Flatten(cut)) == AllRegions(Flatten(before)) + AllRegions(piece)
            && LineCount(AllRegions(Flatten(cut)))
            == LineCount(AllRegions(Flatten(before))) + LineCount(AllRegions(piece))
  {
    hide *;
    var before, piece := cut[..|cut| - 1], cut[|cut| - 1];
    assert cut == before + [piece];
    FlattenSnoc(before, piece);
    AllRegionsConcat(Flatten(before), piece);
    LineCountConcat(AllRegions(Flatten(before)), AllRegions(piece));
  }

  lemma {:induction false} BatchJobTotals(ref: string, cut: seq<seq<Group>>)
    requires NoneEmpty(cut)
    ensures JobRegions(BatchJobs(ref, MergeEach(cut))) == AllRegions(Flatten(cut))
    ensures JobGroups(BatchJobs(ref, MergeEach(cut))) == |Flatten(cut)|
    ensures JobLines(BatchJobs(ref, MergeEach(cut))) == LineCount(AllRegions(Flatten(cut)))
  {
    if cut != [] {
      hide JobRegions, JobGroups, JobLines, BatchJobs, MergeEach;
      hide MergeSpec, GroupCount, Flatten, AllRegions, LineCount;
      var last := |cut| - 1;
      BatchJobTotals(ref, cut[..last]);
      LastBatchJob(ref, cut);
      MergedTotals(cut[last]);
      LastPieceTotals(cut);
    }
  }

  /** The batches of one reviewer carry exactly the regions routing kept, in order, and all their groups and lines. */
  lemma ReviewerJobsConserve(root: string, ref: string, plan: Plan, opts: Options)
    requires (opts.includeRootBatches || ref != root) && !FullOnly(root, ref, plan, opts)
    ensures var routed, jobs := RoutedGroups(plan, ref, |plan.groups|), ReviewerJobs(root, ref, plan, opts);
            && JobRegions(jobs) == AllRegions(routed)
            && JobGroups(jobs) == |routed|
            && JobLines(jobs) == LineCount(AllRegions(routed))
  {
    var routed := RoutedGroups(plan, ref, |plan.groups|);
    BatchJobTotals(ref, Cut(routed, opts.limits));
  }

  // ---- the planner ----

  method RouteOne(plan: Plan, ref: string, group: Group) returns (scoped: Option<Group>)
    ensures scoped == Route(plan, ref, group)
  {
    scoped := Some(group);
    if ref in plan.manifests {
      scoped := RouteCompositeReviewGroup(plan.manifests[ref], group);
    }
  }

  lemma RoutedStep(plan: Plan, ref: string, n: nat)
    requires n < |plan.groups|
    ensures var next := Route(plan, ref, plan.groups[n]);
            RoutedGroups(plan, ref, n + 1) == RoutedGroups(plan, ref, n) + if next.Some? then [next.value] else []
  {
  }

  lemma NothingRoutedYet(plan: Plan, ref: string)
    ensures RoutedGroups(plan, ref, 0) == []
  {
  }

  method RouteAll(plan: Plan, ref: string) returns (routed: seq<Group>, skipped: nat)
    ensures routed == RoutedGroups(plan, ref, |plan.groups|) && |routed| + skipped == |plan.groups|
  {
    hide Route, RoutedGroups;
    NothingRoutedYet(plan, ref);
    routed, skipped := [], 0;
    for i := 0 to |plan.groups|
      invariant routed == RoutedGroups(plan, ref, i) && |routed| + skipped == i
    {
      var scoped := RouteOne(plan, ref, plan.groups[i]);
      RoutedStep(plan, ref, i);
      if scoped.None? {
        skipped := skipped + 1;
        continue;
      }
      routed := routed + [scoped.value];
    }
  }

  method JobsForBatches(ref: string, batches: seq<Group>) returns (jobs: seq<Job>)
    ensures jobs == BatchJobs(ref, batches)
  {
    jobs := [];
    for i := 0 to |batches|
      invariant jobs == BatchJobs(ref, batches[..i])
    {
      assert batches[..i + 1][..i] == batches[..i];
      jobs := jobs + [BatchJob(ref, batches[i], i + 1)];
    }
    assert batches[..|batches|] == batches;
  }

  method FullChangeJob(ref: string, plan: Plan) returns (job: Job)
    ensures job == FullJob(ref, plan)
  {
    var regions, lines := 0, 0;
    for i := 0 to |plan.groups|
      invariant regions == |AllRegions(plan.groups[..i])| && lines == LineCount(AllRegions(plan.groups[..i]))
    {
      var group := plan.groups[i];
      assert plan.groups[..i + 1] == plan.groups[..i] + [group];
      AllRegionsConcat(plan.groups[..i], [group]);
      assert AllRegions([group]) == group.regions + AllRegions([]) == group.regions;
      LineCountConcat(AllRegions(plan.groups[..i]), group.regions);
      regions := regions + |group.regions|;
      lines := lines + LineCount(group.regions);
    }
    assert plan.groups[..|plan.groups|] == plan.groups;
    job := Job(ref, FullChange, plan.full, false, AllRegions(plan.groups), |plan.groups|, regions, lines);
  }

  function RootJob(root: string, plan: Plan): Job {
    Job(root, FullChange, plan.full, false, AllRegions(plan.groups), 0, 0, 0)
  }

  /** The assignments that are routed or skipped when every listed reviewer faces `n` groups. */
  function Assignments(root: string, refs: seq<string>, opts: Options, n: nat): nat {
    if refs == [] then 0
    else
      Assignments(root, refs[..|refs| - 1], opts, n)
      + if !opts.includeRootBatches && refs[|refs| - 1] == root then 0 else n
  }

  /** The jobs one listed reviewer adds, and how many group assignments it routes and skips. */
  method JobsForReviewer(root: string, ref: string, plan: Plan, opts: Options)
    returns (jobs: seq<Job>, routed: nat, skipped: nat)
    ensures jobs == ReviewerJobs(root, ref, plan, opts) && routed == JobGroups(jobs)
    ensures routed + skipped == if !opts.includeRootBatches && ref == root then 0 else |plan.groups|
  {
    if !opts.includeRootBatches && ref == root {
      return [], 0, 0;
    }
    if FullOnly(root, ref, plan, opts) {
      var job := FullChangeJob(ref, plan);
      assert [job][..0] == [];
      return [job], |plan.groups|, 0;
    }
    ReviewerJobsConserve(root, ref, plan, opts);
    var kept, dropped := RouteAll(plan, ref);
    var batches := BatchCompositeReviewGroups(kept, opts.limits);
    jobs := JobsForBatches(ref, batches);
    return jobs, |kept|, dropped;
  }

  method ListedJobs(root: string, refs: seq<string>, plan: Plan, opts: Options)
    returns (jobs: seq<Job>, routed: nat, skipped: nat, batches: nat)
    ensures jobs == AllJobs(root, refs, plan, opts) && |jobs| == batches && routed == JobGroups(jobs)
    ensures routed + skipped == Assignments(root, refs, opts, |plan.groups|)
  {
    jobs, routed, skipped, batches := [], 0, 0, 0;
    for i := 0 to |refs|
      invariant jobs == AllJobs(root, refs[..i], plan, opts) && |jobs| == batches && routed == JobGroups(jobs)
      invariant routed + skipped == Assignments(root, refs[..i], opts, |plan.groups|)
    {
      var added, r, s := JobsForReviewer(root, refs[i], plan, opts);
      OneMoreReviewer(root, refs, i, plan, opts);
      JobGroupsConcat(jobs, added);
      jobs, routed, skipped, batches := jobs + added, routed + r, skipped + s, batches + |added|;
    }
    assert refs[..|refs|] == refs;
  }

  method RoutedComposedRunJobs(root: string, refs: seq<string>, plan: Plan, opts: Options)
    returns (jobs: seq<Job>, stats: Stats)
    ensures jobs == [Job(root, FullChange, plan.full, false, AllRegions(plan.groups), 0, 0, 0)]
                    + AllJobs(root, refs, plan, opts)
    ensures |jobs| == 1 + stats.batches
    ensures stats.routed == JobGroups(jobs[1..])
    ensures stats.routed + stats.skipped == Assignments(root, refs, opts, |plan.groups|)
    ensures stats.candidates == Candidates(root, refs, opts) * |plan.groups|
  {
    var candidateReviewers := |refs|;
    if !opts.includeRootBatches && root in refs {
      candidateReviewers := candidateReviewers - 1;
    }
    var listed, routed, skipped, batches := ListedJobs(root, refs, plan, opts);
    jobs := [RootJob(root, plan)] + listed;
    assert jobs[1..] == listed;
    stats := Stats(candidateReviewers * |plan.groups|, routed, skipped, batches);
  }

  lemma OneMoreReviewer(root: string, refs: seq<string>, i: nat, plan: Plan, opts: Options)
    requires i < |refs|
    ensures AllJobs(root, refs[..i + 1], plan, opts)
            == AllJobs(root, refs[..i], plan, opts) + ReviewerJobs(root, refs[i], plan, opts)
    ensures Assignments(root, refs[..i + 1], opts, |plan.groups|)
         == Assignments(root, refs[..i], opts, |plan.groups|)
            + if !opts.includeRootBatches && refs[i] == root then 0 else |plan.groups|
  {
    assert refs[..i + 1][..i] == refs[..i];
  }

  // ---- accounting ----

  /** The reviewers counted as candidates: the code subtracts the root once at most. */
  function Candidates(root: string, refs: seq<string>, opts: Options): int {
    if !opts.includeRootBatches && root in refs then |refs| - 1 else |refs|
  }

  function Occurrences(root: string, refs: seq<string>): nat {
    multiset(refs)[root]
  }

  lemma {:induction false} AssignmentsCount(root: string, refs: seq<string>, opts: Options, n: nat)
    ensures Assignments(root, refs, opts, n)
            == (|refs| - if opts.includeRootBatches then 0 else Occurrences(root, refs)) * n
  {
    if refs != [] {
      var last := |refs| - 1;
      AssignmentsCount(root, refs[..last], opts, n);
      assert refs == refs[..last] + [refs[last]];
      var before := |refs[..last]| - if opts.includeRootBatches then 0 else Occurrences(root, refs[..last]);
      assert (before + 1) * n == before * n + n;
    }
  }

  /** Candidate assignments are all accounted for exactly when a left-out root is listed at most once. */
  lemma CandidatesAccountedIff(root: string, refs: seq<string>, plan: Plan, opts: Options)
    ensures Candidates(root, refs, opts) * |plan.groups| == Assignments(root, refs, opts, |plan.groups|)
       <==> opts.includeRootBatches || Occurrences(root, refs) <= 1 || plan.groups == []
  {
    var planned := |refs| - if opts.includeRootBatches then 0 else Occurrences(root, refs);
    AssignmentsCount(root, refs, opts, |plan.groups|);
    SameMultiple(Candidates(root, refs, opts), planned, |plan.groups|);
    assert root in refs <==> Occurrences(root, refs) >= 1;
  }

  /** A root listed twice and left out is subtracted once only: one assignment too many is announced. */
  lemma RootListedTwiceIsMiscounted(plan: Plan, opts: Options)
    requires !opts.includeRootBatches && |plan.groups| == 1
    ensures Candidates("r", ["r", "r"], opts) * |plan.groups| == 1
    ensures Assignments("r", ["r", "r"], opts, |plan.groups|) == 0
  {
    AssignmentsCount("r", ["r", "r"], opts, 1);
    assert Occurrences("r", ["r", "r"]) == 2;
  }

  lemma SameMultiple(a: int, b: int, n: nat)
    ensures a * n == b * n <==> a == b || n == 0
  {
    if n > 0 && a != b {
      assert a < b ==> a * n < b * n;
      assert b < a ==> b * n < a * n;
    }
  }

  // ---- what the runner makes of the jobs ----

  /** The groups are the ones the planner made of these regions. */
  ghost predicate IsPlanned(plan: Plan, regions: seq<Region>, rel: Relations) {
    PlannedFrom(plan, Components(regions, rel))
  }

  ghost predicate PlannedFrom(plan: Plan, cells: seq<seq<Region>>) {
    && |plan.groups| == |cells|
    && forall i :: 0 <= i < |plan.groups| ==> plan.groups[i] == PlannedGroup(plan.full, cells[i], i + 1)
  }

  lemma PlannedFilesAreChanged(plan: Plan, regions: seq<Region>, rel: Relations, i: nat)
    requires IsPlanned(plan, regions, rel) && i < |plan.groups|
    ensures forall f :: f in plan.groups[i].context.files ==> f in plan.full.files
  {
    hide Components;
    KeepFilesMembers(plan.full.files, RegionPaths(Components(regions, rel)[i]));
  }

  /** Routing a planner's groups gives routed groups in the sense of the runner's theorems. */
  lemma {:induction false} RoutedGroupsAreRouted(plan: Plan, regions: seq<Region>, rel: Relations, ref: string, n: nat)
    requires IsPlanned(plan, regions, rel) && ref in plan.manifests && n <= |plan.groups|
    ensures RoutedFrom(plan.manifests[ref], plan.full, RoutedGroups(plan, ref, n))
  {
    hide RouteSpec, IsPlanned;
    if n > 0 {
      RoutedGroupsAreRouted(plan, regions, rel, ref, n - 1);
      PlannedFilesAreChanged(plan, regions, rel, n - 1);
    }
  }

  lemma {:induction false} BatchJobsMembers(ref: string, batches: seq<Group>, job: Job)
    requires job in BatchJobs(ref, batches)
    ensures job.ref == ref && job.scope.Batch? && job.focused
    ensures exists b :: b in batches && job.context == b.context && job.regions == b.regions
  {
    var last := |batches| - 1;
    if job == BatchJob(ref, batches[last], |batches|) {
      assert batches[last] in batches;
    } else {
      BatchJobsMembers(ref, batches[..last], job);
      var b :| b in batches[..last] && job.context == b.context && job.regions == b.regions;
      assert b in batches;
    }
  }

  lemma {:induction false} MergedPiece(cut: seq<seq<Group>>, b: Group) returns (piece: seq<Group>)
    requires NoneEmpty(cut) && b in MergeEach(cut)
    ensures piece != [] && b == MergeSpec(piece) && forall g :: g in piece ==> g in Flatten(cut)
  {
    var n :| 0 <= n < |cut| && MergeEach(cut)[n] == b;
    piece := cut[n];
    MergedAt(cut, n);
    FlattenAt(cut, n);
  }

  lemma {:induction false} MergedAt(cut: seq<seq<Group>>, n: nat)
    requires NoneEmpty(cut) && n < |cut|
    ensures MergeEach(cut)[n] == MergeSpec(cut[n])
    decreases |cut|
  {
    hide MergeSpec;
    if n < |cut| - 1 {
      MergedAt(cut[..|cut| - 1], n);
    }
  }

  lemma {:induction false} AllJobsMembers(root: string, refs: seq<string>, plan: Plan, opts: Options, job: Job)
    returns (ref: string)
    requires job in AllJobs(root, refs, plan, opts)
    ensures ref in refs && job in ReviewerJobs(root, ref, plan, opts)
  {
    hide ReviewerJobs;
    var last := |refs| - 1;
    if job in ReviewerJobs(root, refs[last], plan, opts) {
      ref := refs[last];
    } else {
      ref := AllJobsMembers(root, refs[..last], plan, opts, job);
    }
  }

  /** A batch job carries the merger of some groups that routing made of planned ones. */
  lemma {:induction false} JobIsRoutedPiece(root: string, refs: seq<string>, plan: Plan, regions: seq<Region>,
                                            rel: Relations, opts: Options, job: Job) returns (piece: seq<Group>)
    requires IsPlanned(plan, regions, rel)
    requires job in AllJobs(root, refs, plan, opts) && job.scope.Batch? && job.ref in plan.manifests
    ensures piece != [] && RoutedFrom(plan.manifests[job.ref], plan.full, piece)
    ensures job.context == MergeSpec(piece).context && job.regions == MergeSpec(piece).regions
  {
    hide RouteSpec, IsPlanned, MergeSpec;
    var ref := AllJobsMembers(root, refs, plan, opts, job);
    var routed := RoutedGroups(plan, ref, |plan.groups|);
    var batches := BatchSpec(routed, opts.limits);
    BatchJobsMembers(ref, batches, job);
    var b :| b in batches && job.context == b.context && job.regions == b.regions;
    piece := MergedPiece(Cut(routed, opts.limits), b);
    CutIsOptimal(routed, opts.limits, Cut(routed, opts.limits));
    RoutedGroupsAreRouted(plan, regions, rel, ref, |plan.groups|);
  }

  /**
   * No batch job of the job list is lost in the runner: for a reviewer whose scope is declared, the runner neither
   * skips the job nor drops a file or a region of it.
   */
  lemma {:induction false} JobsSurviveTheRunner(root: string, refs: seq<string>, plan: Plan, regions: seq<Region>,
                                                rel: Relations, opts: Options, job: Job)
    requires IsPlanned(plan, regions, rel) && DistinctPaths(plan.full.files)
    requires job in AllJobs(root, refs, plan, opts) && job.scope.Batch?
    requires job.ref in plan.manifests && Declared(plan.manifests[job.ref])
    ensures RunChange(Some(plan.manifests[job.ref]), Reviewed(job.context), false) == Some(Reviewed(job.context))
    ensures AssignmentForFiles(job.regions, job.context.files) == Some(job.regions)
  {
    hide *;
    var piece := JobIsRoutedPiece(root, refs, plan, regions, rel, opts, job);
    PlannerAndRunnerAgree(plan.manifests[job.ref], plan.full, piece);
  }

  /** For any manifest: the runner skips a batch job exactly when undeclared legacy triggers match none of its files. */
  lemma {:induction false} JobSkippedIff(root: string, refs: seq<string>, plan: Plan, regions: seq<Region>,
                                         rel: Relations, opts: Options, job: Job)
    requires IsPlanned(plan, regions, rel) && DistinctPaths(plan.full.files)
    requires job in AllJobs(root, refs, plan, opts) && job.scope.Batch? && job.ref in plan.manifests
    ensures var m := plan.manifests[job.ref];
            RunChange(Some(m), Reviewed(job.context), false).None? <==>
              !Declared(m) && m.filesChanged != []
              && forall f :: f in job.context.files ==> !AnyPathMatches(m.filesChanged, [f.path])
  {
    hide *;
    var piece := JobIsRoutedPiece(root, refs, plan, regions, rel, opts, job);
    BatchSkippedIff(plan.manifests[job.ref], plan.full, piece);
  }

  // ---- coverage: which changed regions reach a reviewer ----

  /** A declared scope asks for the regions of relevant changed files, found under their exact, untrimmable path. */
  ghost predicate Wanted(plan: Plan, ref: string, r: Region) {
    || ref !in plan.manifests || !Declared(plan.manifests[ref])
    || (r.path != "" && TrimSpace(r.path) == r.path
        && exists f :: f in plan.full.files && f.path == r.path && Relevant(plan.manifests[ref], f))
  }

  lemma {:induction false} KeepRegionsCount(regions: seq<Region>, paths: set<string>, r: Region)
    ensures multiset(KeepRegions(regions, paths))[r] == if r.path in paths then multiset(regions)[r] else 0
  {
    if regions != [] {
      var before, last := regions[..|regions| - 1], regions[|regions| - 1];
      KeepRegionsCount(before, paths, r);
      assert regions == before + [last];
      CountSnoc(before, last, r);
      CountSnoc(KeepRegions(before, paths), last, r);
    }
  }

  /** The scoped context of a planned group has a file for one of its regions exactly when that region is wanted. */
  lemma ScopedPathIffRelevant(full: Context, cell: seq<Region>, number: nat, m: Manifest, r: Region)
    requires DistinctPaths(full.files) && r in cell
    ensures r.path in Paths(ScopeSpec(m, PlannedGroup(full, cell, number).context).files)
       <==> r.path != "" && TrimSpace(r.path) == r.path
            && exists f :: f in full.files && f.path == r.path && Relevant(m, f)
  {
    hide Relevant, TrimSpace, Paths, ScopeSpec, PlannedGroup;
    var context := PlannedGroup(full, cell, number).context;
    var scoped := ScopeSpec(m, context).files;
    PlannedFilesAreFull(full, cell, number);
    ScopeKeepsRelevant(m, context);
    PathsMean(scoped);
    forall f | f in full.files && f.path == r.path
      ensures f in context.files <==> r.path != "" && TrimSpace(r.path) == r.path
    {
      GroupCarriesFileIffTrimmed(full, cell, number, r, f);
    }
    if r.path in Paths(scoped) {
      var f :| f in scoped && f.path == r.path;
      assert f in full.files && Relevant(m, f);
    }
  }

  lemma PlannedFilesAreFull(full: Context, cell: seq<Region>, number: nat)
    ensures forall f :: f in PlannedGroup(full, cell, number).context.files ==> f in full.files
  {
    KeepFilesMembers(full.files, RegionPaths(cell));
  }

  function RegionsOf(group: Option<Group>): seq<Region> {
    if group.Some? then group.value.regions else []
  }

  lemma RouteCount(plan: Plan, cells: seq<seq<Region>>, n: nat, ref: string, r: Region)
    requires PlannedFrom(plan, cells) && DistinctPaths(plan.full.files) && n < |cells| == |plan.groups|
    ensures multiset(RegionsOf(Route(plan, ref, plan.groups[n])))[r]
         == if Wanted(plan, ref, r) then multiset(cells[n])[r] else 0
  {
    hide Relevant, TrimSpace, Paths, ScopeSpec, KeepRegions;
    if ref in plan.manifests && Declared(plan.manifests[ref]) {
      var m, cell, group := plan.manifests[ref], cells[n], plan.groups[n];
      var files := ScopeSpec(m, group.context).files;
      KeepRegionsCount(cell, Paths(files), r);
      PathsMean(files);
      if r in cell {
        ScopedPathIffRelevant(plan.full, cell, n + 1, m, r);
      }
    }
  }

  lemma RoutedRegionsGrow(plan: Plan, ref: string, n: nat, r: Region)
    requires n < |plan.groups|
    ensures multiset(AllRegions(RoutedGroups(plan, ref, n + 1)))[r]
            == multiset(AllRegions(RoutedGroups(plan, ref, n)))[r]
               + multiset(RegionsOf(Route(plan, ref, plan.groups[n])))[r]
  {
    hide Route, RoutedGroups;
    RoutedStep(plan, ref, n);
    var next := Route(plan, ref, plan.groups[n]);
    var added := if next.Some? then [next.value] else [];
    AllRegionsConcat(RoutedGroups(plan, ref, n), added);
    assert added != [] ==> added[1..] == [];
    assert AllRegions(added) == RegionsOf(next);
  }

  lemma PlannedCount(cells: seq<seq<Region>>, n: nat, r: Region)
    requires n < |cells|
    ensures multiset(Flatten(cells[..n + 1]))[r] == multiset(Flatten(cells[..n]))[r] + multiset(cells[n])[r]
  {
    hide Flatten;
    assert cells[..n + 1] == cells[..n] + [cells[n]];
    FlattenSnoc(cells[..n], cells[n]);
  }

  /** The first `n` planned groups route each wanted region as often as they hold it. */
  lemma {:induction false} RoutedCount(plan: Plan, cells: seq<seq<Region>>, ref: string, n: nat, r: Region)
    requires PlannedFrom(plan, cells) && DistinctPaths(plan.full.files) && n <= |cells| == |plan.groups|
    ensures multiset(AllRegions(RoutedGroups(plan, ref, n)))[r]
         == if Wanted(plan, ref, r) then multiset(Flatten(cells[..n]))[r] else 0
  {
    hide *;
    if n == 0 {
      NothingRouted(plan, cells, ref, r);
    } else {
      RoutedCount(plan, cells, ref, n - 1, r);
      RoutedRegionsGrow(plan, ref, n - 1, r);
      RouteCount(plan, cells, n - 1, ref, r);
      PlannedCount(cells, n - 1, r);
    }
  }

  lemma NothingRouted(plan: Plan, cells: seq<seq<Region>>, ref: string, r: Region)
    ensures AllRegions(RoutedGroups(plan, ref, 0)) == [] == Flatten(cells[..0])
  {
  }

  lemma {:induction false} PlannedRegions(groups: seq<Group>, cells: seq<seq<Region>>)
    requires |groups| == |cells| && forall i :: 0 <= i < |groups| ==> groups[i].regions == cells[i]
    ensures AllRegions(groups) == Flatten(cells)
  {
    if groups != [] {
      PlannedRegions(groups[1..], cells[1..]);
    }
  }

  /**
   * Coverage. A listed reviewer's jobs carry a changed region exactly as often as it was planned when the reviewer
   * sees the full change or wants the region, and not at all otherwise.
   */
  lemma {:induction false} ReviewerCoverage(root: string, ref: string, plan: Plan, regions: seq<Region>, rel: Relations,
                                            opts: Options, r: Region)
    requires IsPlanned(plan, regions, rel) && DistinctPaths(plan.full.files)
    requires opts.includeRootBatches || ref != root
    ensures multiset(JobRegions(ReviewerJobs(root, ref, plan, opts)))[r]
         == if FullOnly(root, ref, plan, opts) || Wanted(plan, ref, r) then multiset(regions)[r] else 0
  {
    hide Wanted, RoutedGroups, Components, AllRegions, FullOnly;
    var cells := Components(regions, rel);
    GroupsPartitionInOrder(regions, rel);
    if FullOnly(root, ref, plan, opts) {
      PlannedRegions(plan.groups, cells);
      var job := FullJob(ref, plan);
      assert [job][..0] == [] && JobRegions([job]) == JobRegions([]) + job.regions;
    } else {
      ReviewerJobsConserve(root, ref, plan, opts);
      RoutedCount(plan, cells, ref, |cells|, r);
      assert cells[..|cells|] == cells;
    }
  }

  lemma {:induction false} JobCarrying(jobs: seq<Job>, r: Region) returns (job: Job)
    requires r in JobRegions(jobs)
    ensures job in jobs && r in job.regions
  {
    job := jobs[|jobs| - 1];
    if r !in job.regions {
      job := JobCarrying(jobs[..|jobs| - 1], r);
    }
  }

  lemma {:induction false} ListedReviewersJobs(root: string, refs: seq<string>, ref: string, plan: Plan, opts: Options)
    requires ref in refs
    ensures forall job :: job in ReviewerJobs(root, ref, plan, opts) ==> job in AllJobs(root, refs, plan, opts)
  {
    hide ReviewerJobs;
    var last := |refs| - 1;
    if refs[last] != ref {
      ListedReviewersJobs(root, refs[..last], ref, plan, opts);
    }
  }

  /** From change to runner: a region that a declared scope wants is reviewed by some job, run whole. */
  lemma {:induction false} WantedRegionIsReviewed(root: string, refs: seq<string>, ref: string, plan: Plan,
                                                  regions: seq<Region>, rel: Relations, opts: Options, r: Region)
    returns (job: Job)
    requires IsPlanned(plan, regions, rel) && DistinctPaths(plan.full.files)
    requires ref in refs && (opts.includeRootBatches || ref != root) && !FullOnly(root, ref, plan, opts)
    requires ref in plan.manifests && Declared(plan.manifests[ref])
    requires r in regions && Wanted(plan, ref, r)
    ensures job in AllJobs(root, refs, plan, opts) && job.ref == ref && r in job.regions
    ensures RunChange(Some(plan.manifests[ref]), Reviewed(job.context), false) == Some(Reviewed(job.context))
    ensures AssignmentForFiles(job.regions, job.context.files) == Some(job.regions)
  {
    hide *;
    ReviewerCoverage(root, ref, plan, regions, rel, opts, r);
    var jobs := ReviewerJobs(root, ref, plan, opts);
    job := JobCarrying(jobs, r);
    ListedReviewersJobs(root, refs, ref, plan, opts);
    BatchesOnly(root, ref, plan, opts, job);
    JobsSurviveTheRunner(root, refs, plan, regions, rel, opts, job);
  }

  lemma BatchesOnly(root: string, ref: string, plan: Plan, opts: Options, job: Job)
    requires !FullOnly(root, ref, plan, opts) && job in ReviewerJobs(root, ref, plan, opts)
    ensures job.ref == ref && job.scope.Batch?
  {
    BatchJobsMembers(ref, BatchSpec(RoutedGroups(plan, ref, |plan.groups|), opts.limits), job);
  }

  // ---- what a job says ----

  /** A pattern that names every file. */
  ghost predicate CatchesAll(pattern: string) {
    TrimSpace(pattern) == "*" || TrimSpace(pattern) == "**" || TrimSpace(pattern) == "**/*"
  }

  /**
   * A reviewer other than the root sees the full change once when it is listed for that, or when that is asked for
   * broad reviewers and its manifest names no files or all of them.
   */
  lemma FullOnlyMeans(root: string, ref: string, plan: Plan, opts: Options)
    ensures FullOnly(root, ref, plan, opts) <==>
              && ref != root
              && ((exists r :: r in opts.fullReviewers && TrimSpace(r) == TrimSpace(ref))
                  || (opts.broadFullOnly && ref in plan.manifests
                      && var m := plan.manifests[ref];
                         (forall p :: p in m.detection.files || p in m.filesChanged ==> CatchesAll(p))
                         || exists p :: (p in m.detection.files || p in m.filesChanged) && CatchesAll(p)))
  {
    hide TrimSpace;
    if ref in plan.manifests {
      SelectiveMeans(plan.manifests[ref]);
    }
  }

  lemma SelectiveMeans(m: Manifest)
    ensures !Selective(m) <==>
              (forall p :: p in m.detection.files || p in m.filesChanged ==> CatchesAll(p))
              || exists p :: (p in m.detection.files || p in m.filesChanged) && CatchesAll(p)
  {
    hide TrimSpace;
    var patterns := m.detection.files + m.filesChanged;
    assert forall p :: p in patterns <==> p in m.detection.files || p in m.filesChanged;
    assert patterns == [] || patterns[0] in patterns;
  }

  /** A job counts what it carries, and shows whose it is and what it covers. */
  ghost predicate Labelled(job: Job, ref: string, scope: JobScope, groups: nat) {
    && job.ref == ref && job.scope == scope && job.groups == groups
    && job.regionCount == |job.regions| && job.lines == LineCount(job.regions)
    && (job.focused <==> scope != FullChange)
  }

  /** The batch jobs are numbered from one; a reviewer of the full change gets one job over everything. */
  lemma {:induction false} JobsTell(root: string, ref: string, plan: Plan, opts: Options, k: nat)
    requires k < |ReviewerJobs(root, ref, plan, opts)|
    ensures var (jobs, routed) := (ReviewerJobs(root, ref, plan, opts), RoutedGroups(plan, ref, |plan.groups|));
            if FullOnly(root, ref, plan, opts) then
              && |jobs| == 1 && Labelled(jobs[k], ref, FullChange, |plan.groups|)
              && jobs[k].context == plan.full && jobs[k].regions == AllRegions(plan.groups)
            else
              && |jobs| == |Cut(routed, opts.limits)|
              && Labelled(jobs[k], ref, Batch(k + 1), |Cut(routed, opts.limits)[k]|)
              && jobs[k].context == MergeSpec(Cut(routed, opts.limits)[k]).context
              && jobs[k].regions == AllRegions(Cut(routed, opts.limits)[k])
  {
    hide FullOnly, RoutedGroups, Cut, MergeSpec, AllRegions, LineCount, GroupCount;
    if !FullOnly(root, ref, plan, opts) {
      var cut := Cut(RoutedGroups(plan, ref, |plan.groups|), opts.limits);
      BatchJobAt(ref, MergeEach(cut), k);
      MergedAt(cut, k);
      MergedTotals(cut[k]);
    }
  }

  lemma {:induction false} BatchJobAt(ref: string, batches: seq<Group>, k: nat)
    requires k < |batches|
    ensures BatchJobs(ref, batches)[k] == BatchJob(ref, batches[k], k + 1)
  {
    hide BatchJob;
    if k < |batches| - 1 {
      BatchJobAt(ref, batches[..|batches| - 1], k);
    }
  }
}
