/** Planning review jobs: which reviewer sees which regions (cmd/composite_plan.go, cmd/composite_run.go). */
module Routing {
  import opened Prelude
  import opened RegionGroups
  import opened Review
  import opened Scope
  import opened Batches

  // ---- planned groups ----

  /** uniqueRegionPaths as a set: trimmed, without the empty path. */
  function RegionPaths(regions: seq<Region>): set<string> {
    set r | r in regions && TrimSpace(r.path) != "" :: TrimSpace(r.path)
  }

  method UniqueRegionPaths(regions: seq<Region>) returns (paths: seq<string>)
    ensures (set p | p in paths) == RegionPaths(regions)
    ensures forall i, j :: 0 <= i < j < |paths| ==> paths[i] != paths[j]
  {
    var seen: set<string> := {};
    paths := [];
    for i := 0 to |regions|
      invariant seen == (set p | p in paths) == RegionPaths(regions[..i])
      invariant forall i, j :: 0 <= i < j < |paths| ==> paths[i] != paths[j]
    {
      var path := TrimSpace(regions[i].path);
      assert regions[..i + 1] == regions[..i] + [regions[i]];
      if path in seen || path == "" {
        continue;
      }
      seen := seen + {path};
      paths := paths + [path];
    }
    assert regions[..|regions|] == regions;
  }

  /** The group planCompositeReview builds around one component. */
  function PlannedGroup(full: Context, regions: seq<Region>, number: nat): Group {
    Group(Planned(number), ScopedTo(full, RegionPaths(regions)), regions)
  }

  method PlanGroups(full: Context, regions: seq<Region>, rel: Relations) returns (groups: seq<Group>)
    ensures |groups| == |Components(regions, rel)|
    ensures forall i :: 0 <= i < |groups| ==> groups[i] == PlannedGroup(full, Components(regions, rel)[i], i + 1)
  {
    var cells := GroupReviewRegions(regions, rel);
    groups := [];
    for i := 0 to |cells|
      invariant |groups| == i
      invariant forall k :: 0 <= k < i ==> groups[k] == PlannedGroup(full, cells[k], k + 1)
    {
      var paths := UniqueRegionPaths(cells[i]);
      var context := ReviewContextForFiles(full, paths);
      groups := groups + [Group(Planned(i + 1), context, cells[i])];
    }
  }

  /** A group carries the changed file of its region exactly when trimming leaves the path alone. */
  lemma GroupCarriesFileIffTrimmed(full: Context, regions: seq<Region>, number: nat, r: Region, f: ChangedFile)
    requires r in regions && f in full.files && f.path == r.path
    ensures f in PlannedGroup(full, regions, number).context.files <==> r.path != "" && TrimSpace(r.path) == r.path
  {
    KeepFilesMembers(full.files, RegionPaths(regions));
    if f.path in RegionPaths(regions) {
      var q :| q in regions && TrimSpace(q.path) == f.path;
      TrimmedIsFixed(f.path);
    }
  }

  const SPACED := ChangedFile(" a", "", "modified")

  /** A file name that begins with a blank is lost to the group of its own hunk. */
  lemma SpacedFileIsLost()
    ensures SPACED !in PlannedGroup(Context("", [SPACED], []), [Region(SPACED.path, 1, 1)], 1).context.files
  {
    var r := Region(SPACED.path, 1, 1);
    assert IsSpace(" a"[0]) && TrimSpace(" a") != " a";
    GroupCarriesFileIffTrimmed(Context("", [SPACED], []), [r], 1, r, SPACED);
  }

  lemma TrimmedIsFixed(s: string)
    requires s == [] || (!IsSpace(s[0]) && !IsSpace(s[|s| - 1]))
    ensures TrimSpace(s) == s
  {
    assert TrimLeft(s) == s;
    assert TrimRight(s) == s;
  }

  // ---- routing one group to one reviewer ----

  function KeepRegions(regions: seq<Region>, paths: set<string>): seq<Region> {
    if regions == [] then []
    else
      var last := |regions| - 1;
      KeepRegions(regions[..last], paths) + if regions[last].path in paths then [regions[last]] else []
  }

  lemma {:induction false} KeepRegionsMembers(regions: seq<Region>, paths: set<string>)
    ensures forall r :: r in KeepRegions(regions, paths) <==> r in regions && r.path in paths
  {
    if regions != [] {
      var last := |regions| - 1;
      KeepRegionsMembers(regions[..last], paths);
      assert regions == regions[..last] + [regions[last]];
    }
  }

  method FilterRegions(regions: seq<Region>, paths: set<string>) returns (kept: seq<Region>)
    ensures kept == KeepRegions(regions, paths)
  {
    kept := [];
    for i := 0 to |regions|
      invariant kept == KeepRegions(regions[..i], paths)
    {
      assert regions[..i + 1][..i] == regions[..i];
      if regions[i].path in paths {
        kept := kept + [regions[i]];
      }
    }
    assert regions[..|regions|] == regions;
  }

  /** A detector that is only a program cannot be evaluated from paths. */
  predicate Programmatic(m: Manifest) {
    TrimSpace(m.detection.entrypoint) != "" && m.detection.files == [] && m.filesChanged == []
  }

  ghost function RouteSpec(m: Manifest, group: Group): Option<Group> {
    if Programmatic(m) || !Declared(m) then Some(group)
    else
      var context := ScopeSpec(m, group.context);
      var regions := KeepRegions(group.regions, Paths(context.files));
      if context.files == [] || regions == [] then None
      else Some(group.(context := context, regions := regions))
  }

  method RouteCompositeReviewGroup(m: Manifest, group: Group) returns (routed: Option<Group>)
    ensures routed == RouteSpec(m, group)
  {
    if TrimSpace(m.detection.entrypoint) != "" && |m.detection.files| == 0 && |m.filesChanged| == 0 {
      return Some(group);
    }
    var scopedContext, declared := ScopeReviewContext(m, group.context);
    if !declared {
      return Some(group);
    }
    if |scopedContext.files| == 0 {
      return None;
    }
    var regions := FilterRegions(group.regions, Paths(scopedContext.files));
    if |regions| == 0 {
      return None;
    }
    return Some(group.(context := scopedContext, regions := regions));
  }

  // ---- what the runner does with a batch ----

  /** What a run compares: a review context, the files between two given refs, or nothing. */
  datatype Change = Reviewed(context: Context) | Compared(files: seq<string>) | NoChange

  function ChangedPaths(change: Change): seq<string> {
    match change
    case Reviewed(context) => PathList(context.files)
    case Compared(files) => files
    case NoChange => []
  }

  predicate Scopes(m: Option<Manifest>, change: Change, bypass: bool) {
    change.Reviewed? && m.Some? && !bypass && Declared(m.value)
  }

  /** The change a run reviews, or None when it reports a skip; `bypass` is force or all-files. */
  ghost function RunChange(m: Option<Manifest>, change: Change, bypass: bool): Option<Change> {
    var scoped := Scopes(m, change, bypass);
    var reviewed := if scoped then Reviewed(ScopeSpec(m.value, change.context)) else change;
    var files := ChangedPaths(reviewed);
    if m.Some? && (scoped || m.value.filesChanged != []) && !change.NoChange?
       && (files == [] || (!scoped && !Glob.ShouldRun(m.value.filesChanged, files, bypass)))
    then None else Some(reviewed)
  }

  /**
   * With force or all-files a run reviews the whole change, and is skipped only when there are triggers and nothing has
   * changed.
   */
  method RunScope(m: Option<Manifest>, change: Change, bypass: bool) returns (run: Option<Change>)
    ensures run == RunChange(m, change, bypass)
    ensures bypass ==> (run.None? <==> m.Some? && m.value.filesChanged != [] && !change.NoChange?
                                       && ChangedPaths(change) == [])
    ensures bypass && run.Some? ==> run.value == change
  {
    var reviewed, scopedByManifest := change, false;
    if change.Reviewed? && m.Some? && !bypass {
      var scoped, declared := ScopeReviewContext(m.value, change.context);
      if declared {
        reviewed, scopedByManifest := Reviewed(scoped), true;
      }
    }
    var changedFiles := ChangedPaths(reviewed);
    if m.Some? && (scopedByManifest || |m.value.filesChanged| > 0) && !change.NoChange? {
      if |changedFiles| == 0 {
        return None;
      }
      if !scopedByManifest {
        var should := Glob.ShouldRunForChangedFiles(m.value.filesChanged, changedFiles, bypass);
        if !should {
          return None;
        }
      }
    }
    return Some(reviewed);
  }

  /** The runs of a composed review: a manifest and a review context, without force and all-files. */
  ghost function RunContext(m: Manifest, context: Context): (run: Option<Context>)
    ensures RunChange(Some(m), Reviewed(context), false) == if run.Some? then Some(Reviewed(run.value)) else None
  {
    var scoped := if Declared(m) then ScopeSpec(m, context) else context;
    if (Declared(m) || m.filesChanged != [])
       && (scoped.files == [] || (!Declared(m) && !Glob.ShouldRun(m.filesChanged, PathList(scoped.files), false)))
    then None else Some(scoped)
  }

  /** reviewAssignmentForFiles: None when no assigned region survives. */
  function AssignmentForFiles(regions: seq<Region>, files: seq<ChangedFile>): Option<seq<Region>> {
    var kept := KeepRegions(regions, Paths(files));
    if kept == [] then None else Some(kept)
  }

  lemma {:induction false} KeepAllRegions(regions: seq<Region>, paths: set<string>)
    requires forall r :: r in regions ==> r.path in paths
    ensures KeepRegions(regions, paths) == regions
  {
    if regions != [] {
      var last := |regions| - 1;
      assert regions == regions[..last] + [regions[last]];
      KeepAllRegions(regions[..last], paths);
    }
  }

  /** `routed` are images under RouteSpec of groups planned over one full context. */
  ghost predicate RoutedFrom(m: Manifest, full: Context, routed: seq<Group>) {
    forall g :: g in routed ==>
      exists planned :: RouteSpec(m, planned) == Some(g) && forall f :: f in planned.context.files ==> f in full.files
  }

  lemma RoutedGroupIsRelevant(m: Manifest, full: Context, planned: Group, g: Group)
    requires Declared(m) && DistinctPaths(full.files) && RouteSpec(m, planned) == Some(g)
    requires forall f :: f in planned.context.files ==> f in full.files
    ensures g.context.files != [] && g.regions != []
    ensures forall f :: f in g.context.files ==> Relevant(m, f)
    ensures forall r :: r in g.regions ==> exists f :: f in g.context.files && f.path == r.path
  {
    ScopeKeepsRelevant(m, planned.context);
    PathsMean(g.context.files);
    KeepRegionsMembers(planned.regions, Paths(g.context.files));
  }

  lemma MergedFiles(batch: seq<Group>)
    requires batch != []
    ensures forall f :: f in MergeSpec(batch).context.files ==> exists g :: g in batch && f in g.context.files
    ensures forall g, f :: g in batch && f in g.context.files ==> f.path in Paths(MergeSpec(batch).context.files)
  {
    AllFilesMembers(batch);
    FirstByPathKeeps(AllFiles(batch));
    PathsMean(AllFiles(batch));
  }

  lemma {:induction false} AllRegionsMembers(groups: seq<Group>)
    ensures forall r :: r in AllRegions(groups) <==> exists g :: g in groups && r in g.regions
  {
    if groups != [] {
      AllRegionsMembers(groups[1..]);
      assert groups == [groups[0]] + groups[1..];
    }
  }

  /** Scoping the batch again changes nothing, so the runner neither skips it nor drops a region. */
  lemma PlannerAndRunnerAgree(m: Manifest, full: Context, batch: seq<Group>)
    requires Declared(m) && DistinctPaths(full.files) && batch != [] && RoutedFrom(m, full, batch)
    ensures var merged := MergeSpec(batch);
            && RunContext(m, merged.context) == Some(merged.context)
            && AssignmentForFiles(merged.regions, merged.context.files) == Some(merged.regions)
  {
    var merged := MergeSpec(batch);
    MergedFiles(batch);
    AllRegionsMembers(batch);
    forall g | g in batch
      ensures forall f :: f in g.context.files ==> Relevant(m, f)
      ensures g.context.files != [] && g.regions != []
      ensures forall r :: r in g.regions ==> exists f :: f in g.context.files && f.path == r.path
    {
      var planned :| RouteSpec(m, planned) == Some(g) && forall f :: f in planned.context.files ==> f in full.files;
      RoutedGroupIsRelevant(m, full, planned, g);
    }
    ScopeFixedPoint(m, merged.context);
    forall r | r in merged.regions ensures r.path in Paths(merged.context.files) {
      var g :| g in batch && r in g.regions;
      var f :| f in g.context.files && f.path == r.path;
    }
    KeepAllRegions(merged.regions, Paths(merged.context.files));
    assert batch[0] in batch && batch[0].context.files[0] in batch[0].context.files;
    assert batch[0].regions[0] in merged.regions;
    assert Paths(merged.context.files) != {};
  }

  /**
   * For any manifest: the runner skips a routed batch exactly when undeclared legacy triggers match none of its files.
   */
  lemma BatchSkippedIff(m: Manifest, full: Context, batch: seq<Group>)
    requires DistinctPaths(full.files) && batch != [] && RoutedFrom(m, full, batch)
    ensures RunContext(m, MergeSpec(batch).context).None? <==>
              !Declared(m) && m.filesChanged != []
              && forall f :: f in MergeSpec(batch).context.files ==> !AnyPathMatches(m.filesChanged, [f.path])
  {
    var files := MergeSpec(batch).context.files;
    if Declared(m) {
      PlannerAndRunnerAgree(m, full, batch);
    } else if m.filesChanged != [] {
      var paths := PathList(files);
      if Glob.ShouldRun(m.filesChanged, paths, false) {
        var name, p :| name in paths && p in m.filesChanged && Glob.GlobMatchSpec(p, name);
        var i :| 0 <= i < |files| && paths[i] == name;
        assert files[i] in files && AnyPathMatches(m.filesChanged, [files[i].path]);
      }
      forall f | f in files && AnyPathMatches(m.filesChanged, [f.path])
        ensures Glob.ShouldRun(m.filesChanged, paths, false)
      {
        var i :| 0 <= i < |files| && files[i] == f;
        assert paths[i] in paths;
      }
    }
  }

  const LEGACY := Manifest(Detection([], ["go.mod"], [], ""), ["x"])
  const LEGACY_FILE := ChangedFile("y", "", "modified")
  const LEGACY_GROUP := Group(Planned(1), Context("", [LEGACY_FILE], []), [Region("y", 1, 1)])

  lemma LegacyTriggerMisses()
    ensures !AnyPathMatches(["x"], ["y"])
  {
    TrimmedIsFixed("x");
    assert Glob.NextToken("x") == (Glob.Char('x'), 1);
    assert !Glob.Matches("x", "y", true);
  }

  /** Such a batch exists: repository-wide detection with legacy triggers is routed but then skipped. */
  lemma UndeclaredBatchCanBeSkipped()
    ensures RouteSpec(LEGACY, LEGACY_GROUP) == Some(LEGACY_GROUP)
    ensures RunContext(LEGACY, MergeSpec([LEGACY_GROUP]).context).None?
  {
    assert !Declared(LEGACY) && RouteSpec(LEGACY, LEGACY_GROUP) == Some(LEGACY_GROUP);
    assert DistinctPaths([LEGACY_FILE]) && RoutedFrom(LEGACY, LEGACY_GROUP.context, [LEGACY_GROUP]);
    MergedFiles([LEGACY_GROUP]);
    LegacyTriggerMisses();
    BatchSkippedIff(LEGACY, LEGACY_GROUP.context, [LEGACY_GROUP]);
  }

  // ---- routing and running in terms of files ----

  /** A routed group is the planned one without the files and regions that a declared scope does not ask for. */
  lemma RoutedKeeps(m: Manifest, planned: Group, g: Group)
    requires DistinctPaths(planned.context.files) && RouteSpec(m, planned) == Some(g)
    ensures g == planned.(context := planned.context.(files := g.context.files), regions := g.regions)
    ensures forall f :: f in g.context.files <==>
              f in planned.context.files && (Declared(m) ==> Relevant(m, f))
    ensures forall r :: r in g.regions <==>
              r in planned.regions && (Declared(m) ==> exists f :: f in g.context.files && f.path == r.path)
  {
    hide Relevant;
    ScopeKeepsRelevant(m, planned.context);
    PathsMean(g.context.files);
    KeepRegionsMembers(planned.regions, Paths(g.context.files));
  }

  /** A group is not routed exactly when its scope is declared and no region's file is relevant. */
  lemma NotRoutedIff(m: Manifest, planned: Group)
    requires DistinctPaths(planned.context.files)
    ensures RouteSpec(m, planned) == None <==>
              Declared(m) && forall r, f :: r in planned.regions && f in planned.context.files && f.path == r.path ==>
                !Relevant(m, f)
  {
    hide Relevant;
    var scoped := ScopeSpec(m, planned.context).files;
    var kept := KeepRegions(planned.regions, Paths(scoped));
    ScopeKeepsRelevant(m, planned.context);
    PathsMean(scoped);
    KeepRegionsMembers(planned.regions, Paths(scoped));
    assert kept == [] || kept[0] in kept;
    assert scoped == [] ==> Paths(scoped) == {};
  }

  /** A scope is declared by patterns for files, or by legacy triggers when nothing else is said. */
  lemma DeclaredMeans(m: Manifest)
    ensures Declared(m) <==>
              m.detection.files != []
              || (m.filesChanged != [] && m.detection.repositoryFiles == []
                  && forall c :: c in m.detection.entrypoint ==> IsSpace(c))
  {
    TrimmedAway(m.detection.entrypoint);
  }

  /** The runner's decision, where neither force nor all-files is given; see RunScope for those. */
  lemma RunMeans(m: Option<Manifest>, change: Change)
    ensures m == None || change == NoChange ==> RunChange(m, change, false) == Some(change)
    ensures m != None && change.Reviewed? && Declared(m.value) && DistinctPaths(change.context.files) ==>
              match RunChange(m, change, false)
              case None => forall f :: f in change.context.files ==> !Relevant(m.value, f)
              case Some(run) =>
                && run.Reviewed? && run.context == change.context.(files := run.context.files)
                && run.context.files != []
                && forall f :: f in run.context.files <==> f in change.context.files && Relevant(m.value, f)
    ensures m != None && (change.Compared? || (change.Reviewed? && !Declared(m.value))) ==>
              var files := match change case Reviewed(c) => (set f | f in c.files :: f.path)
                                        case Compared(paths) => (set p | p in paths)
                                        case NoChange => {};
              RunChange(m, change, false)
              == if m.value.filesChanged == []
                    || exists f, p :: f in files && p in m.value.filesChanged && Glob.GlobMatchSpec(p, f)
                 then Some(change) else None
  {
    hide Relevant, Glob.GlobMatchSpec, DistinctPaths;
    if m != None && change.Reviewed? {
      if Declared(m.value) && DistinctPaths(change.context.files) {
        ScopeKeepsRelevant(m.value, change.context);
      }
      PathListMembers(change.context.files);
    }
  }

  lemma PathListMembers(files: seq<ChangedFile>)
    ensures forall p :: p in PathList(files) <==> exists f :: f in files && f.path == p
    ensures PathList(files) == [] <==> files == []
  {
    forall f | f in files ensures f.path in PathList(files) {
      var k :| 0 <= k < |files| && files[k] == f;
      assert PathList(files)[k] == f.path;
    }
  }
}
