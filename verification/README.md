# Verified models of the review planner, finding verifier and local store

This project models the decision logic of the command-line review tool in Dafny and proves what that logic promises.
Each module follows one component of the Go sources. Loops and objects of the sources are methods and classes here, each
proved against a specification function; the lemmas beside them say what the specification means.

- `RegionGroups`, `Grouping`, `Scope`, `Routing`, `Batches`, `Jobs`: a changed repository is cut into hunks, hunks are
  grouped into connected components with an in-place union-find, groups are routed to reviewers, packed into bounded
  batches, and turned into jobs. The grouping is exactly graph connectivity, the packing is optimal, and a reviewer's
  jobs carry exactly the changed regions its scope asks for, each as often as it was listed.
- `Sources`, `Verify`, `Replay`, `Verdicts`, `Workers`: a finding is checked by a bounded two-round protocol with an
  untrusted model, on a pool of workers, over source text read by the host. A saved report replays to itself exactly
  when all source text is UTF-8 and the report fits the size limit, whatever the schedule of the workers was.
- `Candidates`, `Preparation`, `Publish`, `Publication`, `Aggregate`, `Claims`: the findings of all reviewers become
  candidates, each is published or withheld by its own decision and anchored to a changed line, and what is left is
  merged without losing or inventing a claim.
- `ComposeSearch`, `Discovery`: the composition graph, which may be cyclic or infinite, is discovered wave by wave.
- `Glob`: path globs are compiled to regular expressions that mean the same.
- `NameStatus`, `JsonSurgery`: the NUL-delimited change-list parser is the inverse of its printer, and replacing an
  object inside a JSON document is a lens.
- `References`, `Remove`: clients of the shared reference store under arbitrary interleaving with other writers.
- `Inventory`: local and catalog rows are merged by a layered version order.
- `Prelude`, `Review`, `Findings`: shared vocabulary, among it Go's string comparison, trimming, splitting and
  joining.

`Grouping`, `Verdicts`, `Preparation`, `Publication`, `Claims` and `Discovery` say what the specification functions of
their neighbours mean without using them: in terms of lines, names, words, answers and metadata.

`dafny verify dfyconfig.toml` checks the whole project.

## What is not quite as promised

- A replay of a saved report is equal to the report only when every source text involved is valid UTF-8. JSON encoding
  rewrites any other byte, and the source IDs of the saved report no longer match it (`Replay.ReplayEquivalence`,
  `Replay.StrayByteBreaksReplay`). The saved snapshot must also still fit the 64 MiB limit after the reads were added;
  one that no longer does is refused (`Replay.FullSnapshotBreaksReplay`).
- `**` compiles to `.*`, which does not cross a line feed, while `*` and `?` do. Patterns are compiled faithfully for
  all paths exactly when they use no `**` (`Glob.FaithfulOnAllPathsIffNoDeep`), and a path is matched as meant
  by all patterns exactly when it has no line feed (`Glob.FaithfulForAllPatternsIffNoLineFeed`); `Glob.DeepMissesLineFeed`
  is such a pattern and path.
- Candidate assignments add up to routed plus skipped exactly when a root that is left out is listed at most once
  (`Jobs.CandidatesAccountedIff`, `Jobs.RootListedTwiceIsMiscounted`).
- A batch routed to a reviewer whose detection scope is not declared can still be reported as skipped by the runner
  (`Jobs.JobSkippedIff`, `Routing.BatchSkippedIff`, `Routing.UndeclaredBatchCanBeSkipped`).
- A planned group carries the changed file of one of its regions only when the path has no white space at its ends
  (`Routing.GroupCarriesFileIffTrimmed`, `Routing.SpacedFileIsLost`). A reviewer with a declared scope is therefore not
  given the region of such a file, and of the others those whose changed file is relevant (`Jobs.ReviewerCoverage`).
- A published finding of a diff review need not be anchored to a changed line: the verifier may keep it for a line in a
  source of nothing but white space (`Publish.DiffFindingIsAnchoredUnlessBlank`, `Publish.BlankFindingIsPublished`).
- Re-anchoring a finding can shift entries inside the evidence array it was given (`Publish.ReanchorEvidence`,
  `Publish.CallerArrayKeptIff`, `Publish.CallerArrayCanChange`).

## Model

| member | source | states |
|---|---|---|
| RegionGroups.Find | cmd/composite_plan.go:172-178 | `find` ends, returns the root of its node, and its path compression changes no root |
| RegionGroups.Union | cmd/composite_plan.go:179-185 | merges exactly the two trees it is given, and the parent array stays a forest |
| RegionGroups.JoinEdges | cmd/composite_plan.go:171-196 | after the pass over all pairs two hunks hang in one tree if and only if a chain of close or related hunks links them |
| RegionGroups.Collect | cmd/composite_plan.go:197-215 | reads each tree off once, in the order in which the sorted hunks first meet it |
| RegionGroups.GroupReviewRegions | cmd/composite_plan.go:160-215 | for any hunks and relations the result is the list of connected components of the sorted hunks |
| RegionGroups.GroupsAreConnectedComponents | cmd/composite_plan.go:160-215 | two regions share a group if and only if the reflexive-symmetric-transitive closure of the edges links them, and each group lists its regions in sorted order |
| RegionGroups.GroupsPartitionInOrder | cmd/composite_plan.go:160-215 | the groups hold every input region exactly as often as it occurs, none is empty, and they are ordered by smallest member |
| RegionGroups.SortedIsUnique | cmd/composite_plan.go:161-170 | the sort key leaves only one sorted permutation, so an unstable sort cannot show |
| RegionGroups.GroupsIgnoreInputOrder | cmd/composite_plan.go:160-215 | every permutation of the input gives the same groups in the same order |
| Grouping.TouchingShareAGroup | cmd/composite_plan.go:186-196 | regions of one file with at most 80 lines between them, and regions of related files, are in one group |
| Grouping.GroupsDoNotTouch | cmd/composite_plan.go:186-196 | regions of different groups are neither that close nor in related files |
| Grouping.GroupHangsTogether | cmd/composite_plan.go:186-215 | however a group is divided in two, a region of one part is close or related to one of the other |
| Grouping.GroupsAreInOrder | cmd/composite_plan.go:161-215 | regions stand by path, first and last line inside each group, and groups by their first regions |
| RegionGroups.SweepGivesComponents | cmd/composite_plan.go:188-194 | within one file all pairs give the same groups as one pass that opens a group when a start lies more than 80 lines beyond all earlier ends |
| RegionGroups.NeighbourComparisonIsNotEnough | cmd/composite_plan.go:188-194 | comparing each hunk with its predecessor only would split a component |
| RegionGroups.ChangedFileRelations | cmd/composite_plan.go:217-261 | the relation table is symmetric, irreflexive, stays inside the changed paths, and relates two paths exactly when some link of the graph does |
| Scope.MatchAnyPath | internal/adversary/detection.go:51-60 | true if and only if some pattern matches some path |
| Scope.RelevantFiles | internal/adversary/detection.go:22-30 | the relevant paths are, in order, the paths of exactly the changed files that pass the change type, pattern and previous path tests |
| Scope.RelevantMeans | internal/adversary/detection.go:12-30 | a file counts exactly when its change type is asked for and a pattern of the detection, or of the legacy triggers where nothing else is declared, names it or the file it was renamed from |
| Scope.SortedUnique | pkg/detection/detection.go:149-162 | the same names, strictly rising: sorted and each once |
| Scope.RisingIsUnique | pkg/detection/detection.go:142-162 | only one such list exists, so a normalized result does not depend on the order and repeats it was made from |
| Scope.EvaluateDeclarativeDetection | internal/adversary/detection.go:12-49 | the relevant files are listed sorted and each once; a change applies if and only if some changed file is relevant; the repository match, and which of the five reasons is given, follow from the declaration |
| Scope.ReviewContextForFiles | internal/adversary/review_scope.go:27-40 | keeps exactly the changed files with a listed path, in order, duplicates of a path included |
| Scope.ScopeReviewContext | internal/adversary/review_scope.go:13-25 | narrows a declared manifest's context to its relevant files and leaves any other context alone |
| Scope.ScopeKeepsRelevant | internal/adversary/review_scope.go:13-25 | with distinct paths scoping keeps a file if and only if the file itself is relevant |
| Scope.ScopeFixedPoint | internal/adversary/review_scope.go:13-25 | scoping a context of relevant files changes nothing, so scoping twice is scoping once |
| Routing.PlanGroups | cmd/composite_plan.go:92-100 | one group for each component, in order, with the context of its own paths |
| Routing.UniqueRegionPaths | cmd/composite_plan.go:263-275 | lists every trimmed non-empty path of the regions once |
| Routing.GroupCarriesFileIffTrimmed | cmd/composite_plan.go:263-275 | the group of a region carries that region's changed file if and only if trimming leaves the path alone |
| Routing.SpacedFileIsLost | cmd/composite_plan.go:263-275 | a changed file whose name begins with a blank is missing from the group of its own hunk |
| Routing.RouteCompositeReviewGroup | cmd/composite_run.go:458-487 | a group is routed with the files and regions its manifest finds relevant, whole where the manifest cannot be evaluated, or not at all |
| Routing.RoutedKeeps | cmd/composite_run.go:458-487 | a routed group is the planned one with exactly the files that are relevant to a declared scope, and the regions of these files |
| Routing.NotRoutedIff | cmd/composite_run.go:458-487 | a group is left out if and only if the scope is declared and the file of no region is relevant |
| Routing.RunScope | internal/adversary/runner.go:274-338 | for any manifest, kind of comparison, force or all-files, the change a run reviews, or that the run is reported as skipped; with force or all-files it reviews the whole change, and is skipped if and only if there are triggers and the comparison shows no changed file |
| Routing.RunMeans | internal/adversary/runner.go:274-338 | without force and all-files a declared scope is run over exactly its relevant files and skipped when there is none; any other run covers the whole change and is skipped if and only if there are triggers and none names a changed file |
| Routing.PlannerAndRunnerAgree | internal/adversary/runner.go:274-338 | a batch routed under a declared scope is never skipped: scoping it again in the runner keeps every changed file and every assigned region |
| Routing.BatchSkippedIff | internal/adversary/runner.go:274-338 | for any manifest a routed batch is skipped if and only if its scope is undeclared and its legacy triggers match none of the files |
| Routing.UndeclaredBatchCanBeSkipped | internal/adversary/runner.go:303-338 | a concrete manifest and group that are routed and then skipped |
| Batches.BatchCompositeReviewGroups | cmd/composite_run.go:489-517 | the loop with `current` and `currentLines` produces the greedy cut, each batch merged |
| Batches.MergeCompositeReviewGroups | cmd/composite_run.go:519-541 | a merged batch holds all regions in order and every changed file once by path |
| Batches.DrainStaysAhead | cmd/composite_run.go:489-517 | from any point on greedy needs no more batches than any other allowed cut of the same groups |
| Batches.CutIsOptimal | cmd/composite_run.go:489-517 | batches concatenate to the groups in order, none is empty, batches of several groups respect both limits, and no allowed cut into consecutive batches is shorter |
| Batches.BatchesKeepTheLimits | cmd/composite_run.go:489-517 | a batch of several groups stays within the lines and groups allowed, and a batch ends only where the next group would break a limit |
| Jobs.RoutedComposedRunJobs | cmd/composite_run.go:368-424 | the job list is the root job followed by each reviewer's jobs; the statistics count its batches, the groups these jobs carry as routed, and the other assignments as skipped |
| Jobs.CandidatesAccountedIff | cmd/composite_run.go:368-424 | candidate assignments equal routed plus skipped if and only if the root is included, is listed at most once, or there is no group |
| Jobs.RootListedTwiceIsMiscounted | cmd/composite_run.go:368-424 | a root listed twice and left out: one assignment is announced where there is none |
| Jobs.ReviewerJobsConserve | cmd/composite_run.go:392-420 | a batched reviewer's jobs carry exactly the regions routing kept, in order, and their group and line counts add up to the routed totals |
| Jobs.JobsTell | cmd/composite_run.go:385-424 | batch jobs are numbered from one and carry the context, regions, group count and line count of their own batch; a reviewer of the full change gets one job over all of it |
| Jobs.ReviewerCoverage | cmd/composite_run.go:368-487 | the jobs of a listed reviewer carry a changed region exactly as often as the change lists it if the reviewer sees the full change, declares no scope, or has a relevant changed file under the region's untrimmable path, and never otherwise |
| Jobs.WantedRegionIsReviewed | cmd/composite_run.go:368-487 | a changed region that a batched reviewer's declared scope asks for is in some job of that reviewer, and the runner reviews that job with all its files and regions |
| Jobs.BatchJobTotals | cmd/composite_run.go:543-562 | region lists, group counts and line counts are conserved by any cut into batches |
| Jobs.JobsSurviveTheRunner | cmd/composite_run.go:368-424 | every batch job of the list, made from the planner's groups for a reviewer with a declared scope, is run, with all its changed files and all its regions |
| Jobs.JobSkippedIff | cmd/composite_run.go:368-424 | for any manifest a batch job of the list is skipped if and only if its scope is undeclared and its legacy triggers match none of its files |
| Sources.Collector.Read | internal/findingverify/source.go:88-124 | answers as the files the cache shows, loads a missing file once, and never changes what the cache shows |
| Sources.ReadAnswers | internal/findingverify/source.go:88-124 | every answer names the request, carries the hash of its content as ID, and either is unavailable or covers the request, end of file included |
| Sources.ReadMeans | internal/findingverify/source.go:88-124 | a valid request is answered with exactly the requested lines as far as the file has them, unless the file cannot be read, the range starts behind its end, or the lines take more than 32 KiB |
| Sources.ValidPathIff | internal/findingverify/source.go:82-84 | a path is accepted if and only if it is a list of names joined by slashes, not below .git and not too long |
| Sources.AnswerShowsTheFile | internal/findingverify/source.go:111-123 | a line that a readable answer holds lies in the requested range and is that line of the file, and the end of file is reported exactly when the answer reaches it |
| Sources.CachedReadIsView | internal/findingverify/source.go:98-110 | reads through the cache do not depend on what was read before |
| Sources.LineCountOfJoined | internal/findingverify/verify.go:376-381 | splitting and counting undo joining lines and closing them with a line feed |
| Sources.CleanMeansUtf8 | internal/findingverify/verify.go:390-402 | JSON encoding leaves text alone, and the hash of its encoding stable, if and only if the text is UTF-8 |
| Verify.RequestDecision | internal/findingverify/verify.go:255-317 | up to three attempts with correction feedback, ending in the first valid decision or the failure that stops them |
| Verify.VerifyCandidate | internal/findingverify/verify.go:179-237 | the two-round loop gives the decision, calls and saved sources of the protocol and changes nothing else of the candidate |
| Verify.ServeRequests | internal/findingverify/verify.go:206-230 | the loop over the requests of a round leaves the saved and working sources of serving them one after the other |
| Verify.ServeRequest | internal/findingverify/verify.go:207-229 | one requested range is skipped when covered, else taken from the saved sources, else read and saved |
| Verify.DecisionCitesChangedRegion | internal/findingverify/verify.go:361-374 | true if and only if some citation names a readable head-side source and a line of it inside a changed region |
| Verdicts.AcceptedIff | internal/findingverify/verify.go:319-359 | an answer is accepted if and only if it keeps each of the rules for decisions |
| Verdicts.FlawIsReal | internal/findingverify/verify.go:319-359 | the reason a refused answer is given names a rule that it breaks |
| Verdicts.StageTranscript | internal/findingverify/verify.go:255-317 | a stage makes at most three calls; each input shows the working candidate and what was wrong before, each reply but the last was refused, and the last reply, the third refusal or an oversized input decides |
| Verdicts.FirstAnswerDecides | internal/findingverify/verify.go:179-205 | a keep or reject of high confidence stands as it is; an answer that is undecided and asks for nothing, or a failure, ends unresolved; nothing is read |
| Verdicts.SecondAnswerDecides | internal/findingverify/verify.go:179-237 | otherwise the requests are served, and the second answer stands if it is a keep or reject of high confidence and ends unresolved if not |
| Verdicts.ServingMeans | internal/findingverify/verify.go:206-229 | nothing happens for lines at hand; otherwise the first kept source for the request is used, else the reader is asked and its answer kept, else the gap is noted |
| Verdicts.RequestsAreAnswered | internal/findingverify/verify.go:206-229 | after serving, each request is answered among the working sources by its lines or by a reason |
| Replay.ValidateSnapshot | internal/findingverify/verify.go:149-174 | accepts exactly the snapshots with the known version, at most 1000 candidates, distinct non-empty candidate IDs, valid regions and sources identified by their own content |
| Verdicts.RunIff | internal/findingverify/verify.go:106-174 | a run reports on exactly the snapshots of the known version, at most 1000 candidates and 64 MiB, with distinct IDs, well-formed regions and sources identified by their own content |
| Verdicts.ReportTells | internal/findingverify/verify.go:106-147 | a report keeps the candidates in order, each with the sources its verification has kept, beside its own decision, and all calls in the same order |
| Replay.CollectorIsGoodReader | internal/findingverify/source.go:88-124 | the collector's reader meets the contract that replay, citation safety and publication rest on |
| Replay.FetchReplays | internal/findingverify/verify.go:207-229 | the packet a first run saved serves the same requests, overlapping or repeated ones included, in the same way without a reader |
| Replay.VerifyReplays | internal/findingverify/verify.go:179-237 | verifying a candidate again from its saved sources without a reader gives the same decision, calls and sources |
| Replay.VerifyIsBounded | internal/findingverify/verify.go:179-237 | at most six provider calls and three reads for each candidate, and saved sources only grow |
| Replay.FinalDecisionIsCited | internal/findingverify/verify.go:319-374 | a keep or reject is of high confidence and cites at least one line, every cited line lies in a source saved with the candidate, and a diff keep cites a changed head-side line |
| Replay.RunIsCitationSafe | internal/findingverify/verify.go:106-147 | in every report each decision belongs to its own candidate and is citation safe with respect to the saved sources |
| Replay.ReplayEquivalence | internal/findingverify/verify.go:106-232 | running a report's snapshot without a reader gives the same report if and only if all source text is UTF-8 and the snapshot still fits the limit |
| Replay.StrayByteBreaksReplay | internal/findingverify/verify.go:390-402 | one byte that is not UTF-8 makes a saved report unreadable |
| Replay.FullSnapshotBreaksReplay | internal/findingverify/verify.go:106-120 | a provider that asks for one line and a patch that leaves no room for it: all text is UTF-8, and the report the run saved is refused as too large |
| Workers.AdvanceKeepsRemaining | internal/findingverify/verify.go:122-147 | one atomic step of a worker keeps the outcome in prospect, whatever the other workers have put into the cache |
| Workers.FileIsLoadedIff | internal/findingverify/verify.go:206-229 | a step loads a file into the shared cache if and only if it serves a request that no working and no kept source answers |
| Workers.StepKeepsInv | internal/findingverify/verify.go:122-147 | every action of the pool keeps each candidate in one slot or with one worker, and a filled slot is never written again |
| Workers.ScheduleDoesNotMatter | internal/findingverify/verify.go:122-147 | for every interleaving of up to four workers each candidate is handed out once and its slot ends up as in a sequential run |
| Workers.PoolReportsTheRun | internal/findingverify/verify.go:106-147 | with or without a reader, the decisions and the call list assembled from the slots are those of the sequential run |
| Workers.PoolReportReplaysIff | internal/findingverify/verify.go:106-232 | the report any schedule of the workers leaves behind replays to itself if and only if all source text is UTF-8 and the snapshot still fits the limit |
| Workers.PoolReplays | internal/findingverify/verify.go:102-147 | a replay's own pool, without a reader, assembles the saved report again under every schedule |
| Workers.PoolNeverStuck | internal/findingverify/verify.go:122-147 | as long as a worker has not exited, some action is enabled |
| Workers.PoolTerminates | internal/findingverify/verify.go:122-147 | every action uses up some of a bounded measure, so every schedule is finite |
| Candidates.Prepare | internal/findingverify/source.go:126-164 | reads both sides around each of the first four valid cited files, the policy files and the patches, and says so in the candidate |
| Candidates.PreparedExtends | internal/findingverify/source.go:126-164 | preparing adds at most ten sources, each identified by its content, and changes nothing else but the patch |
| Preparation.PreparedShows | internal/findingverify/source.go:126-164 | the verifier is shown, beyond what the candidate came with, exactly both sides around the cited line of each of the first four cited files with a valid path, the readable policy files, the patches of these files, and the names of the first hundred changed files |
| Preparation.OpenedShows | cmd/finding_verification.go:26-48 | the candidate of each finding is prepared from it alone, or says that there is no pinned context, and the snapshot names the revisions of the collector |
| Candidates.BuildCandidates | cmd/finding_verification.go:26-48 | one candidate for each finding of each run with a result, in order, prepared or marked as without context |
| Candidates.CandidateAt | cmd/finding_verification.go:33-48 | the candidate at the running index of run `i`, finding `j` carries that finding, its name and the changed regions of its run |
| Candidates.CandidateIdTells | cmd/finding_verification.go:39 | a candidate's name determines its run and its finding |
| Candidates.CandidateNamedOnce | cmd/finding_verification.go:33-48 | no two candidates of a snapshot share a name |
| Candidates.OpenedIsValidIff | cmd/finding_verification.go:26-48 | the built snapshot is accepted by a verification run if and only if it has at most 1000 findings and runs with findings have well-formed regions |
| Publish.FallbackSourceAtLine | cmd/finding_verification.go:179-204 | finds the first readable, non-blank head-side source that holds the line and, for a diff review, a changed region |
| Publish.FallbackCausalCitation | cmd/finding_verification.go:158-177 | the first anchoring citation of the verifier, else the first anchoring line of the finding's evidence |
| Publish.AnchorExistsIff | cmd/finding_verification.go:158-204 | there is an anchor if and only if some citation, or some evidence entry with a line, names a usable line of a source prepared or retrieved for the candidate |
| Publish.AnchorIsFirst | cmd/finding_verification.go:158-204 | the anchor is the line of the first citation that can anchor, in the first source that fits, and only where no citation can, that of the first such evidence entry |
| Publish.ReanchoredMeans | cmd/finding_verification.go:131-156 | the first evidence entry that shows the anchor's line moves to the front, and an entry is added if and only if none shows it |
| Publish.ReanchorEvidence | cmd/finding_verification.go:131-156 | the new evidence list, what is left in the array it was given, and that this array keeps its contents if and only if nothing is moved or all entries from the moved one on are equal |
| Publish.CallerArrayKeptIff | cmd/finding_verification.go:131-156 | the condition under which the given array is kept, for any evidence and anchor |
| Publish.CallerArrayCanChange | cmd/finding_verification.go:146-150 | a concrete array whose second entry is overwritten |
| Publish.PublishedFindingIsAnchored | cmd/finding_verification.go:131-204 | an anchored finding starts with evidence spanning a usable head-side line, changed unless the repository is reviewed whole, and the rest of its evidence is the original list minus the moved entry |
| Publish.PublishedWithoutAnchor | cmd/finding_verification.go:100-112 | a finding published without an anchor is a keep, and any usable changed line it cites lies in a blank source |
| Publish.BlankFindingIsPublished | cmd/finding_verification.go:58-204 | a concrete snapshot and provider whose run publishes a diff finding that no line can anchor, kept for a changed line of a blank source |
| Publish.DiffFindingIsAnchoredUnlessBlank | cmd/finding_verification.go:58-204 | in every run a published diff finding is anchored to a changed line or cites one in a head-side source of nothing but white space |
| Publish.DecisionsArePaired | cmd/finding_verification.go:33-84 | in every report the decision and the candidate at the running index of run `i`, finding `j` carry that finding's name and that finding, and no other decision carries the name |
| Publish.FilteredRunIsRight | cmd/finding_verification.go:62-94 | each filtered run holds, in order, exactly the findings their own decisions publish, each unchanged but for its evidence: it starts at a usable head-side line, a changed one in a diff review, or there is no anchor, the finding is untouched, and a diff keep cites a changed head-side line of blank source |
| Publication.FindingIsLeftIff | cmd/finding_verification.go:62-129 | a finding is left if and only if its own decision is a keep, or it is undecided without a failure or an operational reason, the finding is of high confidence, and a citation or evidence line names a usable line |
| Publication.UnverifiedIsWithheld | cmd/finding_verification.go:100-129 | without a provider, a collector or a prepared context no finding is left |
| Publish.VerifyComposedResults | cmd/finding_verification.go:26-98 | candidates are built, verified and filtered with the collector's reads, or the run's refusal is returned |
| Publish.FilterRuns | cmd/finding_verification.go:62-94 | the loops with the running index filter and re-anchor each run by its own decisions |
| Publish.FindingsLeftArePublished | cmd/finding_verification.go:62-94 | the number of findings left over all runs is the number of published candidates |
| Publish.DispositionCounts | cmd/finding_verification.go:206-220 | kept plus fallback equals the published candidates, and the four counts sum to the candidates |
| Aggregate.DuplicateFindingIndex | cmd/composite_run.go:748-765 | the first existing finding that duplicates the candidate by any of the three clauses, no earlier one doing so, or -1 when none does |
| Aggregate.MergeFinding | cmd/composite_run.go:730-746 | severity, confidence, evidence, tags and sources are merged and the longer texts kept |
| Aggregate.MergeComposedFinding | cmd/composite_run.go:697-707 | one finding is merged into its first duplicate or appended under a fresh ID |
| Aggregate.AggregateComposedReview | cmd/composite_run.go:571-650 | findings and suppressed findings are composed separately from all runs with a result, sorted stably, and renamed where suppressed IDs collide |
| Aggregate.MergeDominates | cmd/composite_run.go:730-746 | merging duplicates keeps every claim already represented and adds the new one, with no lower severity or confidence, no tag lost, no evidence lost by file, line and message, and no text shortened |
| Aggregate.AggregationLosesNoClaim | cmd/composite_run.go:571-775 | every finding of every run with a result is recorded as a source of some output finding with at least its severity, confidence, tags, text lengths and evidence by file, line and message, and the same normalised details |
| Aggregate.AggregationInventsNoClaim | cmd/composite_run.go:571-775 | every composed finding makes the claim of some reviewer's finding |
| Claims.GraverComesFirst | cmd/composite_run.go:637-640 | in the composed list no finding stands behind one of lesser severity, in the order critical, high, medium, low, anything else |
| Claims.RepresentativeIsAsGrave | cmd/composite_run.go:730-746 | each finding is recorded in one whose severity and confidence, by name, are at least its own |
| Claims.FieldsFindTheWords | cmd/composite_run.go:767-775 | normalization finds the words of a text, whatever white space parts and surrounds them |
| Claims.DuplicatesMeans | cmd/composite_run.go:748-847 | findings are duplicates exactly when they make the same summary for the same reasons at one place under one group key or within two lines under titles that share 3 in 5 words, or share a file, 7 in 10 title words, 3 in 5 summary words and their reasons |
| Claims.MergeMeans | cmd/composite_run.go:730-746 | merging takes the greater severity and confidence by name, the longer texts, all evidence and tags without repeats and one more origin, and changes nothing else |
| Claims.ComposeMeans | cmd/composite_run.go:697-707 | a finding is merged into the first duplicate if and only if there is one, no other finding changes, and a new finding whose ID is taken gets a suffix |
| Claims.AggregationHasNoTwins | cmd/composite_run.go:602-650 | no two composed findings make the same claim at one place, in either list |
| Claims.SuppressedAreNamedApart | cmd/composite_run.go:641-648 | a suppressed finding is renamed exactly when a published or an earlier suppressed one has its ID |
| Claims.ResultIff | cmd/composite_run.go:571-590 | there is a result if and only if the root's first full-change envelope, or else the first envelope, has a protocol version |
| Aggregate.StableSortIsStable | cmd/composite_run.go:571-650 | findings come by falling severity, and findings of equal severity keep their order |
| ComposeSearch.CollectUnseen | internal/application/compose_selection.go:64-74 | keeps each new reference of a wave once and marks it as seen |
| ComposeSearch.PlanCompose | internal/application/compose_selection.go:39-143 | the wave loop ends on any graph, never deeper than the maximum, with the plan of the search or its error |
| ComposeSearch.SelectionsAreReachableIdentities | internal/application/compose_selection.go:39-143 | on success exactly the references reachable through first-seen representatives were loaded, each once; there is one selection for each identity among them, made for the reference visited first; and roots form a prefix |
| ComposeSearch.ScopeNeverChangesDiscovery | internal/application/compose_selection.go:87-100 | two plans that differ only in scope fail alike or find the same selections in the same order, differing in selected and reason only |
| ComposeSearch.AlwaysSelected | internal/application/compose_selection.go:87-143 | roots, members without metadata, and without a scope all members are selected and listed, and a selection is a root exactly when its reference is one |
| ComposeSearch.PlanListsExactlyTheSelected | internal/application/compose_selection.go:137-141 | the reference list of a plan is, in order, the resolved references of exactly the selections that are selected |
| Discovery.PlanTells | internal/application/compose_selection.go:39-143 | every reference of a plan is at most eight uses away from a root; each selection says what metadata, roots and rule say; no two have one identity; all uses of a loaded package are followed; the plan is complete exactly when everything loaded; it keeps the directories of the roots |
| Discovery.FailureIsReal | internal/application/compose_selection.go:62-134 | a search fails only for a load, a relative use without a directory, an unresolvable use or a package with uses eight uses away from a root |
| Glob.GlobToRegexp | internal/adversary/match.go:48-77 | the index loop writes the anchored translation of the pattern, token by token |
| Glob.CompilesToItems | internal/adversary/match.go:48-77 | the written text parses, whatever the pattern, to one regular expression item for each token |
| Glob.ItemsMean | internal/adversary/match.go:48-77 | matching the items against a path is cutting the path into one piece for each glob token |
| Glob.TranslationPreservesMeaning | internal/adversary/match.go:48-77 | for every pattern and path the compiled expression exists and accepts exactly what a direct glob matcher accepts |
| Glob.LinewiseIsEnough | internal/adversary/match.go:55-63 | on paths without line feeds the compiled `**` is unrestricted |
| Glob.FaithfulForAllPatternsIffNoLineFeed | internal/adversary/match.go:55-63 | a path is matched as meant by every compiled pattern if and only if it has no line feed |
| Glob.DeepMissesLineFeed | internal/adversary/match.go:55-63 | a concrete path that `**` is meant to accept and its compiled form refuses |
| Glob.FaithfulOnAllPathsIffNoDeep | internal/adversary/match.go:55-63 | a pattern is compiled faithfully for all paths if and only if it uses no `**` |
| Glob.GlobMatch | internal/adversary/match.go:36-46 | trims and unifies slashes, then matches by meaning; a blank pattern matches nothing |
| Glob.ShouldRunForChangedFiles | internal/adversary/match.go:9-34 | runs when forced, without patterns, or if and only if some non-blank pattern matches some changed file |
| Glob.PatternRules | internal/adversary/match.go:48-77 | the matching rule of each part of a pattern: character, question mark, star, double star, and double star with a slash |
| NameStatus.ParseStatusCode | internal/adversary/git.go:177-206 | the kind and score of a status code, or that it is unsupported |
| NameStatus.ParseGitChanges | internal/adversary/git.go:141-175 | the loop over the fields parses all records, or refuses the whole output for one of four reasons |
| NameStatus.ParseIffPrinted | internal/adversary/git.go:141-206 | an output is accepted as a change list if and only if it is that list printed with some spelling of its status codes |
| NameStatus.ParseUndoesPrint | internal/adversary/git.go:141-206 | parsing the printed form of any valid change list gives the list back |
| NameStatus.ParseDistributes | internal/adversary/git.go:141-175 | parsing distributes over concatenation of accepted outputs |
| NameStatus.RefusalMeans | internal/adversary/git.go:141-206 | an output is refused exactly because it does not end with a NUL, or because complete records are followed by what is no record, for the reason given |
| JsonSurgery.JsonObjectValueBounds | internal/cataloginit/runnable.go:328-365 | finds the bounds, or says whether the key is missing, is no object, or is unterminated |
| JsonSurgery.ScanObject | internal/cataloginit/runnable.go:339-364 | the loop with `depth`, `inString` and `escaped` stops at the first closing brace at depth zero |
| JsonSurgery.StartMeans | internal/cataloginit/runnable.go:328-338 | the object starts at the first brace behind the first place where the key stands in quotation marks; the key is missing, or no object, exactly when there is no such place or no brace behind it |
| JsonSurgery.BoundsEncloseObject | internal/cataloginit/runnable.go:328-365 | the bounds end where the brace depth outside string literals first returns to zero, and are refused as unterminated only when it never does |
| JsonSurgery.LiteralEndsIff | internal/cataloginit/runnable.go:342-351 | a quotation mark ends a string literal if and only if an even number of backslashes stands before it |
| JsonSurgery.ReplaceJsonObjectValue | internal/cataloginit/runnable.go:312-326 | the document with its object replaced by the template's, or which of the two lacks one and why |
| JsonSurgery.PutGet | internal/cataloginit/runnable.go:312-326 | replacing succeeds if and only if both documents hold an object for the key; reading afterwards gives the template's object, and no byte outside the bounds changes |
| JsonSurgery.GetPut | internal/cataloginit/runnable.go:312-326 | replacing with a document's own object gives the document back |
| JsonSurgery.PutPut | internal/cataloginit/runnable.go:312-326 | replacing twice is replacing with the last template |
| References.RegisterExactRef | cmd/artifact_pull.go:102-120 | against a store others write to, the call ends as its resolve and compare-and-swap steps say |
| References.RegisterRefCas | cmd/artifact_pull.go:125-134 | a lost update succeeds only when the reference is found at the client's own digest |
| References.CallMeans | cmd/artifact_pull.go:102-134 | when a call returns, success means the reference is at the digest, and a lost update with a working store that it is not |
| References.CallEnds | cmd/artifact_pull.go:102-134 | a call breaks off only over a broken operation and then leaves the reference alone; it succeeds at once when the reference is at the digest, and always when nobody interferes |
| References.ReplacedWasObserved | cmd/artifact_pull.go:102-134 | whenever a client changes the reference, in any interleaving, it has itself read the value it replaces earlier in its call, and it writes its own digest |
| References.ObservedWasReal | cmd/artifact_pull.go:102-120 | what a client is about to replace was the value of the reference when that client read it |
| References.SuccessHeldTheReference | cmd/artifact_pull.go:102-134 | in any interleaving with clients and other writers, a client that succeeded had the reference at its digest right after a step of its own call |
| References.ValueIsAccounted | cmd/artifact_pull.go:102-134 | the reference always holds its first value, a successful client's digest, or what somebody else wrote |
| References.AgreeingClientsAllSucceed | cmd/artifact_pull.go:122-124 | any number of clients with one digest all succeed in any interleaving, within three steps each |
| Remove.SelectRemoveTargets | cmd/remove.go:402-443 | the entries whose digest a selector asks for, or the first blank or unmatched selector |
| Remove.TargetsMean | cmd/remove.go:253-263 | the targets are, each once, exactly the entries whose digest is carried by an entry some selector matches, or all entries |
| Remove.SelectionFailsIff | cmd/remove.go:402-430 | a selection fails for its first selector that is blank or, where a match is required, matches nothing, and succeeds when there is none |
| Remove.MatchesGiveTargets | cmd/remove.go:226-234 | the closing not-found check can never fire |
| Remove.SummarizeRemoved | cmd/remove.go:277-297 | one item for each digest, for the first target that carries it |
| Remove.OneItemPerDigest | cmd/remove.go:299-305 | the planned deletions counted by a dry run are the items it lists |
| Remove.DeleteStoredRef | cmd/remove.go:310-328 | deletes nothing but the given reference at the given digest; it is gone only if it was deleted or found absent, and stuck only when it stands at another digest |
| Remove.RemovePass | cmd/remove.go:158-186 | every deletion of a pass is of a target at its planned digest; undisturbed, all targets are gone and reported |
| Remove.NothingLeft | cmd/remove.go:143-155 | after an undisturbed pass nothing matches any more |
| Remove.RemoveLocal | cmd/remove.go:121-250 | with arbitrary other writers success means no reference of the final snapshot matches and every deletion was justified by the snapshot of its pass; every reported item is about a selected reference that was found absent or was deleted, every deletion is reported, and it gives up only over the store, a bad selector, or matches that are still there after eight passes or have come back since the last; undisturbed, it reports the dry run's list and removes exactly the references with a listed digest |
| Remove.DryRunRemoval | cmd/remove.go:122-138 | lists what would be removed and changes nothing |
| Inventory.VersionOrder | cmd/auto_pull.go:313-317 | version precedence, section 11 of Semantic Versioning 2.0.0, is a strict total order on versions without build metadata |
| Inventory.VersionLessMeans | cmd/auto_pull.go:313-317 | the order is the one of section 11: the first difference among major, minor and patch decides, a prerelease is below its release, and prereleases compare by their first different identifier or by length |
| Inventory.PreferMeans | cmd/auto_pull.go:304-332 | higher versions are preferred to lower ones, any version to `latest`, that to other labels, these in falling string order, and anything to nothing |
| Inventory.PreferIsStrictWeakOrder | cmd/auto_pull.go:304-332 | the layered preference over versions, `latest`, other labels and nothing is a strict weak order |
| Inventory.BetterIsStrictWeakOrder | cmd/inventory.go:281-289 | so is the preference over rows, and rows that tie have the same reference and equal versions |
| Inventory.BestIsMaximal | cmd/inventory.go:191-212 | the row kept for a name and origin is one of the competing rows, and none of them is better |
| Inventory.BestIgnoresOrder | cmd/inventory.go:183-219 | it does not depend on the input order, up to equal version and equal reference |
| Inventory.CollectPairs | cmd/inventory.go:188-213 | the loop keeps the best local and catalog row of each name, in order of first appearance |
| Inventory.MergeInventoryByName | cmd/inventory.go:183-219 | one item for each package name, composed from its two best rows |
| Inventory.OutdatedIff | cmd/inventory.go:221-250 | an installed package is outdated if and only if some catalog row is preferred to every installed row of the name |
| Inventory.ItemShowsNewestInstalled | cmd/inventory.go:183-250 | an item is local exactly when a row of the package is installed, and shows an installed row that no installed row has a higher version than |
| Inventory.OutdatedByVersion | cmd/inventory.go:221-250 | an installed version is outdated if and only if a catalog row of the package has a higher one, and the latest version shown is the highest of them |
| Inventory.ItemTexts | cmd/inventory.go:221-279 | names and descriptions come from the installed row first, the reference from the catalog first, the digest from the installed row only |
| Inventory.BestHasSmallestReference | cmd/inventory.go:281-289 | between rows that no version decides, the smaller reference is kept |
| Inventory.KeysInOrder | cmd/inventory.go:188-219 | packages are listed in the order of their first rows |
| Inventory.StatusIgnoresOrder | cmd/inventory.go:183-250 | the packages listed and their statuses do not depend on the input order |

## Left out

- Replay.ReplayEquivalence: takes the provider as a fixed function of its input, source hashes and input digests as injective, and the size of an encoded snapshot as a given function; cancellation and timeouts are not modelled.
- Replay.RunIsCitationSafe: strings other than file text and patches are taken to be valid UTF-8.
- Verify.RequestDecision: the wording of the messages for flawed decisions is abstracted to the rule that was broken, and provider metadata beyond usage is left out.
- Sources.Collector.Read: one read is one atomic step, as under the collector's mutex; how files are read from Git or the worktree is a function.
- Workers.ScheduleDoesNotMatter: a run that is cancelled while workers are busy is not modelled.
- Aggregate.AggregationLosesNoClaim: metadata is reduced to the list of sources; malformed metadata, sources nested in the metadata of a finding that is merged away, observations, notes and the composed opinion are not modelled.
- Aggregate.MergeDominates: as in the code, evidence counts as the same by file, line and message, so an entry that differs in its end line only is dropped; the snippet and metadata of evidence are not modelled.
- Aggregate.MergeComposedFinding: that IDs are unique afterwards is not claimed, because only one short suffix is added; hashing, splitting into words and byte lengths are functions.
- Glob.TranslationPreservesMeaning: patterns are sequences of characters, so patterns that are not valid UTF-8 are not modelled, and the regular expression language is the fragment a translation can contain.
- RegionGroups.ChangedFileRelations: reading the import, importer and test links out of the repository graph is not modelled; they are a list.
- Glob.GlobMatch: the separator of the host is a slash.
- Routing.RunScope: that both refs must be given, and a failing comparison of them, are left out; the files between the refs are an input.
- Candidates.BuildCandidates: the names of the reviewer and of its scope, which a candidate also carries, are left out, and line numbers are unbounded.
- Publish.VerifyComposedResults: saving the report to a file, and returning early when the context is cancelled, are left out.
- Publish.FilterRuns: works on values; what re-anchoring does to the array of a finding is stated by Publish.ReanchorEvidence.
- Aggregate.AggregateComposedReview: the observations, failure notes and totals that are composed beside the findings are left out.
- ComposeSearch.PlanCompose: metadata of a reference does not change during the search; resolving uses and the selection rule before download are functions.
- References.AgreeingClientsAllSucceed: assumes that the store answers and that no other program writes the reference; without that a client may fail, as the other results allow.
- Remove.RemoveLocal: selector matching and the display order are functions, the latter a permutation; garbage collection may fail but touches no reference, and how many records it reclaims is not modelled.
- Inventory.PreferIsStrictWeakOrder: which labels are read as versions, and lower-casing, are functions.
- The exhaustive job list, availableCandidates, FilterAndOrderSelections and renderEnsureResults: they would add only easy members or promise no clean law.
- File, process, network and OCI access, flags, text output and telemetry: input and output only.
