/** Narrowing a review to the files a manifest declares (internal/adversary/detection.go, review_scope.go). */
module Scope {
  import opened Prelude
  import opened Review
  import opened Glob

  // ---- declarative detection ----

  predicate AnyPathMatches(patterns: seq<string>, paths: seq<string>) {
    exists pattern, path :: pattern in patterns && path in paths && GlobMatchSpec(pattern, path)
  }

  method MatchAnyPath(patterns: seq<string>, paths: seq<string>) returns (hit: bool)
    ensures hit == AnyPathMatches(patterns, paths)
  {
    for i := 0 to |patterns|
      invariant forall p, q :: p in patterns[..i] && q in paths ==> !GlobMatchSpec(p, q)
    {
      for j := 0 to |paths|
        invariant forall q :: q in paths[..j] ==> !GlobMatchSpec(patterns[i], q)
      {
        var ok := GlobMatch(patterns[i], paths[j]);
        if ok {
          return true;
        }
        assert paths[..j + 1] == paths[..j] + [paths[j]];
      }
      assert paths[..|paths|] == paths;
      assert patterns[..i + 1] == patterns[..i] + [patterns[i]];
    }
    assert patterns[..|patterns|] == patterns;
    return false;
  }

  predicate Legacy(m: Manifest) {
    && m.detection.files == [] && m.detection.repositoryFiles == [] && m.detection.entrypoint == ""
    && m.filesChanged != []
  }

  /** The patterns detection evaluates: the declared ones, or the legacy triggers when nothing is declared. */
  function DetectionPatterns(m: Manifest): seq<string> {
    if Legacy(m) then m.filesChanged else m.detection.files
  }

  predicate Relevant(m: Manifest, f: ChangedFile) {
    && (m.detection.changeTypes == [] || f.status in m.detection.changeTypes)
    && (AnyPathMatches(DetectionPatterns(m), [f.path])
        || (f.previousPath != "" && AnyPathMatches(DetectionPatterns(m), [f.previousPath])))
  }

  /** The patterns name the file, or the file it was renamed from. */
  ghost predicate Names(patterns: seq<string>, f: ChangedFile) {
    exists p, path :: p in patterns && path in {f.path, f.previousPath} && (path == f.path || path != "")
      && GlobMatchSpec(p, path)
  }

  /**
   * A changed file is relevant exactly when its kind of change is asked for and a pattern names it; the patterns are
   * those of the detection, or the legacy triggers of a manifest without any detection.
   */
  lemma RelevantMeans(m: Manifest, f: ChangedFile)
    ensures var d := m.detection;
            var bare := d.files == [] && d.repositoryFiles == [] && d.entrypoint == "";
            var patterns := if bare then m.filesChanged else d.files;
            Relevant(m, f) <==> (d.changeTypes == [] || f.status in d.changeTypes) && Names(patterns, f)
  {
    hide GlobMatchSpec;
    var patterns := DetectionPatterns(m);
    assert forall path :: AnyPathMatches(patterns, [path]) <==> exists p :: p in patterns && GlobMatchSpec(p, path) by {
      OnePath(patterns);
    }
  }

  lemma OnePath(patterns: seq<string>)
    ensures forall path :: AnyPathMatches(patterns, [path]) <==> exists p :: p in patterns && GlobMatchSpec(p, path)
  {
    hide GlobMatchSpec;
    forall path ensures AnyPathMatches(patterns, [path]) <==> exists p :: p in patterns && GlobMatchSpec(p, path) {
      assert path in [path];
    }
  }

  /** The paths of the relevant files, in the order of the change. */
  function RelevantList(m: Manifest, files: seq<ChangedFile>): seq<string> {
    if files == [] then []
    else
      var last := files[|files| - 1];
      RelevantList(m, files[..|files| - 1]) + if Relevant(m, last) then [last.path] else []
  }

  method RelevantFiles(m: Manifest, context: Context) returns (relevant: seq<string>)
    ensures relevant == RelevantList(m, context.files)
    ensures forall p :: p in relevant <==> exists f :: f in context.files && Relevant(m, f) && f.path == p
  {
    var patterns := DetectionPatterns(m);
    relevant := [];
    for i := 0 to |context.files|
      invariant relevant == RelevantList(m, context.files[..i])
      invariant forall p :: p in relevant <==> exists f :: f in context.files[..i] && Relevant(m, f) && f.path == p
    {
      var changed := context.files[i];
      assert context.files[..i + 1] == context.files[..i] + [changed];
      assert context.files[..i + 1][..i] == context.files[..i];
      if |m.detection.changeTypes| > 0 && changed.status !in m.detection.changeTypes {
        continue;
      }
      var hit := MatchAnyPath(patterns, [changed.path]);
      if !hit && changed.previousPath != "" {
        hit := MatchAnyPath(patterns, [changed.previousPath]);
      }
      if hit {
        relevant := relevant + [changed.path];
      }
    }
    assert context.files[..|context.files|] == context.files;
  }

  // ---- a normalized result: sorted and without repeats ----

  predicate Rising(names: seq<string>) {
    forall i, j :: 0 <= i < j < |names| ==> Less(names[i], names[j])
  }

  /** Puts a new name in its place. */
  function InsertName(name: string, names: seq<string>): (all: seq<string>)
    ensures forall n :: n in all <==> n == name || n in names
  {
    if names == [] || !Less(names[0], name) then [name] + names
    else
      assert names == [names[0]] + names[1..];
      [names[0]] + InsertName(name, names[1..])
  }

  /** The result of sort.Strings. */
  function SortNames(names: seq<string>): (all: seq<string>)
    ensures forall n :: n in all <==> n in names
  {
    if names == [] then []
    else
      assert names == [names[0]] + names[1..];
      InsertName(names[0], SortNames(names[1..]))
  }

  lemma {:induction false} InsertRises(name: string, names: seq<string>)
    requires Rising(names) && name !in names
    ensures Rising(InsertName(name, names))
  {
    hide Less;
    if names != [] {
      LessTotal(name, names[0]);
      if Less(names[0], name) {
        InsertRises(name, names[1..]);
        var rest := InsertName(name, names[1..]);
        forall j | 0 <= j < |rest| ensures Less(names[0], rest[j]) { assert rest[j] in rest; }
      } else {
        forall j | 1 <= j < |names| ensures Less(name, names[j]) { LessTransitive(name, names[0], names[j]); }
      }
    }
  }

  lemma {:induction false} SortRises(names: seq<string>)
    requires forall i, j :: 0 <= i < j < |names| ==> names[i] != names[j]
    ensures Rising(SortNames(names))
  {
    if names != [] {
      SortRises(names[1..]);
      InsertRises(names[0], SortNames(names[1..]));
    }
  }

  method SortedUnique(names: seq<string>) returns (result: seq<string>)
    ensures Rising(result) && forall n :: n in result <==> n in names
  {
    if |names| == 0 {
      return [];
    }
    var seen: set<string> := {};
    result := [];
    for i := 0 to |names|
      invariant forall n :: n in seen <==> n in result
      invariant forall n :: n in result <==> n in names[..i]
      invariant forall j, k :: 0 <= j < k < |result| ==> result[j] != result[k]
    {
      assert names[..i + 1] == names[..i] + [names[i]];
      if names[i] in seen {
        continue;
      }
      seen := seen + {names[i]};
      result := result + [names[i]];
    }
    assert names[..|names|] == names;
    SortRises(result);
    return SortNames(result);
  }

  /** A rising list is fixed by its members, whatever order and repeats they came in. */
  lemma {:induction false} RisingIsUnique(a: seq<string>, b: seq<string>)
    requires Rising(a) && Rising(b) && forall n :: n in a <==> n in b
    ensures a == b
  {
    hide Less;
    assert b == [] || b[0] in b;
    if a != [] {
      assert a[0] in b;
      SameLeast(a, b);
      TailMembers(a);
      TailMembers(b);
      RisingIsUnique(a[1..], b[1..]);
      assert a == [a[0]] + a[1..] && b == [b[0]] + b[1..];
    }
  }

  lemma TailMembers(a: seq<string>)
    requires Rising(a) && a != []
    ensures forall n :: n in a[1..] <==> n in a && n != a[0]
  {
    assert a == [a[0]] + a[1..];
    if a[0] in a[1..] {
      LessAsymmetric(a[0], a[0]);
    }
  }

  lemma SameLeast(a: seq<string>, b: seq<string>)
    requires Rising(a) && Rising(b) && a != [] && b != [] && a[0] in b && b[0] in a
    ensures a[0] == b[0]
  {
    if a[0] != b[0] {
      assert Less(a[0], b[0]) && Less(b[0], a[0]);
      LessAsymmetric(a[0], b[0]);
    }
  }

  datatype Reason = LegacyMatched | FilesMatched | RepositoryOnly | Undeclared | NothingMatched

  /** `applicable` results are of high confidence, all others of low. */
  datatype DetectionResult = DetectionResult(
    applicable: bool, relevant: seq<string>, repositoryMatch: bool, reason: Reason)

  method EvaluateDeclarativeDetection(m: Manifest, context: Context) returns (result: DetectionResult)
    ensures Rising(result.relevant)
    ensures forall p :: p in result.relevant <==> exists f :: f in context.files && Relevant(m, f) && f.path == p
    ensures result.applicable <==> exists f :: f in context.files && Relevant(m, f)
    ensures result.repositoryMatch <==> AnyPathMatches(m.detection.repositoryFiles, context.repositoryFiles)
    ensures result.applicable <==> result.reason.LegacyMatched? || result.reason.FilesMatched?
    ensures result.reason.LegacyMatched? ==> Legacy(m)
    ensures result.reason.FilesMatched? ==> !Legacy(m)
    ensures result.reason.RepositoryOnly? <==> !result.applicable && result.repositoryMatch
    ensures result.reason.Undeclared? <==>
              && !result.applicable && !result.repositoryMatch
              && DetectionPatterns(m) == [] && m.detection.repositoryFiles == []
  {
    hide GlobMatchSpec, RelevantList, Rising;
    var repositoryMatch := MatchAnyPath(m.detection.repositoryFiles, context.repositoryFiles);
    var relevant := RelevantFiles(m, context);
    var changeMatch := |relevant| > 0;
    assert changeMatch ==> relevant[0] in relevant;
    assert forall f :: f in context.files && Relevant(m, f) ==> f.path in relevant;
    var reason :=
      if changeMatch then (if Legacy(m) then LegacyMatched else FilesMatched)
      else if repositoryMatch then RepositoryOnly
      else if |DetectionPatterns(m)| == 0 && |m.detection.repositoryFiles| == 0 then Undeclared
      else NothingMatched;
    relevant := SortedUnique(relevant);
    return DetectionResult(changeMatch, relevant, repositoryMatch, reason);
  }

  // ---- narrowing the context ----

  /** The changed files whose path is in `paths`, in their original order. */
  function KeepFiles(files: seq<ChangedFile>, paths: set<string>): seq<ChangedFile> {
    if files == [] then []
    else
      var last := |files| - 1;
      KeepFiles(files[..last], paths) + if files[last].path in paths then [files[last]] else []
  }

  lemma {:induction false} KeepFilesMembers(files: seq<ChangedFile>, paths: set<string>)
    ensures forall f :: f in KeepFiles(files, paths) <==> f in files && f.path in paths
  {
    if files != [] {
      var last := |files| - 1;
      KeepFilesMembers(files[..last], paths);
      assert files == files[..last] + [files[last]];
    }
  }

  function ScopedTo(context: Context, paths: set<string>): Context {
    context.(files := KeepFiles(context.files, paths))
  }

  method ReviewContextForFiles(context: Context, paths: seq<string>) returns (scoped: Context)
    ensures scoped == ScopedTo(context, set p | p in paths)
  {
    var relevant: set<string> := {};
    for i := 0 to |paths|
      invariant relevant == set p | p in paths[..i]
    {
      relevant := relevant + {paths[i]};
      assert paths[..i + 1] == paths[..i] + [paths[i]];
    }
    assert paths[..|paths|] == paths;
    var files: seq<ChangedFile> := [];
    for i := 0 to |context.files|
      invariant files == KeepFiles(context.files[..i], relevant)
    {
      assert context.files[..i + 1][..i] == context.files[..i];
      if context.files[i].path in relevant {
        files := files + [context.files[i]];
      }
    }
    assert context.files[..|context.files|] == context.files;
    scoped := context.(files := files);
  }

  /** Whether ScopeReviewContext narrows at all. Blank entrypoints count as absent here, unlike in detection. */
  predicate Declared(m: Manifest) {
    m.detection.files != []
    || (m.detection.repositoryFiles == [] && TrimSpace(m.detection.entrypoint) == "" && m.filesChanged != [])
  }

  ghost function RelevantPaths(m: Manifest, files: seq<ChangedFile>): set<string> {
    set f | f in files && Relevant(m, f) :: f.path
  }

  ghost function ScopeSpec(m: Manifest, context: Context): Context {
    ScopedTo(context, RelevantPaths(m, context.files))
  }

  method ScopeReviewContext(m: Manifest, context: Context) returns (scoped: Context, declared: bool)
    ensures declared == Declared(m)
    ensures scoped == if declared then ScopeSpec(m, context) else context
  {
    var patterns := m.detection.files;
    if |patterns| == 0 && |m.detection.repositoryFiles| == 0 && TrimSpace(m.detection.entrypoint) == "" {
      patterns := m.filesChanged;
    }
    if |patterns| == 0 {
      return context, false;
    }
    var result := EvaluateDeclarativeDetection(m, context);
    scoped := ReviewContextForFiles(context, result.relevant);
    assert (set p | p in result.relevant) == RelevantPaths(m, context.files);
    return scoped, true;
  }

  /** With distinct paths, scoping keeps exactly the files that are themselves relevant. */
  lemma ScopeKeepsRelevant(m: Manifest, context: Context)
    requires DistinctPaths(context.files)
    ensures forall f :: f in ScopeSpec(m, context).files <==> f in context.files && Relevant(m, f)
  {
    KeepFilesMembers(context.files, RelevantPaths(m, context.files));
  }

  lemma {:induction false} KeepAll(files: seq<ChangedFile>, paths: set<string>)
    requires forall f :: f in files ==> f.path in paths
    ensures KeepFiles(files, paths) == files
  {
    if files != [] {
      var last := |files| - 1;
      assert files == files[..last] + [files[last]];
      KeepAll(files[..last], paths);
    }
  }

  /** A context of relevant files is a fixed point of scoping. */
  lemma ScopeFixedPoint(m: Manifest, context: Context)
    requires forall f :: f in context.files ==> Relevant(m, f)
    ensures ScopeSpec(m, context) == context
  {
    KeepAll(context.files, RelevantPaths(m, context.files));
  }
}
