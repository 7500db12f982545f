/** What a plan contains, in terms of the metadata (PlanCompose, internal/application/compose_selection.go). */
module Discovery {
  import opened Prelude
  import opened Review
  import opened ComposeSearch

  // ---- one selection ----

  /** The metadata of the reference could be loaded. */
  ghost predicate Loads(env: Env, ref: string) {
    env.metadata(ref).Some? && !env.metadata(ref).value.failed
  }

  /** The reference the metadata names, or else the reference itself. */
  ghost predicate ResolvesTo(env: Env, ref: string, resolved: string) {
    match env.metadata(ref)
    case Some(m) => resolved == if m.reference != "" then m.reference else ref
    case None => resolved == ref
  }

  /** The name and version of a package, or its resolved reference when it could not be loaded. */
  ghost predicate IdentifiedBy(env: Env, ref: string, identity: string) {
    if Loads(env, ref) then
      var m := env.metadata(ref).value;
      identity == m.name + "@" + m.version
    else ResolvesTo(env, ref, identity)
  }

  /** A selection says what the metadata, the roots and the selection rule say. */
  ghost predicate Tells(env: Env, roots: seq<string>, scope: Option<Context>, sel: Selection) {
    && ResolvesTo(env, sel.reference, sel.resolved)
    && (sel.root <==> sel.reference in roots) && (sel.available <==> Loads(env, sel.reference))
    && (sel.root || !sel.available || scope == None ==> sel.selected)
    && (sel.root && sel.available ==> sel.reason == "explicit composition root")
    && (sel.root && !sel.available ==>
          sel.reason == "explicit composition root" + "; metadata unavailable, dependency graph incomplete")
    && (!sel.root && !sel.available ==> sel.reason == "metadata unavailable; retained")
    && (!sel.root && sel.available && scope == None ==> sel.reason == "repository context unavailable; retained")
    && (!sel.root && sel.available && scope != None ==>
          (sel.selected, sel.reason) == env.select(env.metadata(sel.reference).value, scope.value))
  }

  lemma SelectionTells(env: Env, roots: seq<string>, scope: Option<Context>, ref: string)
    ensures Tells(env, roots, scope, SelectionOf(env, roots, scope, ref))
    ensures SelectionOf(env, roots, scope, ref).reference == ref
  {
    assert "explicit composition root" + "" == "explicit composition root";
  }

  lemma IdentityMeans(env: Env, ref: string)
    ensures forall identity :: IdentifiedBy(env, ref, identity) <==> identity == IdentityOf(env, ref)
  {
  }

  // ---- uses ----

  ghost predicate UseOf(env: Env, a: string, b: string) {
    Loads(env, a) && exists u :: u in env.metadata(a).value.uses
                                 && env.useReference(env.metadata(a).value.directory, u) == Some(b)
  }

  /** The use is relative to a directory that is not known. */
  ghost predicate Remote(m: Meta, u: Use) {
    u.path != "" && m.directory == ""
  }

  /** The reference is `n` uses away from a root. */
  ghost predicate Away(env: Env, roots: seq<string>, ref: string, n: nat)
    decreases n
  {
    if n == 0 then ref in roots else exists a :: Away(env, roots, a, n - 1) && UseOf(env, a, ref)
  }

  ghost predicate NoFurther(env: Env, roots: seq<string>, ref: string) {
    exists n :: 0 <= n <= 8 && Away(env, roots, ref, n)
  }

  lemma {:induction false} TargetsMean(env: Env, directory: string, uses: seq<Use>, depth: nat)
    ensures match Targets(env, directory, uses, depth)
            case Ok(nodes) =>
              forall k :: 0 <= k < |uses| ==>
                (uses[k].path == "" || directory != "") && env.useReference(directory, uses[k]) == Some(nodes[k].ref)
            case Err(RemotePath) => exists u :: u in uses && u.path != "" && directory == ""
            case Err(BadUse) => exists u :: u in uses && env.useReference(directory, u) == None
            case Err(_) => false
  {
    if uses != [] {
      TargetsMean(env, directory, uses[1..], depth);
      assert uses == [uses[0]] + uses[1..];
    }
  }

  /** Why a search fails: a package that cannot be followed, at most eight uses away from a root. */
  ghost predicate Fails(env: Env, roots: seq<string>, e: PlanError) {
    match e
    case LoadFailed => exists refs :: env.loadFails(refs) && forall r :: r in refs ==> NoFurther(env, roots, r)
    case TooDeep => exists r :: Away(env, roots, r, 8) && Loads(env, r) && env.metadata(r).value.uses != []
    case RemotePath => exists r, u :: NoFurther(env, roots, r) && Loads(env, r)
                                      && u in env.metadata(r).value.uses && Remote(env.metadata(r).value, u)
    case BadUse => exists r, u :: NoFurther(env, roots, r) && Loads(env, r) && u in env.metadata(r).value.uses
                                  && env.useReference(env.metadata(r).value.directory, u) == None
  }

  // ---- what the search keeps track of ----

  /** The directories of the roots in the list, where they are known. */
  ghost function Voices(env: Env, roots: seq<string>, refs: seq<string>): seq<string> {
    if refs == [] then []
    else
      var (last, before) := (refs[|refs| - 1], Voices(env, roots, refs[..|refs| - 1]));
      match env.metadata(last)
      case Some(m) => if last in roots && m.directory != "" then before + [m.directory] else before
      case None => before
  }

  /** The package is followed: all its uses can be resolved, and lead to references that are asked for or queued. */
  ghost predicate Followed(env: Env, s: Search, ref: string) {
    Loads(env, ref) && forall u :: u in env.metadata(ref).value.uses ==>
      && !Remote(env.metadata(ref).value, u)
      && exists b :: env.useReference(env.metadata(ref).value.directory, u) == Some(b) && Pending(s, b)
  }

  /** With the first `visited` references visited: what they tell, and how far everything is from the roots. */
  ghost predicate Track(env: Env, roots: seq<string>, s: Search, visited: nat) {
    && visited <= |s.loaded|
    && (s.complete <==> forall i :: 0 <= i < visited ==> Loads(env, s.loaded[i]))
    && s.voiceRoots == Voices(env, roots, s.loaded[..visited])
    && (forall r :: r in s.loaded ==> NoFurther(env, roots, r))
    && (forall n :: n in s.queue ==> Away(env, roots, n.ref, n.depth))
    && forall k :: 0 <= k < |s.selections| && s.selections[k].available ==> Followed(env, s, s.selections[k].reference)
  }

  lemma FollowedGrows(env: Env, s: Search, t: Search, ref: string)
    requires Followed(env, s, ref) && forall b :: Pending(s, b) ==> Pending(t, b)
    ensures Followed(env, t, ref)
  {
  }

  lemma VisitOkMeans(env: Env, roots: seq<string>, scope: Option<Context>, s: Search, n: Node, t: Search)
    requires Visit(env, roots, scope, s, n) == Ok(t)
    ensures t.loaded == s.loaded && (t.complete <==> s.complete && Loads(env, n.ref))
    ensures t.voiceRoots == s.voiceRoots
            + (match env.metadata(n.ref)
               case Some(m) => if n.ref in roots && m.directory != "" then [m.directory] else []
               case None => [])
  {
    hide Targets, IdentityOf, SelectionOf, ResolvesTo;
    assert SelectionOf(env, roots, scope, n.ref).root <==> n.ref in roots by {
      SelectionTells(env, roots, scope, n.ref);
    }
  }

  /** A new identity is placed and followed. */
  lemma NewIdentityMeans(env: Env, roots: seq<string>, scope: Option<Context>, s: Search, n: Node, t: Search)
    requires Visit(env, roots, scope, s, n) == Ok(t) && IdentityOf(env, n.ref) !in s.identities
    ensures t.selections == s.selections + [SelectionOf(env, roots, scope, n.ref)]
    ensures !Loads(env, n.ref) ==> t.queue == s.queue
    ensures Loads(env, n.ref) ==>
              var m := env.metadata(n.ref).value;
              var nodes := Targets(env, m.directory, m.uses, n.depth + 1);
              nodes.Ok? && t.queue == s.queue + nodes.value
  {
    hide Targets, SelectionOf, IdentityOf;
  }

  /** The new nodes are uses of the visited one, and stand for all its uses. */
  lemma NodesAreUses(env: Env, roots: seq<string>, s: Search, n: Node, nodes: seq<Node>, t: Search)
    requires Loads(env, n.ref) && Away(env, roots, n.ref, n.depth)
    requires var m := env.metadata(n.ref).value; Targets(env, m.directory, m.uses, n.depth + 1) == Ok(nodes)
    requires t.queue == s.queue + nodes
    ensures forall x :: x in nodes ==> Away(env, roots, x.ref, x.depth)
    ensures Followed(env, t, n.ref)
  {
    hide Targets;
    var m := env.metadata(n.ref).value;
    TargetsMean(env, m.directory, m.uses, n.depth + 1);
    assert AllDepth(nodes, n.depth + 1);
    forall x | x in nodes ensures Away(env, roots, x.ref, x.depth) {
      var k :| 0 <= k < |nodes| && nodes[k] == x;
      assert m.uses[k] in m.uses && UseOf(env, n.ref, x.ref);
    }
    forall u | u in m.uses
      ensures !Remote(m, u) && exists b :: env.useReference(m.directory, u) == Some(b) && Pending(t, b)
    {
      var k :| 0 <= k < |m.uses| && m.uses[k] == u;
      assert t.queue[|s.queue| + k] == nodes[k];
      assert Pending(t, nodes[k].ref);
    }
  }

  lemma VisitTracksFlags(env: Env, roots: seq<string>, scope: Option<Context>, s: Search, n: Node, here: nat,
                         t: Search)
    requires Visit(env, roots, scope, s, n) == Ok(t)
    requires here < |s.loaded| && s.loaded[here] == n.ref && Track(env, roots, s, here)
    ensures t.loaded == s.loaded && (t.complete <==> forall i :: 0 <= i < here + 1 ==> Loads(env, t.loaded[i]))
    ensures t.voiceRoots == Voices(env, roots, t.loaded[..here + 1])
  {
    hide Visit, Targets, Away, Followed, SelectionOf, IdentityOf, Loads;
    VisitOkMeans(env, roots, scope, s, n, t);
    assert s.loaded[..here + 1] == s.loaded[..here] + [n.ref] && s.loaded[..here + 1][..here] == s.loaded[..here];
  }

  lemma {:induction false} VisitTracksUses(env: Env, roots: seq<string>, scope: Option<Context>, s: Search, n: Node,
                                           here: nat, t: Search)
    requires n.ref in roots ==> forall k :: 0 <= k < |s.selections| ==> s.selections[k].root
    requires Visit(env, roots, scope, s, n) == Ok(t)
    requires Away(env, roots, n.ref, n.depth) && Track(env, roots, s, here)
    ensures forall n :: n in t.queue ==> Away(env, roots, n.ref, n.depth)
    ensures forall k :: 0 <= k < |t.selections| && t.selections[k].available ==>
              Followed(env, t, t.selections[k].reference)
  {
    hide Visit, Targets, Away, Followed, SelectionOf, IdentityOf, Loads, UseRefs, Pending, Voices, NoFurther;
    VisitEffect(env, roots, scope, s, n);
    assert Tells(env, roots, scope, SelectionOf(env, roots, scope, n.ref))
           && SelectionOf(env, roots, scope, n.ref).reference == n.ref by {
      SelectionTells(env, roots, scope, n.ref);
    }
    hide Tells, ResolvesTo;
    if IdentityOf(env, n.ref) !in s.identities {
      NewIdentityMeans(env, roots, scope, s, n, t);
      if Loads(env, n.ref) {
        LoadsMeans(env, n.ref);
        var m := env.metadata(n.ref).value;
        NodesAreUses(env, roots, s, n, Targets(env, m.directory, m.uses, n.depth + 1).value, t);
      }
    }
    PendingGrows(s, t);
    forall k | 0 <= k < |s.selections| && s.selections[k].available
      ensures Followed(env, t, s.selections[k].reference)
    {
      FollowedGrows(env, s, t, s.selections[k].reference);
    }
  }

  lemma LoadsMeans(env: Env, ref: string)
    requires Loads(env, ref)
    ensures env.metadata(ref).Some?
  {
  }

  /** One visit in search order. */
  lemma {:induction false} VisitTracks(env: Env, roots: seq<string>, scope: Option<Context>, s: Search, n: Node,
                                       here: nat, t: Search)
    requires n.ref in roots ==> forall k :: 0 <= k < |s.selections| ==> s.selections[k].root
    requires Visit(env, roots, scope, s, n) == Ok(t)
    requires here < |s.loaded| && s.loaded[here] == n.ref && Away(env, roots, n.ref, n.depth)
    requires Track(env, roots, s, here)
    ensures Track(env, roots, t, here + 1)
  {
    hide Visit, Away, Followed, Loads, Voices, NoFurther;
    VisitTracksFlags(env, roots, scope, s, n, here, t);
    VisitTracksUses(env, roots, scope, s, n, here, t);
  }

  lemma PendingGrows(s: Search, t: Search)
    requires t.loaded == s.loaded && s.queue <= t.queue
    ensures forall b :: Pending(s, b) ==> Pending(t, b)
  {
    forall b | Pending(s, b) ensures Pending(t, b) {
      if b !in s.loaded {
        var k :| 0 <= k < |s.queue| && s.queue[k].ref == b;
        assert t.queue[k] == s.queue[k];
      }
    }
  }

  /** The visits of one wave, all at one depth. */
  lemma {:induction false} VisitAllTracks(env: Env, roots: seq<string>, scope: Option<Context>, s: Search,
                                          pending: seq<Node>, depth: nat, first: bool, t: Search)
    requires AllDepth(pending, depth) && Level(s.queue, depth + 1)
    requires Inv(env, roots, scope, s, pending, first) && VisitAll(env, roots, scope, s, pending, depth) == Ok(t)
    requires |pending| <= |s.loaded| && Track(env, roots, s, |s.loaded| - |pending|)
    requires forall n :: n in pending ==> Away(env, roots, n.ref, n.depth)
    ensures Track(env, roots, t, |t.loaded|)
    decreases |pending|
  {
    hide *;
    if pending == [] {
      VisitAllNone(env, roots, scope, s, depth);
    } else {
      var (n, rest) := (pending[0], pending[1..]);
      assert pending == [n] + rest && n in pending;
      VisitAllStep(env, roots, scope, s, pending, depth);
      var next := Visit(env, roots, scope, s, n).value;
      VisitKeepsInv(env, roots, scope, s, n, rest, first);
      FirstInWave(env, roots, scope, s, n, rest, first);
      VisitTracks(env, roots, scope, s, n, |s.loaded| - |pending|, next);
      VisitOkMeans(env, roots, scope, s, n, next);
      assert forall x :: x in rest ==> x in pending;
      VisitAllTracks(env, roots, scope, next, rest, depth, first, t);
    }
  }

  /** The next node stands where the visited references end; a root comes only after roots. */
  lemma FirstInWave(env: Env, roots: seq<string>, scope: Option<Context>, s: Search, n: Node, rest: seq<Node>,
                    first: bool)
    requires Inv(env, roots, scope, s, [n] + rest, first)
    ensures |rest| + 1 <= |s.loaded| && s.loaded[|s.loaded| - |rest| - 1] == n.ref
    ensures n.ref in roots ==> forall k :: 0 <= k < |s.selections| ==> s.selections[k].root
  {
    assert ([n] + rest)[0] == n;
  }

  lemma {:induction false} WaveTracks(env: Env, roots: seq<string>, scope: Option<Context>, s: Search, depth: nat,
                                      t: Search)
    requires Level(s.queue, depth) && depth <= MAX_DEPTH
    requires Between(env, roots, scope, s, depth) && RunWave(env, roots, scope, s, depth) == Ok(t)
    requires Track(env, roots, s, |s.loaded|)
    ensures Track(env, roots, t, |t.loaded|)
  {
    hide *;
    WaveIsVisits(env, roots, scope, s, depth);
    EnteredTracks(env, roots, scope, s, depth);
    VisitAllTracks(env, roots, scope, Entered(s), Unseen(s.queue, s.loaded), depth, depth == 0, t);
  }

  lemma WaveIsVisits(env: Env, roots: seq<string>, scope: Option<Context>, s: Search, depth: nat)
    requires Level(s.queue, depth) && depth <= MAX_DEPTH && Between(env, roots, scope, s, depth)
    ensures Distinct(s.loaded) && AllDepth(Unseen(s.queue, s.loaded), depth) && Level(Entered(s).queue, depth + 1)
    ensures Inv(env, roots, scope, Entered(s), Unseen(s.queue, s.loaded), depth == 0)
    ensures RunWave(env, roots, scope, s, depth)
            == if env.loadFails(References(Unseen(s.queue, s.loaded))) then Err(LoadFailed)
               else VisitAll(env, roots, scope, Entered(s), Unseen(s.queue, s.loaded), depth)
  {
    hide Unseen, VisitAll, Distinct, Table, FirstSeenInv, Closed, Sound;
    var pending := Unseen(s.queue, s.loaded);
    PendingRoots(roots, s, depth);
    EnterKeepsInv(env, roots, scope, s, depth <= 1, depth == 0);
    forall k | 0 <= k < |pending| ensures pending[k].depth == depth {
      assert pending[k] in s.queue;
    }
  }

  lemma EnteredTracks(env: Env, roots: seq<string>, scope: Option<Context>, s: Search, depth: nat)
    requires Level(s.queue, depth) && depth <= MAX_DEPTH && Distinct(s.loaded) && Track(env, roots, s, |s.loaded|)
    ensures var pending := Unseen(s.queue, s.loaded);
            && |Entered(s).loaded| - |pending| == |s.loaded| && Track(env, roots, Entered(s), |s.loaded|)
            && forall n :: n in pending ==> Away(env, roots, n.ref, n.depth)
  {
    hide Unseen, Away, Loads, Voices, Distinct;
    var (pending, t) := (Unseen(s.queue, s.loaded), Entered(s));
    assert t.loaded[..|s.loaded|] == s.loaded == s.loaded[..|s.loaded|];
    forall n | n in pending ensures Away(env, roots, n.ref, n.depth) && n.depth == depth {
      var k :| 0 <= k < |pending| && pending[k] == n;
      var q :| 0 <= q < |s.queue| && s.queue[q] == n;
    }
    forall r | r in t.loaded ensures NoFurther(env, roots, r) {
      var i :| 0 <= i < |t.loaded| && t.loaded[i] == r;
      if i >= |s.loaded| {
        assert pending[i - |s.loaded|] in pending && pending[i - |s.loaded|].ref == r;
      } else {
        assert s.loaded[i] in s.loaded;
      }
    }
    forall b | Pending(s, b) ensures Pending(t, b) { EnterCovers(s, b); }
    forall k | 0 <= k < |t.selections| && t.selections[k].available
      ensures Followed(env, t, t.selections[k].reference)
    {
      FollowedGrows(env, s, t, t.selections[k].reference);
    }
  }

  lemma {:induction false} ExploreTracks(env: Env, roots: seq<string>, scope: Option<Context>, s: Search, depth: nat)
    requires Level(s.queue, depth)
    requires Between(env, roots, scope, s, depth) && Track(env, roots, s, |s.loaded|)
    ensures match Explore(env, roots, scope, s, depth)
            case Ok(last) => last.queue == [] && Track(env, roots, last, |last.loaded|)
            case Err(e) => Fails(env, roots, e)
    decreases MAX_DEPTH + 1 - depth
  {
    hide *;
    if s.queue == [] {
      ExploreDry(env, roots, scope, s, depth);
    } else {
      ExploreStep(env, roots, scope, s, depth);
      var wave := RunWave(env, roots, scope, s, depth);
      match wave
      case Ok(t) =>
        WaveTracks(env, roots, scope, s, depth, t);
        WaveKeepsBetween(env, roots, scope, s, depth, t);
        ExploreTracks(env, roots, scope, t, depth + 1);
      case Err(e) =>
        WaveFails(env, roots, scope, s, depth, e);
    }
  }

  // ---- failing ----

  lemma VisitFails(env: Env, roots: seq<string>, scope: Option<Context>, s: Search, n: Node, e: PlanError)
    requires Visit(env, roots, scope, s, n) == Err(e) && n.depth <= 8 && Away(env, roots, n.ref, n.depth)
    ensures Fails(env, roots, e)
  {
    hide Targets, IdentityOf, SelectionOf, Away;
    var m := MetaOf(env, n.ref);
    TargetsMean(env, m.directory, m.uses, n.depth + 1);
    assert NoFurther(env, roots, n.ref);
  }

  lemma {:induction false} VisitAllFails(env: Env, roots: seq<string>, scope: Option<Context>, s: Search,
                                         pending: seq<Node>, depth: nat, e: PlanError)
    requires AllDepth(pending, depth) && Level(s.queue, depth + 1) && depth <= 8
    requires VisitAll(env, roots, scope, s, pending, depth) == Err(e)
    requires forall n :: n in pending ==> Away(env, roots, n.ref, n.depth)
    ensures Fails(env, roots, e)
    decreases |pending|
  {
    hide Visit, VisitAll, Away, Fails;
    if pending == [] {
      VisitAllNone(env, roots, scope, s, depth);
    } else {
      VisitAllStep(env, roots, scope, s, pending, depth);
      var next := Visit(env, roots, scope, s, pending[0]);
      if next.Err? {
        VisitFails(env, roots, scope, s, pending[0], e);
      } else {
        VisitAllFails(env, roots, scope, next.value, pending[1..], depth, e);
      }
    }
  }

  lemma WaveFails(env: Env, roots: seq<string>, scope: Option<Context>, s: Search, depth: nat, e: PlanError)
    requires Level(s.queue, depth) && depth <= MAX_DEPTH && Between(env, roots, scope, s, depth)
    requires Track(env, roots, s, |s.loaded|) && RunWave(env, roots, scope, s, depth) == Err(e)
    ensures Fails(env, roots, e)
  {
    hide *;
    WaveIsVisits(env, roots, scope, s, depth);
    EnteredTracks(env, roots, scope, s, depth);
    var pending := Unseen(s.queue, s.loaded);
    if env.loadFails(References(pending)) {
      PendingIsNear(env, roots, pending, depth);
      RefusedLoad(env, roots, References(pending));
    } else {
      DepthIsBounded(depth);
      VisitAllFails(env, roots, scope, Entered(s), pending, depth, e);
    }
  }

  lemma DepthIsBounded(depth: nat)
    requires depth <= MAX_DEPTH
    ensures depth <= 8
  {
  }

  lemma PendingIsNear(env: Env, roots: seq<string>, pending: seq<Node>, depth: nat)
    requires AllDepth(pending, depth) && depth <= MAX_DEPTH
    requires forall n :: n in pending ==> Away(env, roots, n.ref, n.depth)
    ensures forall r :: r in References(pending) ==> NoFurther(env, roots, r)
  {
    hide Away;
    forall r | r in References(pending) ensures NoFurther(env, roots, r) {
      var k :| 0 <= k < |pending| && References(pending)[k] == r;
      assert pending[k] in pending;
    }
  }

  lemma RefusedLoad(env: Env, roots: seq<string>, refs: seq<string>)
    requires env.loadFails(refs) && forall r :: r in refs ==> NoFurther(env, roots, r)
    ensures Fails(env, roots, LoadFailed)
  {
    hide NoFurther;
  }

  // ---- what a plan says ----

  lemma StartTracks(env: Env, roots: seq<string>, scope: Option<Context>)
    ensures var s := StartSearch(roots);
            Between(env, roots, scope, s, 0) && Track(env, roots, s, |s.loaded|)
  {
    StartInv(env, roots, scope);
  }

  /** A search fails for a package at most eight uses away from a root: one that no plan could follow. */
  lemma FailureIsReal(env: Env, roots: seq<string>, scope: Option<Context>)
    ensures PlanSpec(env, roots, scope).Err? ==> Fails(env, roots, PlanSpec(env, roots, scope).error)
  {
    hide Explore, Between, Track, Fails;
    StartTracks(env, roots, scope);
    ExploreTracks(env, roots, scope, StartSearch(roots), 0);
  }

  /** One member of a plan: its selection, and where its uses lead. */
  ghost predicate Member(env: Env, roots: seq<string>, scope: Option<Context>, loaded: seq<string>, sel: Selection) {
    && Tells(env, roots, scope, sel) && sel.reference in loaded
    && (sel.available ==>
          forall u :: u in env.metadata(sel.reference).value.uses ==>
            && !Remote(env.metadata(sel.reference).value, u)
            && exists b :: b in loaded && env.useReference(env.metadata(sel.reference).value.directory, u) == Some(b))
  }

  /**
   * A plan over the references it loaded: all are at most eight uses away from a root, each selection says what the
   * metadata, the roots and the rule say and has all its uses loaded, the plan is complete when everything could be
   * loaded, and it keeps the directories of the roots.
   */
  lemma {:induction false} PlanTells(env: Env, roots: seq<string>, scope: Option<Context>, plan: Plan)
    returns (loaded: seq<string>)
    requires PlanSpec(env, roots, scope) == Ok(plan)
    ensures Explore(env, roots, scope, StartSearch(roots), 0).Ok?
    ensures loaded == Explore(env, roots, scope, StartSearch(roots), 0).value.loaded
    ensures forall r :: r in roots ==> r in loaded
    ensures forall r :: r in loaded ==> NoFurther(env, roots, r)
    ensures forall k :: 0 <= k < |plan.selections| ==> Member(env, roots, scope, loaded, plan.selections[k])
    ensures forall j, k, identity :: 0 <= j < k < |plan.selections| ==>
              !IdentifiedBy(env, plan.selections[j].reference, identity)
              || !IdentifiedBy(env, plan.selections[k].reference, identity)
    ensures plan.complete <==> forall r :: r in loaded ==> Loads(env, r)
    ensures plan.voiceRoots == Voices(env, roots, loaded)
  {
    hide *;
    StartTracks(env, roots, scope);
    ExploreTracks(env, roots, scope, StartSearch(roots), 0);
    loaded := SelectionsAreReachableIdentities(env, roots, scope, plan);
    var s := Explored(env, roots, scope, plan);
    ExploreCompletes(env, roots, scope, StartSearch(roots), 0, s);
    RootsAreLoaded(env, roots, scope, s);
    TrackTells(env, roots, scope, s);
    SelectionsDiffer(env, plan.selections, loaded);
  }

  lemma Explored(env: Env, roots: seq<string>, scope: Option<Context>, plan: Plan) returns (s: Search)
    requires PlanSpec(env, roots, scope) == Ok(plan)
    ensures Level(StartSearch(roots).queue, 0) && Explore(env, roots, scope, StartSearch(roots), 0) == Ok(s)
    ensures plan.selections == s.selections && plan.complete == s.complete && plan.voiceRoots == s.voiceRoots
  {
    hide Explore, StartSearch, SelectedRefs;
    s := Explore(env, roots, scope, StartSearch(roots), 0).value;
  }

  lemma RootsAreLoaded(env: Env, roots: seq<string>, scope: Option<Context>, s: Search)
    requires Complete(env, roots, scope, s)
    ensures forall r :: r in roots ==> r in s.loaded
    ensures forall k :: 0 <= k < |s.selections| ==>
              s.selections[k] == SelectionOf(env, roots, scope, s.selections[k].reference)
              && s.selections[k].reference in s.loaded
  {
    assert s.loaded[..|s.loaded|] == s.loaded;
  }

  lemma SelectionsDiffer(env: Env, sels: seq<Selection>, loaded: seq<string>)
    requires OnePerIdentity(env, sels, loaded)
    ensures forall j, k, identity :: 0 <= j < k < |sels| ==>
              !IdentifiedBy(env, sels[j].reference, identity) || !IdentifiedBy(env, sels[k].reference, identity)
  {
    hide IdentityOf, IdentifiedBy;
    forall j, k, identity | 0 <= j < k < |sels|
      ensures !IdentifiedBy(env, sels[j].reference, identity) || !IdentifiedBy(env, sels[k].reference, identity)
    {
      IdentityMeans(env, sels[j].reference);
      IdentityMeans(env, sels[k].reference);
    }
  }

  lemma TrackTells(env: Env, roots: seq<string>, scope: Option<Context>, s: Search)
    requires s.queue == [] && Track(env, roots, s, |s.loaded|)
    requires forall k :: 0 <= k < |s.selections| ==>
               s.selections[k] == SelectionOf(env, roots, scope, s.selections[k].reference)
               && s.selections[k].reference in s.loaded
    ensures forall r :: r in s.loaded ==> NoFurther(env, roots, r)
    ensures forall k :: 0 <= k < |s.selections| ==> Member(env, roots, scope, s.loaded, s.selections[k])
    ensures s.complete <==> forall r :: r in s.loaded ==> Loads(env, r)
    ensures s.voiceRoots == Voices(env, roots, s.loaded)
  {
    hide SelectionOf, Tells, Loads, Voices, NoFurther, Remote;
    assert s.loaded[..|s.loaded|] == s.loaded;
    forall k | 0 <= k < |s.selections| ensures Member(env, roots, scope, s.loaded, s.selections[k]) {
      SelectionTells(env, roots, scope, s.selections[k].reference);
      if s.selections[k].available {
        assert Followed(env, s, s.selections[k].reference);
      }
    }
  }
}
