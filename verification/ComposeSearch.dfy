/** Discovering the composition graph wave by wave (PlanCompose, internal/application/compose_selection.go). */
module ComposeSearch {
  import opened Prelude
  import opened Review

  const MAX_DEPTH := 8

  /** One composition member of a manifest. */
  datatype Use = Use(name: string, version: string, path: string)

  /** Loaded metadata; `failed` metadata has no usable manifest. */
  datatype Meta = Meta(name: string, version: string, uses: seq<Use>, reference: string, directory: string,
                       failed: bool)

  /** The metadata loader, the reference a use resolves to, and the selection rule for unloaded packages. */
  datatype Env = Env(
    metadata: string -> Option<Meta>, loadFails: seq<string> -> bool,
    useReference: (string, Use) -> Option<string>, select: (Meta, Context) -> (bool, string))

  datatype Node = Node(ref: string, depth: nat)

  datatype Selection = Selection(reference: string, resolved: string, selected: bool, reason: string, root: bool,
                                 available: bool)

  datatype PlanError = LoadFailed | TooDeep | RemotePath | BadUse

  datatype Plan = Plan(complete: bool, refs: seq<string>, selections: seq<Selection>, voiceRoots: seq<string>)

  /** The loop state; `loaded` lists the references asked for so far, which are also the visited ones. */
  datatype Search = Search(
    queue: seq<Node>, loaded: seq<string>, identities: map<string, nat>,
    selections: seq<Selection>, complete: bool, voiceRoots: seq<string>)

  // ---- what one reference contributes ----

  function MetaOf(env: Env, ref: string): Meta {
    match env.metadata(ref)
    case Some(m) => m
    case None => Meta("", "", [], "", "", true)
  }

  function ResolvedOf(env: Env, ref: string): string {
    if MetaOf(env, ref).reference == "" then ref else MetaOf(env, ref).reference
  }

  /** A name and version, or the reference itself where no manifest could be loaded. */
  function IdentityOf(env: Env, ref: string): string {
    var m := MetaOf(env, ref);
    if m.failed then ResolvedOf(env, ref) else m.name + "@" + m.version
  }

  function SelectionOf(env: Env, roots: seq<string>, scope: Option<Context>, ref: string): Selection {
    var m := MetaOf(env, ref);
    var root := ref in roots;
    var (selected, reason) :=
      if root then
        (true, "explicit composition root"
               + if m.failed then "; metadata unavailable, dependency graph incomplete" else "")
      else if m.failed then (true, "metadata unavailable; retained")
      else if scope.None? then (true, "repository context unavailable; retained")
      else env.select(m, scope.value);
    Selection(ref, ResolvedOf(env, ref), selected, reason, root, !m.failed)
  }

  predicate AllDepth(queue: seq<Node>, depth: nat) {
    forall k :: 0 <= k < |queue| ==> queue[k].depth == depth
  }

  /** The queue of a wave: one depth throughout, and none beyond the maximum. */
  predicate Level(queue: seq<Node>, depth: nat) {
    AllDepth(queue, depth) && (queue == [] || depth <= MAX_DEPTH) && depth <= MAX_DEPTH + 1
  }

  function References(nodes: seq<Node>): (refs: seq<string>)
    ensures |refs| == |nodes|
    ensures forall k :: 0 <= k < |nodes| ==> refs[k] == nodes[k].ref
  {
    seq(|nodes|, k requires 0 <= k < |nodes| => nodes[k].ref)
  }

  /** The nodes a manifest's uses lead to. */
  function Targets(env: Env, directory: string, uses: seq<Use>, depth: nat): (res: Result<seq<Node>, PlanError>)
    ensures res.Ok? ==> AllDepth(res.value, depth) && |res.value| == |uses|
  {
    if uses == [] then Ok([])
    else if uses[0].path != "" && directory == "" then Err(RemotePath)
    else
      match env.useReference(directory, uses[0])
      case None => Err(BadUse)
      case Some(ref) =>
        match Targets(env, directory, uses[1..], depth)
        case Err(e) => Err(e)
        case Ok(rest) => Ok([Node(ref, depth)] + rest)
  }

  /** Place a node's selection: merge into a known identity, or append it and follow its uses. */
  function Visit(env: Env, roots: seq<string>, scope: Option<Context>, s: Search,
                 n: Node): (res: Result<Search, PlanError>)
    ensures res.Ok? && AllDepth(s.queue, n.depth + 1) ==>
              AllDepth(res.value.queue, n.depth + 1) && (res.value.queue == s.queue || n.depth < MAX_DEPTH)
  {
    var m := MetaOf(env, n.ref);
    var sel := SelectionOf(env, roots, scope, n.ref);
    var identity := IdentityOf(env, n.ref);
    var t := s.(complete := s.complete && !m.failed,
                voiceRoots := s.voiceRoots + if sel.root && m.directory != "" then [m.directory] else []);
    if identity in s.identities then
      var previous := s.identities[identity];
      if sel.root && previous < |s.selections| && !s.selections[previous].root
      then Ok(t.(selections := s.selections[previous := sel])) else Ok(t)
    else
      var u := t.(identities := s.identities[identity := |s.selections|], selections := s.selections + [sel]);
      if m.failed then Ok(u)
      else if n.depth >= MAX_DEPTH && m.uses != [] then Err(TooDeep)
      else
        match Targets(env, m.directory, m.uses, n.depth + 1)
        case Err(e) => Err(e)
        case Ok(nodes) => Ok(u.(queue := s.queue + nodes))
  }

  function VisitAll(env: Env, roots: seq<string>, scope: Option<Context>, s: Search, pending: seq<Node>,
                    depth: nat): (res: Result<Search, PlanError>)
    requires AllDepth(pending, depth) && Level(s.queue, depth + 1)
    ensures res.Ok? ==> Level(res.value.queue, depth + 1)
    decreases |pending|
  {
    if pending == [] then Ok(s)
    else
      match Visit(env, roots, scope, s, pending[0])
      case Err(e) => Err(e)
      case Ok(t) => VisitAll(env, roots, scope, t, pending[1..], depth)
  }

  /** The wave's references that have not been asked for, each once. */
  function Unseen(wave: seq<Node>, loaded: seq<string>): (pending: seq<Node>)
    ensures forall k :: 0 <= k < |pending| ==> pending[k] in wave
    decreases |wave|
  {
    if wave == [] then []
    else if wave[0].ref in loaded then Unseen(wave[1..], loaded)
    else [wave[0]] + Unseen(wave[1..], loaded + [wave[0].ref])
  }

  function RunWave(env: Env, roots: seq<string>, scope: Option<Context>, s: Search,
                   depth: nat): (res: Result<Search, PlanError>)
    requires Level(s.queue, depth) && depth <= MAX_DEPTH
    ensures res.Ok? ==> Level(res.value.queue, depth + 1)
  {
    var pending := Unseen(s.queue, s.loaded);
    var refs := References(pending);
    if env.loadFails(refs) then Err(LoadFailed)
    else VisitAll(env, roots, scope, s.(queue := [], loaded := s.loaded + refs), pending, depth)
  }

  /** All remaining waves. No wave is deeper than MAX_DEPTH, so the search ends on any graph. */
  function Explore(env: Env, roots: seq<string>, scope: Option<Context>, s: Search,
                   depth: nat): Result<Search, PlanError>
    requires Level(s.queue, depth)
    decreases MAX_DEPTH + 1 - depth
  {
    if s.queue == [] then Ok(s)
    else
      match RunWave(env, roots, scope, s, depth)
      case Err(e) => Err(e)
      case Ok(t) => Explore(env, roots, scope, t, depth + 1)
  }

  function StartSearch(roots: seq<string>): (s: Search)
    ensures Level(s.queue, 0)
  {
    Search(seq(|roots|, k requires 0 <= k < |roots| => Node(roots[k], 0)), [], map[], [], true, [])
  }

  function SelectedRefs(selections: seq<Selection>): seq<string> {
    if selections == [] then []
    else
      var last := selections[|selections| - 1];
      SelectedRefs(selections[..|selections| - 1]) + if last.selected then [last.resolved] else []
  }

  function PlanOf(s: Search): Plan {
    Plan(s.complete, SelectedRefs(s.selections), s.selections, s.voiceRoots)
  }

  function PlanSpec(env: Env, roots: seq<string>, scope: Option<Context>): Result<Plan, PlanError> {
    match Explore(env, roots, scope, StartSearch(roots), 0)
    case Err(e) => Err(e)
    case Ok(s) => Ok(PlanOf(s))
  }

  lemma ExploreStep(env: Env, roots: seq<string>, scope: Option<Context>, s: Search, depth: nat)
    requires Level(s.queue, depth) && s.queue != []
    ensures depth <= MAX_DEPTH
    ensures var wave := RunWave(env, roots, scope, s, depth);
            Explore(env, roots, scope, s, depth)
                == if wave.Err? then Err(wave.error) else Explore(env, roots, scope, wave.value, depth + 1)
  {
  }

  lemma ExploreEnds(env: Env, roots: seq<string>, scope: Option<Context>, s: Search, depth: nat)
    requires Level(s.queue, depth) && s.queue == []
    ensures Explore(env, roots, scope, s, depth) == Ok(s)
  {
  }

  // ---- the loops ----

  method CollectUnseen(wave: seq<Node>, loaded: seq<string>) returns (pending: seq<Node>, loaded': seq<string>)
    ensures pending == Unseen(wave, loaded) && loaded' == loaded + References(pending)
  {
    pending, loaded' := [], loaded;
    for k := 0 to |wave|
      invariant pending + Unseen(wave[k..], loaded') == Unseen(wave, loaded)
      invariant loaded' == loaded + References(pending)
    {
      var n := wave[k];
      assert wave[k..][1..] == wave[k + 1..];
      if n.ref !in loaded' {
        assert pending + ([n] + Unseen(wave[k + 1..], loaded' + [n.ref]))
               == (pending + [n]) + Unseen(wave[k + 1..], loaded' + [n.ref]);
        pending, loaded' := pending + [n], loaded' + [n.ref];
      }
    }
  }

  method PlanCompose(env: Env, roots: seq<string>, scope: Option<Context>) returns (plan: Result<Plan, PlanError>)
    ensures plan == PlanSpec(env, roots, scope)
  {
    hide RunWave, Explore, Level, StartSearch, SelectedRefs;
    var s := StartSearch(roots);
    ghost var depth := 0;
    while |s.queue| > 0
      invariant Level(s.queue, depth)
      invariant Explore(env, roots, scope, StartSearch(roots), 0) == Explore(env, roots, scope, s, depth)
      decreases MAX_DEPTH + 1 - depth
    {
      ExploreStep(env, roots, scope, s, depth);
      var wave := RunOneWave(env, roots, scope, s, depth);
      if wave.Err? {
        return Err(wave.error);
      }
      s := wave.value;
      depth := depth + 1;
    }
    ExploreEnds(env, roots, scope, s, depth);
    var refs := CollectSelected(s.selections);
    return Ok(Plan(s.complete, refs, s.selections, s.voiceRoots));
  }

  method CollectSelected(selections: seq<Selection>) returns (refs: seq<string>)
    ensures refs == SelectedRefs(selections)
  {
    refs := [];
    for k := 0 to |selections|
      invariant refs == SelectedRefs(selections[..k])
    {
      assert selections[..k + 1][..k] == selections[..k];
      if selections[k].selected {
        refs := refs + [selections[k].resolved];
      }
    }
    assert selections[..|selections|] == selections;
  }

  method RunOneWave(env: Env, roots: seq<string>, scope: Option<Context>, s: Search, ghost depth: nat)
    returns (res: Result<Search, PlanError>)
    requires Level(s.queue, depth) && depth <= MAX_DEPTH
    ensures res == RunWave(env, roots, scope, s, depth)
  {
    var pending, loaded := CollectUnseen(s.queue, s.loaded);
    if env.loadFails(References(pending)) {
      return Err(LoadFailed);
    }
    res := VisitPending(env, roots, scope, s.(queue := [], loaded := loaded), pending, depth);
  }

  method VisitPending(env: Env, roots: seq<string>, scope: Option<Context>, s: Search, pending: seq<Node>,
                      ghost depth: nat) returns (res: Result<Search, PlanError>)
    requires AllDepth(pending, depth) && Level(s.queue, depth + 1)
    ensures res == VisitAll(env, roots, scope, s, pending, depth)
  {
    hide *;
    var t := s;
    for k := 0 to |pending|
      invariant AllDepth(pending[k..], depth) && Level(t.queue, depth + 1)
      invariant VisitAll(env, roots, scope, t, pending[k..], depth) == VisitAll(env, roots, scope, s, pending, depth)
    {
      VisitAllStep(env, roots, scope, t, pending[k..], depth);
      assert pending[k..][1..] == pending[k + 1..];
      var next := Visit(env, roots, scope, t, pending[k]);
      if next.Err? {
        return Err(next.error);
      }
      t := next.value;
    }
    VisitAllNone(env, roots, scope, t, depth);
    return Ok(t);
  }

  // ---- reachability through the first-seen representatives ----

  /** The references the manifest of `ref` uses. */
  function UseRefs(env: Env, ref: string): seq<string> {
    match Targets(env, MetaOf(env, ref).directory, MetaOf(env, ref).uses, 0)
    case Ok(nodes) => References(nodes)
    case Err(_) => []
  }

  /** `a` represents its identity, and its manifest could be loaded. */
  predicate Representative(sels: seq<Selection>, a: string) {
    exists k :: 0 <= k < |sels| && sels[k].reference == a && sels[k].available
  }

  predicate Follows(env: Env, sels: seq<Selection>, a: string, b: string) {
    Representative(sels, a) && b in UseRefs(env, a)
  }

  ghost predicate Chain(env: Env, roots: seq<string>, sels: seq<Selection>, path: seq<string>) {
    && path != [] && path[0] in roots
    && forall k :: 0 < k < |path| ==> Follows(env, sels, path[k - 1], path[k])
  }

  ghost predicate Reachable(env: Env, roots: seq<string>, sels: seq<Selection>, ref: string) {
    exists path :: Chain(env, roots, sels, path) && path[|path| - 1] == ref
  }

  lemma ReachableGrows(env: Env, roots: seq<string>, sels: seq<Selection>, more: seq<Selection>, ref: string)
    requires Reachable(env, roots, sels, ref)
    ensures Reachable(env, roots, sels + more, ref)
  {
    var path :| Chain(env, roots, sels, path) && path[|path| - 1] == ref;
    forall k | 0 < k < |path| ensures Follows(env, sels + more, path[k - 1], path[k]) {
      assert Follows(env, sels, path[k - 1], path[k]);
      var m :| 0 <= m < |sels| && sels[m].reference == path[k - 1] && sels[m].available;
      assert (sels + more)[m] == sels[m];
    }
    assert Chain(env, roots, sels + more, path);
  }

  lemma ReachableStep(env: Env, roots: seq<string>, sels: seq<Selection>, a: string, b: string)
    requires Reachable(env, roots, sels, a) && Follows(env, sels, a, b)
    ensures Reachable(env, roots, sels, b)
  {
    var path :| Chain(env, roots, sels, path) && path[|path| - 1] == a;
    assert Chain(env, roots, sels, path + [b]) && (path + [b])[|path|] == b;
  }

  lemma ReachableRoot(env: Env, roots: seq<string>, sels: seq<Selection>, root: string)
    requires root in roots
    ensures Reachable(env, roots, sels, root)
  {
    assert Chain(env, roots, sels, [root]) && [root][0] == root;
  }

  lemma {:induction false} TargetsAreUses(env: Env, directory: string, uses: seq<Use>, depth: nat)
    ensures Targets(env, directory, uses, depth).Ok? <==> Targets(env, directory, uses, 0).Ok?
    ensures Targets(env, directory, uses, depth).Ok? ==>
              References(Targets(env, directory, uses, depth).value)
                  == References(Targets(env, directory, uses, 0).value)
  {
    if uses != [] {
      TargetsAreUses(env, directory, uses[1..], depth);
    }
  }

  // ---- the invariant of the search; `rest` are the nodes of the current wave still to be visited ----

  predicate Distinct(refs: seq<string>) {
    forall i, j :: 0 <= i < j < |refs| ==> refs[i] != refs[j]
  }

  predicate Waiting(s: Search, rest: seq<Node>) {
    && Distinct(s.loaded) && |rest| <= |s.loaded|
    && forall k :: 0 <= k < |rest| ==> s.loaded[|s.loaded| - |rest| + k] == rest[k].ref
  }

  predicate Pending(s: Search, ref: string) {
    ref in s.loaded || exists k :: 0 <= k < |s.queue| && s.queue[k].ref == ref
  }

  /** The identity table and the selections describe each other. */
  predicate Table(env: Env, roots: seq<string>, scope: Option<Context>, s: Search) {
    && (forall id :: id in s.identities ==>
          s.identities[id] < |s.selections| && IdentityOf(env, s.selections[s.identities[id]].reference) == id)
    && (forall k :: 0 <= k < |s.selections| ==>
          && s.selections[k] == SelectionOf(env, roots, scope, s.selections[k].reference)
          && IdentityOf(env, s.selections[k].reference) in s.identities
          && s.identities[IdentityOf(env, s.selections[k].reference)] == k)
  }

  /** The identity of the visited reference at `i` is represented by a reference visited no later. */
  predicate RepresentedAt(env: Env, s: Search, i: nat)
    requires i < |s.loaded|
  {
    var id := IdentityOf(env, s.loaded[i]);
    id in s.identities && s.identities[id] < |s.selections|
        && s.selections[s.identities[id]].reference in s.loaded[..i + 1]
  }

  predicate FirstSeenInv(env: Env, s: Search, visited: nat)
    requires visited <= |s.loaded|
  {
    && (forall i :: 0 <= i < visited ==> RepresentedAt(env, s, i))
    && forall k :: 0 <= k < |s.selections| ==> s.selections[k].reference in s.loaded[..visited]
  }

  ghost predicate Closed(env: Env, s: Search) {
    forall k, t ::
      0 <= k < |s.selections| && s.selections[k].available && t in UseRefs(env, s.selections[k].reference) ==>
        Pending(s, t)
  }

  ghost predicate Sound(env: Env, roots: seq<string>, s: Search) {
    && (forall i :: 0 <= i < |s.loaded| ==> Reachable(env, roots, s.selections, s.loaded[i]))
    && forall k :: 0 <= k < |s.queue| ==> Reachable(env, roots, s.selections, s.queue[k].ref)
  }

  /** Roots come first: in the first wave everything is a root, afterwards no root is left to visit. */
  predicate RootsFirst(roots: seq<string>, s: Search, rest: seq<Node>, first: bool) {
    && (forall r :: r in roots ==> Pending(s, r))
    && (forall k :: 0 <= k < |rest| ==> (rest[k].ref in roots <==> first))
    && (first ==> forall k :: 0 <= k < |s.selections| ==> s.selections[k].root)
    && forall j, k :: 0 <= j < k < |s.selections| && s.selections[k].root ==> s.selections[j].root
  }

  ghost predicate Inv(env: Env, roots: seq<string>, scope: Option<Context>, s: Search, rest: seq<Node>, first: bool) {
    && Waiting(s, rest) && Table(env, roots, scope, s) && FirstSeenInv(env, s, |s.loaded| - |rest|)
    && Closed(env, s) && Sound(env, roots, s) && RootsFirst(roots, s, rest, first)
  }

  // ---- one visit ----

  /** What a successful visit of `n` does; a known identity leaves the selections alone. */
  ghost predicate Effect(env: Env, roots: seq<string>, scope: Option<Context>, s: Search, n: Node, t: Search) {
    var (sel, id) := (SelectionOf(env, roots, scope, n.ref), IdentityOf(env, n.ref));
    && t.loaded == s.loaded
    && if id in s.identities then t.identities == s.identities && t.selections == s.selections && t.queue == s.queue
       else
         && t.identities == s.identities[id := |s.selections|] && t.selections == s.selections + [sel]
         && s.queue <= t.queue
         && References(t.queue[|s.queue|..]) == if sel.available then UseRefs(env, n.ref) else []
  }

  /** Replacing a selection by a later root never happens: roots are visited first. */
  lemma VisitEffect(env: Env, roots: seq<string>, scope: Option<Context>, s: Search, n: Node)
    requires n.ref in roots ==> forall k :: 0 <= k < |s.selections| ==> s.selections[k].root
    requires Visit(env, roots, scope, s, n).Ok?
    ensures Effect(env, roots, scope, s, n, Visit(env, roots, scope, s, n).value)
  {
    var m := MetaOf(env, n.ref);
    if IdentityOf(env, n.ref) !in s.identities && !m.failed {
      TargetsAreUses(env, m.directory, m.uses, n.depth + 1);
      var nodes := Targets(env, m.directory, m.uses, n.depth + 1).value;
      assert (s.queue + nodes)[|s.queue|..] == nodes;
    }
  }

  lemma EffectKeepsTable(env: Env, roots: seq<string>, scope: Option<Context>, s: Search, n: Node, t: Search)
    requires Table(env, roots, scope, s) && Effect(env, roots, scope, s, n, t)
    ensures Table(env, roots, scope, t)
  {
    assert SelectionOf(env, roots, scope, n.ref).reference == n.ref;
    hide SelectionOf, IdentityOf, UseRefs;
  }

  lemma EffectKeepsWaiting(env: Env, roots: seq<string>, scope: Option<Context>, s: Search, n: Node, rest: seq<Node>,
                           t: Search)
    requires Waiting(s, [n] + rest) && Effect(env, roots, scope, s, n, t)
    ensures Waiting(t, rest) && s.loaded[|s.loaded| - |rest| - 1] == n.ref
  {
    assert ([n] + rest)[0] == n;
    forall k | 0 <= k < |rest| ensures s.loaded[|s.loaded| - |rest| + k] == rest[k].ref {
      assert ([n] + rest)[k + 1] == rest[k];
    }
  }

  lemma EffectKeepsFirstSeen(env: Env, roots: seq<string>, scope: Option<Context>, s: Search, n: Node, here: nat,
                             t: Search)
    requires Table(env, roots, scope, s) && Effect(env, roots, scope, s, n, t)
    requires here < |s.loaded| && s.loaded[here] == n.ref && FirstSeenInv(env, s, here)
    ensures FirstSeenInv(env, t, here + 1)
  {
    assert SelectionOf(env, roots, scope, n.ref).reference == n.ref;
    hide SelectionOf, IdentityOf, UseRefs;
    assert s.loaded[..here + 1] == s.loaded[..here] + [n.ref];
    forall i | 0 <= i <= here ensures RepresentedAt(env, t, i) {
      if i < here {
        assert RepresentedAt(env, s, i);
      }
    }
  }

  lemma EffectKeepsPending(env: Env, roots: seq<string>, scope: Option<Context>, s: Search, n: Node, t: Search,
                           ref: string)
    requires Effect(env, roots, scope, s, n, t) && Pending(s, ref)
    ensures Pending(t, ref)
  {
    if ref !in s.loaded {
      var k :| 0 <= k < |s.queue| && s.queue[k].ref == ref;
      assert t.queue[k].ref == ref;
    }
  }

  lemma EffectKeepsClosed(env: Env, roots: seq<string>, scope: Option<Context>, s: Search, n: Node, t: Search)
    requires Closed(env, s) && Effect(env, roots, scope, s, n, t)
    ensures Closed(env, t)
  {
    forall k, u | 0 <= k < |t.selections| && t.selections[k].available && u in UseRefs(env, t.selections[k].reference)
      ensures Pending(t, u)
    {
      if k < |s.selections| {
        EffectKeepsPending(env, roots, scope, s, n, t, u);
      } else {
        var added := References(t.queue[|s.queue|..]);
        var m :| 0 <= m < |added| && added[m] == u;
        assert t.queue[|s.queue| + m].ref == u;
      }
    }
  }

  lemma {:induction false} EffectKeepsSound(env: Env, roots: seq<string>, scope: Option<Context>, s: Search, n: Node,
                                            t: Search)
    requires Sound(env, roots, s) && Effect(env, roots, scope, s, n, t) && n.ref in s.loaded
    ensures Sound(env, roots, t)
  {
    var more := t.selections[|s.selections|..];
    assert t.selections == s.selections + more;
    forall r | Reachable(env, roots, s.selections, r) ensures Reachable(env, roots, t.selections, r) {
      ReachableGrows(env, roots, s.selections, more, r);
    }
    forall k | 0 <= k < |t.queue| ensures Reachable(env, roots, t.selections, t.queue[k].ref) {
      if k < |s.queue| {
        assert t.queue[k] == s.queue[k];
      } else {
        assert References(t.queue[|s.queue|..])[k - |s.queue|] == t.queue[k].ref;
        assert t.selections[|s.selections|].reference == n.ref;
        assert Follows(env, t.selections, n.ref, t.queue[k].ref);
        ReachableStep(env, roots, t.selections, n.ref, t.queue[k].ref);
      }
    }
  }

  lemma EffectKeepsRootsFirst(env: Env, roots: seq<string>, scope: Option<Context>, s: Search, n: Node,
                              rest: seq<Node>, first: bool, t: Search)
    requires RootsFirst(roots, s, [n] + rest, first) && Effect(env, roots, scope, s, n, t)
    ensures RootsFirst(roots, t, rest, first)
  {
    forall r | r in roots ensures Pending(t, r) {
      EffectKeepsPending(env, roots, scope, s, n, t, r);
    }
    assert ([n] + rest)[0] == n;
    forall k | 0 <= k < |rest| ensures rest[k].ref in roots <==> first {
      assert ([n] + rest)[k + 1] == rest[k];
    }
  }

  lemma {:induction false} VisitKeepsInv(env: Env, roots: seq<string>, scope: Option<Context>, s: Search, n: Node,
                                         rest: seq<Node>, first: bool)
    requires Inv(env, roots, scope, s, [n] + rest, first) && Visit(env, roots, scope, s, n).Ok?
    ensures Inv(env, roots, scope, Visit(env, roots, scope, s, n).value, rest, first)
  {
    assert ([n] + rest)[0] == n;
    VisitEffect(env, roots, scope, s, n);
    EffectKeepsInv(env, roots, scope, s, n, rest, first, Visit(env, roots, scope, s, n).value);
  }

  lemma {:induction false} EffectKeepsInv(env: Env, roots: seq<string>, scope: Option<Context>, s: Search, n: Node,
                                          rest: seq<Node>, first: bool, t: Search)
    requires Inv(env, roots, scope, s, [n] + rest, first) && Effect(env, roots, scope, s, n, t)
    ensures Inv(env, roots, scope, t, rest, first)
  {
    var here := |s.loaded| - |[n] + rest|;
    EffectKeepsWaiting(env, roots, scope, s, n, rest, t);
    EffectKeepsTable(env, roots, scope, s, n, t);
    EffectKeepsFirstSeen(env, roots, scope, s, n, here, t);
    EffectKeepsClosed(env, roots, scope, s, n, t);
    assert n.ref in s.loaded;
    EffectKeepsSound(env, roots, scope, s, n, t);
    EffectKeepsRootsFirst(env, roots, scope, s, n, rest, first, t);
  }

  lemma VisitAllNone(env: Env, roots: seq<string>, scope: Option<Context>, s: Search, depth: nat)
    requires Level(s.queue, depth + 1)
    ensures AllDepth([], depth) && VisitAll(env, roots, scope, s, [], depth) == Ok(s)
  {
  }

  lemma VisitAllStep(env: Env, roots: seq<string>, scope: Option<Context>, s: Search, pending: seq<Node>, depth: nat)
    requires AllDepth(pending, depth) && Level(s.queue, depth + 1) && pending != []
    ensures var next := Visit(env, roots, scope, s, pending[0]);
            if next.Err? then VisitAll(env, roots, scope, s, pending, depth) == Err(next.error)
            else
              && AllDepth(pending[1..], depth) && Level(next.value.queue, depth + 1)
              && VisitAll(env, roots, scope, s, pending, depth)
                  == VisitAll(env, roots, scope, next.value, pending[1..], depth)
  {
  }

  lemma {:induction false} VisitAllKeepsInv(env: Env, roots: seq<string>, scope: Option<Context>, s: Search,
                                            pending: seq<Node>, depth: nat, first: bool)
    requires AllDepth(pending, depth) && Level(s.queue, depth + 1)
    requires Inv(env, roots, scope, s, pending, first) && VisitAll(env, roots, scope, s, pending, depth).Ok?
    ensures Inv(env, roots, scope, VisitAll(env, roots, scope, s, pending, depth).value, [], first)
    decreases |pending|
  {
    hide *;
    if pending == [] {
      VisitAllNone(env, roots, scope, s, depth);
    } else {
      assert pending == [pending[0]] + pending[1..];
      VisitAllStep(env, roots, scope, s, pending, depth);
      VisitKeepsInv(env, roots, scope, s, pending[0], pending[1..], first);
      VisitAllKeepsInv(env, roots, scope, Visit(env, roots, scope, s, pending[0]).value, pending[1..], depth, first);
    }
  }

  // ---- one wave ----

  lemma DistinctSnoc(refs: seq<string>, ref: string)
    requires Distinct(refs) && ref !in refs
    ensures Distinct(refs + [ref])
  {
  }

  lemma ReferencesCons(n: Node, rest: seq<Node>)
    ensures References([n] + rest) == [n.ref] + References(rest)
  {
  }

  lemma UnseenStep(wave: seq<Node>, loaded: seq<string>)
    requires wave != [] && wave[0].ref !in loaded
    ensures loaded + References(Unseen(wave, loaded))
         == loaded + [wave[0].ref] + References(Unseen(wave[1..], loaded + [wave[0].ref]))
  {
    var rest := Unseen(wave[1..], loaded + [wave[0].ref]);
    ReferencesCons(wave[0], rest);
    AppendAssociates(loaded, [wave[0].ref], References(rest));
  }

  /** The fresh references of a wave are distinct and new, and together with the old ones they cover the wave. */
  lemma {:induction false} UnseenIsNew(wave: seq<Node>, loaded: seq<string>)
    requires Distinct(loaded)
    ensures Distinct(loaded + References(Unseen(wave, loaded)))
    ensures forall k :: 0 <= k < |wave| ==> wave[k].ref in loaded + References(Unseen(wave, loaded))
    decreases |wave|
  {
    if wave == [] {
      assert loaded + References([]) == loaded;
    } else {
      hide Distinct;
      if wave[0].ref in loaded {
        UnseenIsNew(wave[1..], loaded);
      } else {
        DistinctSnoc(loaded, wave[0].ref);
        UnseenIsNew(wave[1..], loaded + [wave[0].ref]);
        UnseenStep(wave, loaded);
      }
      forall k | 0 <= k < |wave| ensures wave[k].ref in loaded + References(Unseen(wave, loaded)) {
        if k > 0 { assert wave[k] == wave[1..][k - 1]; }
      }
    }
  }

  /** The state in which the visits of a wave start. */
  function Entered(s: Search): Search {
    s.(queue := [], loaded := s.loaded + References(Unseen(s.queue, s.loaded)))
  }

  lemma EnterCovers(s: Search, r: string)
    requires Distinct(s.loaded) && Pending(s, r)
    ensures r in Entered(s).loaded
  {
    UnseenIsNew(s.queue, s.loaded);
    if r !in s.loaded {
      var k :| 0 <= k < |s.queue| && s.queue[k].ref == r;
    }
  }

  lemma EnterKeepsSound(env: Env, roots: seq<string>, s: Search)
    requires Sound(env, roots, s)
    ensures Sound(env, roots, Entered(s))
  {
    var pending, t := Unseen(s.queue, s.loaded), Entered(s);
    forall i | 0 <= i < |t.loaded| ensures Reachable(env, roots, t.selections, t.loaded[i]) {
      if i >= |s.loaded| {
        var k :| 0 <= k < |s.queue| && s.queue[k] == pending[i - |s.loaded|];
      }
    }
  }

  lemma EnterKeepsClosed(env: Env, s: Search)
    requires Distinct(s.loaded) && Closed(env, s)
    ensures Closed(env, Entered(s))
  {
    forall k, u | 0 <= k < |s.selections| && s.selections[k].available && u in UseRefs(env, s.selections[k].reference)
      ensures Pending(Entered(s), u)
    {
      EnterCovers(s, u);
    }
  }

  lemma {:induction false} EnterKeepsInv(env: Env, roots: seq<string>, scope: Option<Context>, s: Search, first: bool,
                                         next: bool)
    requires Inv(env, roots, scope, s, [], first)
    requires forall k :: 0 <= k < |Unseen(s.queue, s.loaded)| ==> (Unseen(s.queue, s.loaded)[k].ref in roots <==> next)
    requires next ==> forall k :: 0 <= k < |s.selections| ==> s.selections[k].root
    ensures Inv(env, roots, scope, Entered(s), Unseen(s.queue, s.loaded), next)
  {
    hide Closed, Sound, FirstSeenInv, RootsFirst, Table, Waiting, Unseen, SelectionOf;
    EnterKeepsWaiting(s);
    EnterKeepsTable(env, roots, scope, s);
    EnterKeepsRootsFirst(roots, s, first, next);
    EnterKeepsFirstSeen(env, s, |s.loaded|);
    EnterKeepsSound(env, roots, s);
    EnterKeepsClosed(env, s);
  }

  lemma EnterKeepsWaiting(s: Search)
    requires Waiting(s, [])
    ensures Distinct(s.loaded) && Waiting(Entered(s), Unseen(s.queue, s.loaded))
  {
    hide Unseen, Distinct;
    UnseenIsNew(s.queue, s.loaded);
  }

  lemma EnterKeepsTable(env: Env, roots: seq<string>, scope: Option<Context>, s: Search)
    requires Table(env, roots, scope, s)
    ensures Table(env, roots, scope, Entered(s))
  {
    hide SelectionOf, IdentityOf;
  }

  lemma EnterKeepsRootsFirst(roots: seq<string>, s: Search, first: bool, next: bool)
    requires Distinct(s.loaded) && RootsFirst(roots, s, [], first)
    requires forall k :: 0 <= k < |Unseen(s.queue, s.loaded)| ==> (Unseen(s.queue, s.loaded)[k].ref in roots <==> next)
    requires next ==> forall k :: 0 <= k < |s.selections| ==> s.selections[k].root
    ensures RootsFirst(roots, Entered(s), Unseen(s.queue, s.loaded), next)
  {
    hide Unseen, Distinct, Pending;
    forall r | r in roots ensures Pending(Entered(s), r) { EnteredPending(s, r); }
  }

  lemma EnteredPending(s: Search, r: string)
    requires Distinct(s.loaded) && Pending(s, r)
    ensures Pending(Entered(s), r)
  {
    EnterCovers(s, r);
  }

  lemma EnterKeepsFirstSeen(env: Env, s: Search, visited: nat)
    requires visited == |s.loaded| && FirstSeenInv(env, s, visited)
    ensures FirstSeenInv(env, Entered(s), visited)
  {
    var t := Entered(s);
    assert t.loaded[..visited] == s.loaded && s.loaded[..visited] == s.loaded;
    forall i | 0 <= i < visited ensures RepresentedAt(env, t, i) {
      assert RepresentedAt(env, s, i) && t.loaded[..i + 1] == s.loaded[..i + 1];
    }
  }

  /**
   * What holds between waves: the invariant with nothing waiting, and after the first wave every root has been visited.
   */
  ghost predicate Between(env: Env, roots: seq<string>, scope: Option<Context>, s: Search, depth: nat) {
    && Inv(env, roots, scope, s, [], depth <= 1)
    && (if depth == 0 then s == StartSearch(roots) else forall r :: r in roots ==> r in s.loaded)
  }

  /** What holds when the queue has run dry. */
  ghost predicate Complete(env: Env, roots: seq<string>, scope: Option<Context>, s: Search) {
    && s.queue == [] && Inv(env, roots, scope, s, [], false) && forall r :: r in roots ==> r in s.loaded
  }

  lemma {:induction false} ExploreCompletes(env: Env, roots: seq<string>, scope: Option<Context>, s: Search,
                                            depth: nat, last: Search)
    requires Level(s.queue, depth)
    requires Between(env, roots, scope, s, depth) && Explore(env, roots, scope, s, depth) == Ok(last)
    ensures Complete(env, roots, scope, last)
    decreases MAX_DEPTH + 1 - depth
  {
    hide *;
    if s.queue == [] {
      ExploreDry(env, roots, scope, s, depth);
      DryIsComplete(env, roots, scope, s, depth);
    } else {
      ExploreStep(env, roots, scope, s, depth);
      var t := RunWave(env, roots, scope, s, depth).value;
      WaveKeepsBetween(env, roots, scope, s, depth, t);
      ExploreCompletes(env, roots, scope, t, depth + 1, last);
    }
  }

  lemma ExploreDry(env: Env, roots: seq<string>, scope: Option<Context>, s: Search, depth: nat)
    requires Level(s.queue, depth) && s.queue == []
    ensures Explore(env, roots, scope, s, depth) == Ok(s)
  {
  }

  lemma DryIsComplete(env: Env, roots: seq<string>, scope: Option<Context>, s: Search, depth: nat)
    requires Between(env, roots, scope, s, depth) && s.queue == []
    ensures Complete(env, roots, scope, s)
  {
    if depth == 0 {
      assert |s.queue| == |roots|;
    }
  }

  lemma PendingRoots(roots: seq<string>, s: Search, depth: nat)
    requires Distinct(s.loaded)
    requires if depth == 0 then s == StartSearch(roots) else forall r :: r in roots ==> r in s.loaded
    ensures forall k :: 0 <= k < |Unseen(s.queue, s.loaded)| ==>
              (Unseen(s.queue, s.loaded)[k].ref in roots <==> depth == 0)
  {
    hide Distinct, Unseen;
    var pending := Unseen(s.queue, s.loaded);
    UnseenIsNew(s.queue, s.loaded);
    var refs := s.loaded + References(pending);
    forall k | 0 <= k < |pending| ensures pending[k].ref in roots <==> depth == 0 {
      assert refs[|s.loaded| + k] == pending[k].ref;
      var q :| 0 <= q < |s.queue| && s.queue[q] == pending[k];
      if depth == 0 {
        assert s.queue[q] == Node(roots[q], 0);
      } else {
        NewIsNotOld(s.loaded, References(pending), k);
      }
    }
  }

  lemma NewIsNotOld(old_: seq<string>, new_: seq<string>, k: nat)
    requires Distinct(old_ + new_) && k < |new_|
    ensures new_[k] !in old_
  {
    assert (old_ + new_)[|old_| + k] == new_[k];
    forall j | 0 <= j < |old_| ensures old_[j] != new_[k] {
      assert (old_ + new_)[j] == old_[j];
    }
  }

  lemma {:induction false} WaveKeepsBetween(env: Env, roots: seq<string>, scope: Option<Context>, s: Search,
                                            depth: nat, t: Search)
    requires Level(s.queue, depth) && depth <= MAX_DEPTH
    requires Between(env, roots, scope, s, depth) && RunWave(env, roots, scope, s, depth) == Ok(t)
    ensures Between(env, roots, scope, t, depth + 1)
  {
    var pending := Unseen(s.queue, s.loaded);
    PendingRoots(roots, s, depth);
    EnterKeepsInv(env, roots, scope, s, depth <= 1, depth == 0);
    RootsEntered(roots, s, depth <= 1);
    VisitAllKeepsInv(env, roots, scope, Entered(s), pending, depth, depth == 0);
    VisitAllKeepsLoaded(env, roots, scope, Entered(s), pending, depth);
  }

  lemma RootsEntered(roots: seq<string>, s: Search, first: bool)
    requires Distinct(s.loaded) && RootsFirst(roots, s, [], first)
    ensures forall r :: r in roots ==> r in Entered(s).loaded
  {
    UnseenIsNew(s.queue, s.loaded);
    forall r | r in roots ensures r in Entered(s).loaded {
      assert Pending(s, r);
    }
  }

  lemma {:induction false} VisitAllKeepsLoaded(env: Env, roots: seq<string>, scope: Option<Context>, s: Search,
                                               pending: seq<Node>, depth: nat)
    requires AllDepth(pending, depth) && Level(s.queue, depth + 1)
    requires VisitAll(env, roots, scope, s, pending, depth).Ok?
    ensures VisitAll(env, roots, scope, s, pending, depth).value.loaded == s.loaded
    decreases |pending|
  {
    if pending != [] {
      VisitAllKeepsLoaded(env, roots, scope, Visit(env, roots, scope, s, pending[0]).value, pending[1..], depth);
    }
  }

  // ---- the search is sound and complete ----

  lemma StartInv(env: Env, roots: seq<string>, scope: Option<Context>)
    ensures Inv(env, roots, scope, StartSearch(roots), [], true)
  {
    var s := StartSearch(roots);
    forall k | 0 <= k < |s.queue| ensures Reachable(env, roots, s.selections, s.queue[k].ref) {
      ReachableRoot(env, roots, s.selections, s.queue[k].ref);
    }
    forall r | r in roots ensures Pending(s, r) {
      var k :| 0 <= k < |roots| && roots[k] == r;
      assert s.queue[k].ref == r;
    }
  }

  lemma {:induction false} ChainIsLoaded(env: Env, roots: seq<string>, s: Search, path: seq<string>)
    requires s.queue == [] && Closed(env, s) && (forall r :: r in roots ==> r in s.loaded)
    requires Chain(env, roots, s.selections, path)
    ensures path[|path| - 1] in s.loaded
    decreases |path|
  {
    if |path| > 1 {
      var last := |path| - 1;
      assert Chain(env, roots, s.selections, path[..last]);
      assert Follows(env, s.selections, path[last - 1], path[last]);
      var k :| 0 <= k < |s.selections| && s.selections[k].reference == path[last - 1] && s.selections[k].available;
      assert Pending(s, path[last]);
    }
  }

  /** The references asked for are exactly those reachable through the representatives, each once. */
  ghost predicate LoadedExactly(env: Env, roots: seq<string>, sels: seq<Selection>, loaded: seq<string>) {
    Distinct(loaded) && forall r :: r in loaded <==> Reachable(env, roots, sels, r)
  }

  /** One selection per identity, made for the reference of that identity that was visited first. */
  ghost predicate OnePerIdentity(env: Env, sels: seq<Selection>, loaded: seq<string>) {
    && (forall k :: 0 <= k < |sels| ==> sels[k].reference in loaded)
    && (forall j, k :: 0 <= j < k < |sels| ==> IdentityOf(env, sels[j].reference) != IdentityOf(env, sels[k].reference))
    && forall i :: 0 <= i < |loaded| ==> FirstOf(env, sels, loaded, i)
  }

  predicate FirstOf(env: Env, sels: seq<Selection>, loaded: seq<string>, i: nat)
    requires i < |loaded|
  {
    exists k :: 0 <= k < |sels| && IdentityOf(env, sels[k].reference) == IdentityOf(env, loaded[i])
        && sels[k].reference in loaded[..i + 1]
  }

  lemma CompleteIsExact(env: Env, roots: seq<string>, scope: Option<Context>, s: Search)
    requires Complete(env, roots, scope, s)
    ensures LoadedExactly(env, roots, s.selections, s.loaded) && OnePerIdentity(env, s.selections, s.loaded)
  {
    assert s.loaded[..|s.loaded|] == s.loaded;
    forall r | Reachable(env, roots, s.selections, r) ensures r in s.loaded {
      var path :| Chain(env, roots, s.selections, path) && path[|path| - 1] == r;
      ChainIsLoaded(env, roots, s, path);
    }
    forall i | 0 <= i < |s.loaded| ensures FirstOf(env, s.selections, s.loaded, i) {
      assert RepresentedAt(env, s, i);
    }
  }

  /**
   * On success the search has asked for exactly the references reachable through the first-seen representatives, each
   * once; the selections are one per identity among them, each decided by the selection rule; and the roots come first.
   */
  lemma {:induction false} SelectionsAreReachableIdentities(env: Env, roots: seq<string>, scope: Option<Context>,
                                                            plan: Plan) returns (loaded: seq<string>)
    requires PlanSpec(env, roots, scope) == Ok(plan)
    ensures Explore(env, roots, scope, StartSearch(roots), 0).Ok?
    ensures loaded == Explore(env, roots, scope, StartSearch(roots), 0).value.loaded
    ensures LoadedExactly(env, roots, plan.selections, loaded) && OnePerIdentity(env, plan.selections, loaded)
    ensures forall k :: 0 <= k < |plan.selections| ==>
              plan.selections[k] == SelectionOf(env, roots, scope, plan.selections[k].reference)
    ensures forall j, k :: 0 <= j < k < |plan.selections| && plan.selections[k].root ==> plan.selections[j].root
  {
    var s := Explore(env, roots, scope, StartSearch(roots), 0).value;
    StartInv(env, roots, scope);
    ExploreCompletes(env, roots, scope, StartSearch(roots), 0, s);
    CompleteIsExact(env, roots, scope, s);
    loaded := s.loaded;
  }

  // ---- the scope decides what is selected, never what is found ----

  function Blind(sels: seq<Selection>): (blind: seq<Selection>)
    ensures |blind| == |sels|
    ensures forall k :: 0 <= k < |sels| ==> blind[k] == sels[k].(selected := true, reason := "")
  {
    seq(|sels|, k requires 0 <= k < |sels| => sels[k].(selected := true, reason := ""))
  }

  ghost predicate Alike(a: Search, b: Search) {
    a.(selections := []) == b.(selections := []) && Blind(a.selections) == Blind(b.selections)
  }

  ghost predicate BothOrNeither(a: Result<Search, PlanError>, b: Result<Search, PlanError>) {
    if a.Ok? then b.Ok? && Alike(a.value, b.value) else a == b
  }

  lemma {:induction false} VisitAlike(env: Env, roots: seq<string>, x: Option<Context>, y: Option<Context>, s: Search,
                                      t: Search, n: Node)
    requires Alike(s, t)
    ensures BothOrNeither(Visit(env, roots, x, s, n), Visit(env, roots, y, t, n))
  {
    hide Targets, Blind;
    var (sels, tels) := (s.selections, t.selections);
    var (a, b) := (SelectionOf(env, roots, x, n.ref), SelectionOf(env, roots, y, n.ref));
    var id := IdentityOf(env, n.ref);
    assert a.(selected := true, reason := "") == b.(selected := true, reason := "");
    BlindAppend(sels, tels, a, b);
    if id in s.identities && s.identities[id] < |sels| {
      BlindUpdate(sels, tels, s.identities[id], a, b);
    }
  }

  lemma BlindAppend(sels: seq<Selection>, tels: seq<Selection>, a: Selection, b: Selection)
    requires Blind(sels) == Blind(tels) && a.(selected := true, reason := "") == b.(selected := true, reason := "")
    ensures |sels| == |tels| && Blind(sels + [a]) == Blind(tels + [b])
  {
    assert |Blind(sels)| == |Blind(tels)|;
    forall k | 0 <= k < |sels|
      ensures sels[k].(selected := true, reason := "") == tels[k].(selected := true, reason := "")
    {
      assert Blind(sels)[k] == Blind(tels)[k];
    }
  }

  lemma BlindUpdate(sels: seq<Selection>, tels: seq<Selection>, p: nat, a: Selection, b: Selection)
    requires Blind(sels) == Blind(tels) && p < |sels|
             && a.(selected := true, reason := "") == b.(selected := true, reason := "")
    ensures |sels| == |tels| && sels[p].root == tels[p].root && Blind(sels[p := a]) == Blind(tels[p := b])
  {
    assert |Blind(sels)| == |Blind(tels)|;
    forall k | 0 <= k < |sels|
      ensures sels[k].(selected := true, reason := "") == tels[k].(selected := true, reason := "")
    {
      assert Blind(sels)[k] == Blind(tels)[k];
    }
  }

  lemma {:induction false} VisitAllAlike(env: Env, roots: seq<string>, x: Option<Context>, y: Option<Context>,
                                         s: Search, t: Search, pending: seq<Node>, depth: nat)
    requires Alike(s, t)
    requires AllDepth(pending, depth) && Level(s.queue, depth + 1)
    ensures BothOrNeither(VisitAll(env, roots, x, s, pending, depth), VisitAll(env, roots, y, t, pending, depth))
    decreases |pending|
  {
    if pending != [] {
      VisitAlike(env, roots, x, y, s, t, pending[0]);
      var (u, v) := (Visit(env, roots, x, s, pending[0]), Visit(env, roots, y, t, pending[0]));
      if u.Ok? {
        VisitAllAlike(env, roots, x, y, u.value, v.value, pending[1..], depth);
      }
    }
  }

  lemma {:induction false} ExploreAlike(env: Env, roots: seq<string>, x: Option<Context>, y: Option<Context>,
                                        s: Search, t: Search, depth: nat)
    requires Alike(s, t)
    requires Level(s.queue, depth)
    ensures BothOrNeither(Explore(env, roots, x, s, depth), Explore(env, roots, y, t, depth))
    decreases MAX_DEPTH + 1 - depth
  {
    if s.queue != [] {
      ExploreStep(env, roots, x, s, depth);
      ExploreStep(env, roots, y, t, depth);
      VisitAllAlike(env, roots, x, y, Entered(s), Entered(t), Unseen(s.queue, s.loaded), depth);
      var (u, v) := (RunWave(env, roots, x, s, depth), RunWave(env, roots, y, t, depth));
      if u.Ok? {
        ExploreAlike(env, roots, x, y, u.value, v.value, depth + 1);
      }
    }
  }

  /** Two plans that differ only in the scope fail alike, or find the same selections in the same order. */
  lemma ScopeNeverChangesDiscovery(env: Env, roots: seq<string>, x: Option<Context>, y: Option<Context>)
    ensures var (a, b) := (PlanSpec(env, roots, x), PlanSpec(env, roots, y));
            if a.Ok?
            then b.Ok? && Blind(a.value.selections) == Blind(b.value.selections)
                 && a.value.complete == b.value.complete && a.value.voiceRoots == b.value.voiceRoots
            else a == b
  {
    ExploreAlike(env, roots, x, y, StartSearch(roots), StartSearch(roots), 0);
  }

  /** Roots and members without metadata are always selected, and without a scope everything is. */
  lemma AlwaysSelected(env: Env, roots: seq<string>, scope: Option<Context>, plan: Plan, k: nat)
    requires PlanSpec(env, roots, scope) == Ok(plan) && k < |plan.selections|
    ensures plan.selections[k].root || !plan.selections[k].available || scope.None? ==>
              plan.selections[k].selected && plan.selections[k].resolved in plan.refs
    ensures plan.selections[k].root <==> plan.selections[k].reference in roots
  {
    var loaded := SelectionsAreReachableIdentities(env, roots, scope, plan);
    assert plan.selections[k] == SelectionOf(env, roots, scope, plan.selections[k].reference);
    if plan.selections[k].selected {
      SelectedAreListed(plan.selections, k);
    }
  }

  lemma {:induction false} SelectedAreListed(sels: seq<Selection>, k: nat)
    requires k < |sels| && sels[k].selected
    ensures sels[k].resolved in SelectedRefs(sels)
    decreases |sels|
  {
    if k < |sels| - 1 {
      SelectedAreListed(sels[..|sels| - 1], k);
    }
  }

  // ---- the reference list of a plan ----

  /** `at` lists, in order, exactly the selections that are selected, and `refs` their resolved references. */
  ghost predicate ListsSelected(refs: seq<string>, selections: seq<Selection>, at: seq<nat>) {
    && |at| == |refs|
    && (forall i :: 0 <= i < |at| ==>
          at[i] < |selections| && selections[at[i]].selected && refs[i] == selections[at[i]].resolved)
    && (forall i, j :: 0 <= i < j < |at| ==> at[i] < at[j])
    && forall k :: 0 <= k < |selections| && selections[k].selected ==> k in at
  }

  lemma {:induction false} SelectedRefsMean(selections: seq<Selection>) returns (at: seq<nat>)
    ensures ListsSelected(SelectedRefs(selections), selections, at)
  {
    if selections == [] {
      at := [];
    } else {
      hide ListsSelected;
      var (before, last) := (selections[..|selections| - 1], selections[|selections| - 1]);
      var earlier := SelectedRefsMean(before);
      at := earlier + if last.selected then [|before|] else [];
      assert selections == before + [last];
      ListsOneMore(SelectedRefs(before), before, earlier, last);
    }
  }

  lemma ListsOneMore(refs: seq<string>, selections: seq<Selection>, at: seq<nat>, last: Selection)
    requires ListsSelected(refs, selections, at)
    ensures ListsSelected(refs + if last.selected then [last.resolved] else [], selections + [last],
                          at + if last.selected then [|selections|] else [])
  {
    var (all, more) := (selections + [last], at + if last.selected then [|selections|] else []);
    forall k | 0 <= k < |all| && all[k].selected ensures k in more {
      if k < |selections| {
        assert k in at;
      } else {
        assert more[|at|] == k;
      }
    }
  }

  /** A plan lists the resolved references of exactly its selected selections, in order. */
  lemma PlanListsExactlyTheSelected(env: Env, roots: seq<string>, scope: Option<Context>, plan: Plan)
    returns (at: seq<nat>)
    requires PlanSpec(env, roots, scope) == Ok(plan)
    ensures ListsSelected(plan.refs, plan.selections, at)
  {
    hide Explore, SelectedRefs, ListsSelected;
    at := SelectedRefsMean(plan.selections);
  }
}
