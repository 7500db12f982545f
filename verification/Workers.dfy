/** The worker pool of a verification run: every interleaving fills the slots as one worker would (verify.go, Run). */
module Workers {
  import opened Prelude
  import opened Sources
  import opened Verify
  import opened Replay

  // ---- one candidate in atomic steps: a provider call, a read, or bookkeeping ----

  datatype Progress =
    | Calling(round: int, attempt: nat, previous: Option<Decision>, invalidOutput: Option<Json>, flaw: Option<Flaw>,
              g: Gathering, earlier: seq<Call>, calls: seq<Call>)
    | Fetching(first: Decision, rest: seq<ReadRequest>, g: Gathering, calls: seq<Call>)
    | Finished(outcome: Outcome)

  /**
   * The provider, the pinned repository, and what reads show through the collector's cache. A run that is not `live`
   * has no reader: it replays a saved report.
   */
  datatype Env = Env(model: Option<Model>, live: bool, repo: Key -> File, view: Key -> File,
                     candidates: seq<Candidate>) {
    function Reading(): Option<Reader> {
      if live then Some(Reads(view)) else None
    }

    /** The reader as one worker meets it: it goes through whatever the cache holds at that moment. */
    function ReadingNow(cache: map<Key, File>): Option<Reader> {
      if live then Some((r: ReadRequest) => CachedRead(cache, repo, r)) else None
    }

    function Expected(i: nat): Outcome
      requires i < |candidates|
    {
      VerifySpec(model, Reading(), candidates[i])
    }
  }

  /** Where reads happen, they show the view through the cache. */
  ghost predicate Shows(env: Env, cache: map<Key, File>) {
    env.live ==> Consistent(cache, env.repo, env.view)
  }

  function Start(env: Env, c: Candidate): Progress {
    if c.contextError != "" || env.model.None? then Finished(VerifySpec(env.model, env.Reading(), c))
    else Calling(1, 1, None, None, None, Gathered(c.retrieved, c.sources), [], [])
  }

  predicate Sensible(env: Env, pr: Progress) {
    (pr.Finished? || env.model.Some?) && (pr.Calling? && pr.attempt > 3 ==> pr.flaw.Some?)
  }

  /** Where a finished stage leads. */
  function AfterStage(c: Candidate, round: int, g: Gathering, earlier: seq<Call>, stage: Stage): Progress {
    if round == 1 && AsksForMore(stage.result)
    then Fetching(stage.result.value, stage.result.value.requests, g, earlier + stage.calls)
    else Finished(Outcome(Conclude(c.id, stage.result), earlier + stage.calls, g.retrieved))
  }

  function Advance(env: Env, c: Candidate, pr: Progress, cache: map<Key, File>): (Progress, map<Key, File>)
    requires Sensible(env, pr) && !pr.Finished?
  {
    match pr
    case Calling(round, attempt, previous, invalidOutput, flaw, g, earlier, calls) =>
      var working := WorkingCandidate(c, g.sources);
      if attempt > 3 then (AfterStage(c, round, g, earlier, Stage(Err(InvalidDecision(flaw.value)), calls)), cache)
      else
        var input := Prompt(working, previous, invalidOutput, flaw);
        if env.model.value.size(input) > MAX_INPUT_BYTES
        then (AfterStage(c, round, g, earlier, Stage(Err(InputBudget), calls)), cache)
        else
          var (verdict, call) := Judge(env.model.value.review(input), working, NewCall(working, round, attempt, input));
          (match verdict
           case Final(result) => AfterStage(c, round, g, earlier, Stage(result, calls + [call]))
           case Correct(f) => Calling(round, attempt + 1, previous, call.output, Some(f), g, earlier, calls + [call]),
           cache)
    case Fetching(first, rest, g, calls) =>
      if rest == [] then (Calling(2, 1, Some(Withheld(first)), None, None, g, calls, []), cache)
      else
        var r := rest[0];
        var misses := env.live && !SavedRequest(g.sources, r)
            && (FirstStanding(g.retrieved, r).None? || FirstStanding(g.retrieved, r).value.id == NoId);
        (Fetching(first, rest[1..], FetchOne(env.ReadingNow(cache), g, r), calls),
         if misses then Loaded(cache, env.repo, r) else cache)
  }

  // ---- the steps add up to the protocol ----

  /** What the steps that remain come to when nobody interferes. */
  function Remaining(env: Env, c: Candidate, pr: Progress): Outcome
    requires Sensible(env, pr)
  {
    match pr
    case Finished(outcome) => outcome
    case Fetching(first, rest, g, calls) => AfterFetch(env, c, first, Fetch(env.Reading(), g, rest), calls)
    case Calling(round, attempt, previous, invalidOutput, flaw, g, earlier, calls) =>
      var stage := Ask(env.model.value, WorkingCandidate(c, g.sources), previous, round, attempt, invalidOutput, flaw,
          calls);
      if round == 1 && AsksForMore(stage.result)
      then
        var fetched := Fetch(env.Reading(), g, stage.result.value.requests);
        AfterFetch(env, c, stage.result.value, fetched, earlier + stage.calls)
      else Outcome(Conclude(c.id, stage.result), earlier + stage.calls, g.retrieved)
  }

  function AfterFetch(env: Env, c: Candidate, first: Decision, g: Gathering, calls: seq<Call>): Outcome
    requires env.model.Some?
  {
    var second := SecondStage(env.model.value, c, first, g);
    Outcome(Conclude(c.id, second.result), calls + second.calls, g.retrieved)
  }

  lemma StartRemaining(env: Env, c: Candidate)
    ensures Sensible(env, Start(env, c)) && Remaining(env, c, Start(env, c)) == VerifySpec(env.model, env.Reading(), c)
  {
    if c.contextError == "" && env.model.Some? {
      var first := RequestSpec(env.model.value, WorkingCandidate(c, c.sources), None, 1);
      assert [] + first.calls == first.calls;
    }
  }

  lemma ReadKeepsRemaining(env: Env, c: Candidate, pr: Progress, cache: map<Key, File>)
    requires Sensible(env, pr) && pr.Fetching? && Shows(env, cache)
    ensures var (pr', cache') := Advance(env, c, pr, cache);
            Sensible(env, pr') && Remaining(env, c, pr') == Remaining(env, c, pr) && Shows(env, cache')
  {
    if pr.rest == [] {
    } else {
      hide Ask, SecondStage;
      if env.live { CachedReadIsView(cache, env.repo, env.view, pr.rest[0]); }
    }
  }

  /** An atomic step keeps the outcome in prospect, whatever other workers have loaded into the cache. */
  lemma AdvanceKeepsRemaining(env: Env, c: Candidate, pr: Progress, cache: map<Key, File>)
    requires Sensible(env, pr) && !pr.Finished? && Shows(env, cache)
    ensures var (pr', cache') := Advance(env, c, pr, cache);
            Sensible(env, pr') && Remaining(env, c, pr') == Remaining(env, c, pr) && Shows(env, cache')
  {
    hide Shows;
    if pr.Fetching? {
      ReadKeepsRemaining(env, c, pr, cache);
    }
  }

  /**
   * Serving a request loads its file into the cache exactly when there is a reader and neither a working source nor a
   * kept one answers it; no other step touches the cache.
   */
  lemma {:induction false} FileIsLoadedIff(env: Env, c: Candidate, pr: Progress, cache: map<Key, File>)
    requires Sensible(env, pr) && !pr.Finished?
    requires pr.Fetching? ==> Identified(pr.g.retrieved)
    ensures var cache' := Advance(env, c, pr, cache).1;
            if pr.Fetching? && pr.rest != [] && env.live
               && (forall s :: s in pr.g.sources ==> !Covers(s, pr.rest[0]))
               && (forall s :: s in pr.g.retrieved ==> !Stands(s, pr.rest[0]))
            then cache' == Loaded(cache, env.repo, pr.rest[0]) else cache' == cache
  {
    hide Ask, Covers, Stands, Prompt, FetchOne, Loaded;
    if pr.Fetching? && pr.rest != [] {
      var (r, saved) := (pr.rest[0], pr.g.retrieved);
      FirstStandingMember(saved, r);
      NoneStands(saved, r);
      assert SavedRequest(pr.g.sources, r) <==> exists s :: s in pr.g.sources && Covers(s, r) by {
        if s :| s in pr.g.sources && Covers(s, r) {
          var k :| 0 <= k < |pr.g.sources| && pr.g.sources[k] == s;
        }
      }
    }
  }

  lemma {:induction false} NoneStands(saved: seq<Source>, r: ReadRequest)
    ensures FirstStanding(saved, r).None? ==> forall s :: s in saved ==> !Stands(s, r)
  {
    if saved != [] {
      NoneStands(saved[1..], r);
    }
  }

  // ---- the pool ----

  datatype Worker = Idle | Busy(i: nat, pr: Progress) | Exited

  /** `next` is the job the producer offers on the unbuffered channel; slots hold decisions, calls and retrievals. */
  datatype State = State(next: nat, workers: seq<Worker>, slots: seq<Option<Outcome>>, cache: map<Key, File>)

  datatype Action = Hand(w: nat) | Work(w: nat) | Return(w: nat) | Exit(w: nat)

  function PoolSize(n: nat): nat {
    if n < 4 then n else 4
  }

  function Init(env: Env, cache: map<Key, File>): State {
    var n := |env.candidates|;
    State(0, seq(PoolSize(n), _ => Idle), seq(n, _ => None), cache)
  }

  /** A run starts with at most four idle workers, and no more than there are candidates. */
  lemma PoolStarts(env: Env, cache: map<Key, File>)
    ensures var (st, n) := (Init(env, cache), |env.candidates|);
            && |st.workers| <= 4 && |st.workers| <= n && (|st.workers| == 4 || |st.workers| == n)
            && (forall w :: 0 <= w < |st.workers| ==> st.workers[w].Idle?)
            && |st.slots| == n && (forall i :: 0 <= i < n ==> st.slots[i].None?) && st.next == 0 && st.cache == cache
  {
  }

  predicate Enabled(env: Env, st: State, a: Action) {
    && a.w < |st.workers|
    && match a
       case Hand(w) => st.workers[w].Idle? && st.next < |env.candidates|
       case Work(w) => st.workers[w].Busy? && !st.workers[w].pr.Finished? && Sensible(env, st.workers[w].pr)
           && st.workers[w].i < |env.candidates|
       case Return(w) => st.workers[w].Busy? && st.workers[w].pr.Finished? && st.workers[w].i < |st.slots|
       case Exit(w) => st.workers[w].Idle? && st.next >= |env.candidates|
  }

  function Apply(env: Env, st: State, a: Action): State
    requires Enabled(env, st, a)
  {
    match a
    case Hand(w) =>
      st.(next := st.next + 1, workers := st.workers[w := Busy(st.next, Start(env, env.candidates[st.next]))])
    case Work(w) =>
      var job := st.workers[w];
      var (pr, cache) := Advance(env, env.candidates[job.i], job.pr, st.cache);
      st.(workers := st.workers[w := Busy(job.i, pr)], cache := cache)
    case Return(w) =>
      var job := st.workers[w];
      st.(workers := st.workers[w := Idle], slots := st.slots[job.i := Some(job.pr.outcome)])
    case Exit(w) => st.(workers := st.workers[w := Exited])
  }

  predicate Reaches(env: Env, st: State, actions: seq<Action>, last: State)
    decreases |actions|
  {
    if actions == [] then st == last
    else Enabled(env, st, actions[0]) && Reaches(env, Apply(env, st, actions[0]), actions[1..], last)
  }

  predicate Done(st: State) {
    forall w :: 0 <= w < |st.workers| ==> st.workers[w].Exited?
  }

  // ---- the invariant ----

  ghost predicate WorkerOk(env: Env, st: State, w: nat)
    requires w < |st.workers|
  {
    match st.workers[w]
    case Idle => true
    case Exited => st.next == |env.candidates|
    case Busy(i, pr) =>
      && i < st.next && i < |env.candidates| && i < |st.slots| && st.slots[i].None?
      && Sensible(env, pr) && Remaining(env, env.candidates[i], pr) == env.Expected(i)
  }

  /** A handed-out job is in its slot, correctly filled, or with exactly one worker; later slots are empty. */
  ghost predicate SlotOk(env: Env, st: State, i: nat)
    requires i < |st.slots| == |env.candidates|
  {
    if st.slots[i].Some? then i < st.next && st.slots[i].value == env.Expected(i)
    else i < st.next ==> exists w :: 0 <= w < |st.workers| && st.workers[w].Busy? && st.workers[w].i == i
  }

  ghost predicate Inv(env: Env, st: State) {
    && |st.workers| == PoolSize(|env.candidates|) && |st.slots| == |env.candidates| && st.next <= |env.candidates|
    && Shows(env, st.cache)
    && (forall w :: 0 <= w < |st.workers| ==> WorkerOk(env, st, w))
    && (forall w, v :: 0 <= w < v < |st.workers| && st.workers[w].Busy? && st.workers[v].Busy? ==>
        st.workers[w].i != st.workers[v].i)
    && (forall i :: 0 <= i < |st.slots| ==> SlotOk(env, st, i))
  }

  lemma HandKeepsInv(env: Env, st: State, w: nat)
    requires Inv(env, st) && Enabled(env, st, Hand(w))
    ensures Inv(env, Apply(env, st, Hand(w)))
  {
    var st' := Apply(env, st, Hand(w));
    StartRemaining(env, env.candidates[st.next]);
    forall v | 0 <= v < |st'.workers| ensures WorkerOk(env, st', v) {
      assert WorkerOk(env, st, v);
      assert SlotOk(env, st, st.next);
    }
    forall i | 0 <= i < |st'.slots| ensures SlotOk(env, st', i) {
      assert SlotOk(env, st, i);
      if st'.slots[i].None? && i < st.next {
        var v :| 0 <= v < |st.workers| && st.workers[v].Busy? && st.workers[v].i == i;
        assert st'.workers[v].Busy? && st'.workers[v].i == i;
      } else if i == st.next {
        assert st'.workers[w].Busy? && st'.workers[w].i == i;
      }
    }
    forall u, v | 0 <= u < v < |st'.workers| && st'.workers[u].Busy? && st'.workers[v].Busy?
      ensures st'.workers[u].i != st'.workers[v].i
    {
      assert WorkerOk(env, st, u) && WorkerOk(env, st, v);
    }
  }

  lemma WorkKeepsInv(env: Env, st: State, w: nat)
    requires Inv(env, st) && Enabled(env, st, Work(w))
    ensures Inv(env, Apply(env, st, Work(w)))
  {
    var st' := Apply(env, st, Work(w));
    assert WorkerOk(env, st, w);
    AdvanceKeepsRemaining(env, env.candidates[st.workers[w].i], st.workers[w].pr, st.cache);
    forall v | 0 <= v < |st'.workers| ensures WorkerOk(env, st', v) {
      assert WorkerOk(env, st, v);
    }
    forall i | 0 <= i < |st'.slots| ensures SlotOk(env, st', i) {
      assert SlotOk(env, st, i);
      if st'.slots[i].None? && i < st.next {
        var v :| 0 <= v < |st.workers| && st.workers[v].Busy? && st.workers[v].i == i;
        assert st'.workers[v].Busy? && st'.workers[v].i == i;
      }
    }
  }

  lemma ReturnKeepsInv(env: Env, st: State, w: nat)
    requires Inv(env, st) && Enabled(env, st, Return(w))
    ensures Inv(env, Apply(env, st, Return(w)))
    ensures st.slots[st.workers[w].i].None?
  {
    var st' := Apply(env, st, Return(w));
    assert WorkerOk(env, st, w);
    var job := st.workers[w].i;
    forall v | 0 <= v < |st'.workers| ensures WorkerOk(env, st', v) {
      assert WorkerOk(env, st, v);
      assert v != w && st.workers[v].Busy? ==> st.workers[v].i != job;
    }
    forall i | 0 <= i < |st'.slots| ensures SlotOk(env, st', i) {
      assert SlotOk(env, st, i);
      if i != job && st'.slots[i].None? && i < st.next {
        var v :| 0 <= v < |st.workers| && st.workers[v].Busy? && st.workers[v].i == i;
        assert v != w && st'.workers[v].Busy? && st'.workers[v].i == i;
      }
    }
  }

  lemma ExitKeepsInv(env: Env, st: State, w: nat)
    requires Inv(env, st) && Enabled(env, st, Exit(w))
    ensures Inv(env, Apply(env, st, Exit(w)))
  {
    var st' := Apply(env, st, Exit(w));
    forall v | 0 <= v < |st'.workers| ensures WorkerOk(env, st', v) {
      assert WorkerOk(env, st, v);
    }
    forall i | 0 <= i < |st'.slots| ensures SlotOk(env, st', i) {
      assert SlotOk(env, st, i);
      if st'.slots[i].None? && i < st.next {
        var v :| 0 <= v < |st.workers| && st.workers[v].Busy? && st.workers[v].i == i;
        assert st'.workers[v].Busy? && st'.workers[v].i == i;
      }
    }
  }

  lemma InitInv(env: Env, cache: map<Key, File>)
    requires Shows(env, cache)
    ensures Inv(env, Init(env, cache))
  {
    var st := Init(env, cache);
    forall i | 0 <= i < |st.slots| ensures SlotOk(env, st, i) {}
  }

  /** A step keeps the invariant, and a filled slot is never written again. */
  lemma StepKeepsInv(env: Env, st: State, a: Action)
    requires Inv(env, st) && Enabled(env, st, a)
    ensures Inv(env, Apply(env, st, a))
    ensures forall i :: 0 <= i < |st.slots| && st.slots[i].Some? ==> Apply(env, st, a).slots[i] == st.slots[i]
  {
    match a
    case Hand(w) => HandKeepsInv(env, st, w);
    case Work(w) => WorkKeepsInv(env, st, w);
    case Return(w) => ReturnKeepsInv(env, st, w);
    case Exit(w) => ExitKeepsInv(env, st, w);
  }

  lemma {:induction false} ReachableInv(env: Env, st: State, actions: seq<Action>, last: State)
    requires Inv(env, st) && Reaches(env, st, actions, last)
    ensures Inv(env, last)
    decreases |actions|
  {
    if actions != [] {
      StepKeepsInv(env, st, actions[0]);
      ReachableInv(env, Apply(env, st, actions[0]), actions[1..], last);
    }
  }

  /** How many jobs a schedule hands out; the k-th hand-out is job k, since `next` counts them. */
  function Hands(actions: seq<Action>): nat {
    if actions == [] then 0 else (if actions[0].Hand? then 1 else 0) + Hands(actions[1..])
  }

  lemma {:induction false} HandsCount(env: Env, st: State, actions: seq<Action>, last: State)
    requires Reaches(env, st, actions, last)
    ensures last.next == st.next + Hands(actions)
    decreases |actions|
  {
    if actions != [] {
      HandsCount(env, Apply(env, st, actions[0]), actions[1..], last);
    }
  }

  // ---- scheduling independence ----

  /**
   * Whatever the schedule, a finished pool handed every candidate out once and filled every slot as a sequential run.
   */
  lemma ScheduleDoesNotMatter(env: Env, cache: map<Key, File>, actions: seq<Action>, last: State)
    requires Shows(env, cache)
    requires Reaches(env, Init(env, cache), actions, last) && Done(last)
    ensures Hands(actions) == |env.candidates|
    ensures |last.slots| == |env.candidates|
    ensures forall i :: 0 <= i < |last.slots| ==>
              last.slots[i] == Some(Outcomes(env.model, env.Reading(), env.candidates)[i])
  {
    InitInv(env, cache);
    ReachableInv(env, Init(env, cache), actions, last);
    HandsCount(env, Init(env, cache), actions, last);
    if |env.candidates| > 0 {
      assert WorkerOk(env, last, 0);
      forall i | 0 <= i < |last.slots| ensures last.slots[i] == Some(env.Expected(i)) {
        assert SlotOk(env, last, i);
      }
    }
  }

  /** The report the pool leaves behind is the report of the run, decisions and call list alike. */
  lemma PoolReportsTheRun(env: Env, cache: map<Key, File>, actions: seq<Action>, last: State,
                          s: Snapshot, size: Snapshot -> nat, outcomes: seq<Outcome>)
    requires Shows(env, cache)
    requires ValidSnapshot(s) && size(s) <= MAX_SNAPSHOT_BYTES && env.candidates == CleanSnapshot(s).candidates
    requires Reaches(env, Init(env, cache), actions, last) && Done(last)
    requires |outcomes| == |last.slots| && forall i :: 0 <= i < |outcomes| ==> last.slots[i] == Some(outcomes[i])
    ensures |outcomes| == |s.candidates|
    ensures Run(s, env.model, env.Reading(), size) == Ok(Assemble(CleanSnapshot(s), outcomes))
  {
    ScheduleDoesNotMatter(env, cache, actions, last);
    assert outcomes == Outcomes(env.model, env.Reading(), env.candidates);
  }

  /**
   * The report any schedule of the workers leaves behind can be replayed: running its snapshot without a reader gives
   * the same report, exactly when all its source text is UTF-8 and the saved snapshot still fits the limit.
   */
  lemma {:induction false} PoolReportReplaysIff(env: Env, cache: map<Key, File>, actions: seq<Action>, last: State,
                                                s: Snapshot, size: Snapshot -> nat, outcomes: seq<Outcome>)
    requires Shows(env, cache)
    requires ValidSnapshot(s) && size(s) <= MAX_SNAPSHOT_BYTES && env.candidates == CleanSnapshot(s).candidates
    requires Reaches(env, Init(env, cache), actions, last) && Done(last)
    requires |outcomes| == |last.slots| && forall i :: 0 <= i < |outcomes| ==> last.slots[i] == Some(outcomes[i])
    ensures |outcomes| == |s.candidates|
    ensures var report := Assemble(CleanSnapshot(s), outcomes);
            Run(report.snapshot, env.model, None, size) == Ok(report)
            <==> Utf8Run(s, report) && size(report.snapshot) <= MAX_SNAPSHOT_BYTES
  {
    hide *;
    PoolReportsTheRun(env, cache, actions, last, s, size, outcomes);
    ReadingIsGood(env);
    ReplayEquivalence(s, env.model, env.Reading(), size, Assemble(CleanSnapshot(s), outcomes));
  }

  lemma ReadingIsGood(env: Env)
    ensures GoodReader(env.Reading())
  {
    CollectorIsGoodReader(env.view);
  }

  /** Nor does the schedule of the replay matter: every pool without a reader, too, assembles the saved report again. */
  lemma {:induction false} PoolReplays(env: Env, actions: seq<Action>, last: State, saved: Report,
                                       size: Snapshot -> nat, outcomes: seq<Outcome>)
    requires !env.live && Run(saved.snapshot, env.model, None, size) == Ok(saved)
    requires env.candidates == CleanSnapshot(saved.snapshot).candidates
    requires Reaches(env, Init(env, map[]), actions, last) && Done(last)
    requires |outcomes| == |last.slots| && forall i :: 0 <= i < |outcomes| ==> last.slots[i] == Some(outcomes[i])
    ensures |outcomes| == |saved.snapshot.candidates| && Assemble(CleanSnapshot(saved.snapshot), outcomes) == saved
  {
    hide Reaches, Done, Assemble, ValidSnapshot, CleanSnapshot, Init;
    PoolReportsTheRun(env, map[], actions, last, saved.snapshot, size, outcomes);
  }

  /** The pool never deadlocks: as long as a worker has not exited, some action is enabled. */
  lemma PoolNeverStuck(env: Env, st: State)
    requires Inv(env, st) && !Done(st)
    ensures exists a :: Enabled(env, st, a)
  {
    var w :| 0 <= w < |st.workers| && !st.workers[w].Exited?;
    assert WorkerOk(env, st, w);
    match st.workers[w]
    case Idle =>
      assert if st.next < |env.candidates| then Enabled(env, st, Hand(w)) else Enabled(env, st, Exit(w));
    case Busy(i, pr) =>
      assert if pr.Finished? then Enabled(env, st, Return(w)) else Enabled(env, st, Work(w));
    case Exited => assert false;
  }

  // ---- termination ----

  /** An upper bound on the steps one candidate still needs. */
  function Steps(pr: Progress): nat {
    match pr
    case Finished(_) => 0
    case Fetching(_, rest, _, _) => 6 + |rest|
    case Calling(round, attempt, _, _, _, _, _, _) =>
      (if round == 1 then 10 else 1) + if attempt <= 4 then 4 - attempt else 0
  }

  function Load(workers: seq<Worker>): nat {
    if workers == [] then 0
    else Load(workers[1..]) + match workers[0] case Exited => 0 case Idle => 1 case Busy(_, pr) => 2 + Steps(pr)
  }

  function Measure(env: Env, st: State): int {
    20 * (|env.candidates| - st.next) + Load(st.workers)
  }

  lemma {:induction false} LoadUpdate(workers: seq<Worker>, w: nat, new_: Worker)
    requires w < |workers|
    ensures Load(workers[w := new_]) - Load(workers) == Load([new_]) - Load([workers[w]])
  {
    var updated := workers[w := new_];
    assert forall x: Worker :: [x][1..] == [];
    if w == 0 {
      assert updated[1..] == workers[1..];
    } else {
      LoadUpdate(workers[1..], w - 1, new_);
      assert updated[1..] == workers[1..][w - 1 := new_];
    }
  }

  lemma AdvanceUsesStep(env: Env, c: Candidate, pr: Progress, cache: map<Key, File>)
    requires Sensible(env, pr) && !pr.Finished?
    ensures Steps(Advance(env, c, pr, cache).0) < Steps(pr)
  {
  }

  /** Every action uses up some of a bounded measure, so every schedule is finite. */
  lemma PoolTerminates(env: Env, st: State, a: Action)
    requires Inv(env, st) && Enabled(env, st, a)
    ensures 0 <= Measure(env, Apply(env, st, a)) < Measure(env, st)
  {
    StepKeepsInv(env, st, a);
    LoadUpdate(st.workers, a.w, Apply(env, st, a).workers[a.w]);
    match a
    case Work(w) => AdvanceUsesStep(env, env.candidates[st.workers[w].i], st.workers[w].pr, st.cache);
    case _ =>
  }
}
