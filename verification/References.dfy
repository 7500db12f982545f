/** Clients that register a digest under one reference by compare-and-swap (cmd/artifact_pull.go). */
module References {
  import opened Prelude

  type Digest = string

  datatype Failure = Lost | Broken

  /** Where a client is in its call. A reference that does not exist has the value None. */
  datatype Phase =
    | Reading
    | Swapping(observed: Option<Digest>)
    | Rechecking
    | Succeeded
    | Failed(failure: Failure)

  datatype Client = Client(digest: Digest, phase: Phase)

  predicate Finished(p: Phase) {
    p.Succeeded? || p.Failed?
  }

  /**
   * One atomic store operation: resolve, update, or resolve again after a lost update. `broken` ones fail otherwise.
   */
  function Act(value: Option<Digest>, c: Client, broken: bool): (Option<Digest>, Client) {
    match c.phase
    case Reading =>
      (value,
       c.(phase := if broken then Failed(Broken) else if value == Some(c.digest) then Succeeded else Swapping(value)))
    case Swapping(observed) =>
      if broken then (value, c.(phase := Failed(Broken)))
      else if value == observed then (Some(c.digest), c.(phase := Succeeded))
      else (value, c.(phase := Rechecking))
    case Rechecking =>
      (value, c.(phase := if !broken && value == Some(c.digest) then Succeeded else Failed(Lost)))
    case _ => (value, c)
  }

  /** How many operations a call can still make. */
  function Left(p: Phase): nat {
    match p
    case Reading => 3
    case Swapping(_) => 2
    case Rechecking => 1
    case _ => 0
  }

  // ---- one call ----

  /** Other processes may write the reference before each operation; every single operation is atomic. */
  datatype World = World(others: (nat, Option<Digest>) -> Option<Digest>, broken: nat -> bool)

  /** The call from its current phase on: the value it leaves and how it ends. */
  function Call(w: World, value: Option<Digest>, c: Client, clock: nat): (Option<Digest>, Client)
    decreases Left(c.phase)
  {
    if Finished(c.phase) then (value, c)
    else
      var (value', c') := Act(w.others(clock, value), c, w.broken(clock));
      Call(w, value', c', clock + 1)
  }

  datatype Answer = Value(value: Option<Digest>) | Unreadable

  class RefStore {
    var value: Option<Digest>
    var clock: nat
    const world: World

    constructor (initial: Option<Digest>, w: World)
      ensures value == initial && clock == 0 && world == w
    {
      value, clock, world := initial, 0, w;
    }

    method Resolve() returns (answer: Answer)
      modifies this
      ensures value == world.others(old(clock), old(value)) && clock == old(clock) + 1
      ensures answer == if world.broken(old(clock)) then Unreadable else Value(value)
    {
      value, clock := world.others(clock, value), clock + 1;
      return if world.broken(clock - 1) then Unreadable else Value(value);
    }

    /** The store's compare-and-swap; Some(Lost) is its ErrCAS. */
    method UpdateRef(expected: Option<Digest>, digest: Digest) returns (failure: Option<Failure>)
      modifies this
      ensures var now := world.others(old(clock), old(value));
              && failure == (if world.broken(old(clock)) then Some(Broken)
                             else if now != expected then Some(Lost) else None)
              && value == if failure.None? then Some(digest) else now
      ensures clock == old(clock) + 1
    {
      value, clock := world.others(clock, value), clock + 1;
      if world.broken(clock - 1) {
        return Some(Broken);
      }
      if value != expected {
        return Some(Lost);
      }
      value := Some(digest);
      return None;
    }
  }

  /** Both outcomes of a call, as the caller sees them. */
  function Ending(failure: Option<Failure>): Phase {
    if failure.None? then Succeeded else Failed(failure.value)
  }

  method RegisterExactRef(store: RefStore, digest: Digest) returns (failure: Option<Failure>)
    modifies store
    ensures (store.value, Client(digest, Ending(failure)))
            == Call(store.world, old(store.value), Client(digest, Reading), old(store.clock))
  {
    var current := store.Resolve();
    if current.Unreadable? {
      return Some(Broken);
    }
    if current.value == Some(digest) {
      return None;
    }
    failure := RegisterRefCas(store, current.value, digest);
  }

  method RegisterRefCas(store: RefStore, observed: Option<Digest>, digest: Digest) returns (failure: Option<Failure>)
    modifies store
    ensures (store.value, Client(digest, Ending(failure)))
            == Call(store.world, old(store.value), Client(digest, Swapping(observed)), old(store.clock))
  {
    failure := store.UpdateRef(observed, digest);
    if failure == Some(Lost) {
      ghost var (value, clock) := (store.value, store.clock);
      var current := store.Resolve();
      if current == Value(Some(digest)) {
        failure := None;
      }
      assert (store.value, Client(digest, Ending(failure)))
             == Call(store.world, value, Client(digest, Rechecking), clock);
    }
  }

  /**
   * When a call returns, success means the reference is at the digest; a lost update that could be looked into, that it
   * is not.
   */
  lemma {:induction false} CallMeans(w: World, value: Option<Digest>, c: Client, clock: nat)
    requires !Finished(c.phase)
    ensures var (left, last) := Call(w, value, c, clock);
            && Finished(last.phase) && last.digest == c.digest
            && (last.phase.Succeeded? ==> left == Some(c.digest))
            && (last.phase == Failed(Lost) && (forall k :: !w.broken(k)) ==> left != Some(c.digest))
    decreases Left(c.phase)
  {
    var (value', c') := Act(w.others(clock, value), c, w.broken(clock));
    if !Finished(c'.phase) {
      CallMeans(w, value', c', clock + 1);
    }
  }

  /**
   * A call breaks off only with a broken operation, and then leaves the reference alone; a call whose first operation
   * finds the digest succeeds at once; and one that nobody disturbs succeeds.
   */
  lemma CallEnds(w: World, value: Option<Digest>, digest: Digest, clock: nat)
    ensures var (left, last) := Call(w, value, Client(digest, Reading), clock);
            && (w.broken(clock) ==> last.phase == Failed(Broken) && left == w.others(clock, value))
            && (last.phase == Failed(Broken) ==> w.broken(clock) || w.broken(clock + 1))
            && (!w.broken(clock) && w.others(clock, value) == Some(digest) ==>
                  last.phase == Succeeded && left == Some(digest))
            && ((forall k, v :: !w.broken(k) && w.others(k, v) == v) ==> last.phase == Succeeded)
  {
    var seen := w.others(clock, value);
    var (v, c) := Act(seen, Client(digest, Reading), w.broken(clock));
    if !Finished(c.phase) {
      var (v', c') := Act(w.others(clock + 1, v), c, w.broken(clock + 1));
      assert Call(w, v, c, clock + 1) == Call(w, v', c', clock + 2);
      if !Finished(c'.phase) {
        var (v'', c'') := Act(w.others(clock + 2, v'), c', w.broken(clock + 2));
        assert Call(w, v', c', clock + 2) == Call(w, v'', c'', clock + 3) == (v'', c'');
      }
    }
  }

  // ---- any number of clients, interleaved ----

  /** The shared reference and all clients. */
  datatype State = State(value: Option<Digest>, clients: seq<Client>)

  /** A client's turn, or a write by somebody else. */
  datatype Move = Turn(client: nat, broken: bool) | Outside(value: Option<Digest>)

  predicate Running(st: State, i: nat) {
    i < |st.clients| && !Finished(st.clients[i].phase)
  }

  predicate Legal(st: State, m: Move) {
    m.Outside? || Running(st, m.client)
  }

  function Step(st: State, m: Move): State
    requires Legal(st, m)
  {
    match m
    case Outside(value) => st.(value := value)
    case Turn(i, broken) =>
      var (value, c) := Act(st.value, st.clients[i], broken);
      State(value, st.clients[i := c])
  }

  /** A schedule of moves; `run` holds the states before, between and after. */
  ghost predicate IsRun(run: seq<State>, schedule: seq<Move>) {
    && |run| == |schedule| + 1
    && (forall i :: 0 <= i < |run[0].clients| ==> run[0].clients[i].phase.Reading?)
    && forall t :: 0 <= t < |schedule| ==> Legal(run[t], schedule[t]) && run[t + 1] == Step(run[t], schedule[t])
  }

  lemma LastStep(run: seq<State>, schedule: seq<Move>, t: nat)
    requires IsRun(run, schedule) && 0 < t < |run|
    ensures Legal(run[t - 1], schedule[t - 1]) && run[t] == Step(run[t - 1], schedule[t - 1])
  {
    assert run[t - 1 + 1] == run[t];
  }

  lemma {:induction false} SameClients(run: seq<State>, schedule: seq<Move>, t: nat, i: nat)
    requires IsRun(run, schedule) && t < |run| && i < |run[0].clients|
    ensures |run[t].clients| == |run[0].clients| && run[t].clients[i].digest == run[0].clients[i].digest
  {
    if t > 0 {
      LastStep(run, schedule, t);
      SameClients(run, schedule, t - 1, i);
    }
  }

  lemma {:induction false} SameCount(run: seq<State>, schedule: seq<Move>, t: nat)
    requires IsRun(run, schedule) && t < |run|
    ensures |run[t].clients| == |run[0].clients|
  {
    if t > 0 {
      LastStep(run, schedule, t);
      SameCount(run, schedule, t - 1);
    }
  }

  // ---- who may change the reference ----

  /** A client changes the reference only in its own swap, from the very value it observed, to its digest. */
  lemma OnlyObservedValuesAreReplaced(st: State, i: nat, broken: bool)
    requires Running(st, i) && Step(st, Turn(i, broken)).value != st.value
    ensures st.clients[i].phase == Swapping(st.value)
    ensures Step(st, Turn(i, broken)).value == Some(st.clients[i].digest)
            && Step(st, Turn(i, broken)).clients[i].phase.Succeeded?
  {
  }

  /** What a client is about to replace was the value of the reference when that client read it. */
  lemma {:induction false} ObservedWasReal(run: seq<State>, schedule: seq<Move>, t: nat, i: nat) returns (u: nat)
    requires IsRun(run, schedule) && t < |run| && i < |run[t].clients| && run[t].clients[i].phase.Swapping?
    ensures u < t && run[u].value == run[t].clients[i].phase.observed && schedule[u] == Turn(i, false)
  {
    if t == 0 {
      assert false;
    } else {
      LastStep(run, schedule, t);
      if schedule[t - 1].Turn? && schedule[t - 1].client == i {
        u := t - 1;
      } else {
        u := ObservedWasReal(run, schedule, t - 1, i);
      }
    }
  }

  /** A client changes the reference only to its own digest, and only from a value that it has itself read before. */
  lemma {:induction false} ReplacedWasObserved(run: seq<State>, schedule: seq<Move>, t: nat) returns (u: nat)
    requires IsRun(run, schedule) && t < |schedule| && schedule[t].Turn? && run[t + 1].value != run[t].value
    ensures u < t && schedule[u] == Turn(schedule[t].client, false) && run[u].value == run[t].value
    ensures schedule[t].client < |run[0].clients| && run[t + 1].value == Some(run[0].clients[schedule[t].client].digest)
  {
    var i := schedule[t].client;
    LastStep(run, schedule, t + 1);
    OnlyObservedValuesAreReplaced(run[t], i, schedule[t].broken);
    SameCount(run, schedule, t);
    SameClients(run, schedule, t, i);
    u := ObservedWasReal(run, schedule, t, i);
  }

  // ---- what success means ----

  /**
   * A client that has succeeded took a step of its own, within its call, after which the reference was at its digest.
   */
  lemma {:induction false} SuccessHeldTheReference(run: seq<State>, schedule: seq<Move>, t: nat, i: nat)
    returns (u: nat)
    requires IsRun(run, schedule) && t < |run| && i < |run[0].clients|
    requires i < |run[t].clients| && run[t].clients[i].phase.Succeeded?
    ensures 0 < u <= t && schedule[u - 1] == Turn(i, false) && Running(run[u - 1], i)
    ensures run[u].value == Some(run[0].clients[i].digest)
  {
    if t == 0 {
      assert false;
    } else {
      LastStep(run, schedule, t);
      SameClients(run, schedule, t - 1, i);
      if schedule[t - 1].Turn? && schedule[t - 1].client == i {
        u := t;
      } else {
        u := SuccessHeldTheReference(run, schedule, t - 1, i);
      }
    }
  }

  ghost predicate Winner(st: State, value: Option<Digest>, i: nat) {
    i < |st.clients| && st.clients[i].phase.Succeeded? && value == Some(st.clients[i].digest)
  }

  /** The reference holds its first value, the digest of a client that has succeeded, or what somebody else wrote. */
  lemma {:induction false} ValueIsAccounted(run: seq<State>, schedule: seq<Move>, t: nat)
    requires IsRun(run, schedule) && t < |run|
    ensures run[t].value == run[0].value || (exists i :: Winner(run[t], run[t].value, i))
            || exists u :: 0 <= u < t && schedule[u] == Outside(run[t].value)
  {
    if t > 0 {
      LastStep(run, schedule, t);
      ValueIsAccounted(run, schedule, t - 1);
      var (st, m) := (run[t - 1], schedule[t - 1]);
      if m.Turn? {
        if run[t].value != st.value {
          assert Winner(run[t], run[t].value, m.client);
        } else if i :| Winner(st, st.value, i) {
          assert Winner(run[t], run[t].value, i);
        }
      }
    }
  }

  // ---- clients that agree ----

  ghost predicate Agreeing(st: State, d: Digest) {
    forall i :: 0 <= i < |st.clients| ==> st.clients[i].digest == d
  }

  /** Only clients act, and the store answers every operation. */
  ghost predicate Undisturbed(schedule: seq<Move>) {
    forall t :: 0 <= t < |schedule| ==> schedule[t].Turn? && !schedule[t].broken
  }

  /** While all clients carry one digest, a lost swap was lost to that digest, and nobody has failed. */
  ghost predicate AgreeingInv(st: State, d: Digest) {
    && Agreeing(st, d)
    && forall i :: 0 <= i < |st.clients| ==>
         match st.clients[i].phase
         case Swapping(observed) => observed == st.value || st.value == Some(d)
         case Rechecking => st.value == Some(d)
         case Failed(_) => false
         case _ => true
  }

  lemma AgreeingStep(st: State, d: Digest, i: nat)
    requires AgreeingInv(st, d) && Running(st, i)
    ensures AgreeingInv(Step(st, Turn(i, false)), d)
  {
  }

  lemma {:induction false} AgreeingClientsNeverFail(run: seq<State>, schedule: seq<Move>, d: Digest, t: nat)
    requires IsRun(run, schedule) && Undisturbed(schedule) && Agreeing(run[0], d) && t < |run|
    ensures AgreeingInv(run[t], d)
  {
    if t > 0 {
      AgreeingClientsNeverFail(run, schedule, d, t - 1);
      LastStep(run, schedule, t);
      AgreeingStep(run[t - 1], d, schedule[t - 1].client);
    }
  }

  // ---- every call ends within three steps ----

  function TotalLeft(clients: seq<Client>): nat {
    if clients == [] then 0 else TotalLeft(clients[..|clients| - 1]) + Left(clients[|clients| - 1].phase)
  }

  lemma {:induction false} TotalLeftUpdate(clients: seq<Client>, i: nat, c: Client)
    requires i < |clients|
    ensures TotalLeft(clients[i := c]) == TotalLeft(clients) - Left(clients[i].phase) + Left(c.phase)
  {
    var last := |clients| - 1;
    if i == last {
      assert clients[i := c][..last] == clients[..last];
    } else {
      TotalLeftUpdate(clients[..last], i, c);
      assert clients[i := c][..last] == clients[..last][i := c];
    }
  }

  lemma StepUsesUp(st: State, m: Move)
    requires m.Turn? && Running(st, m.client)
    ensures TotalLeft(Step(st, m).clients) < TotalLeft(st.clients)
  {
    TotalLeftUpdate(st.clients, m.client, Step(st, m).clients[m.client]);
  }

  lemma {:induction false} FreshTotal(clients: seq<Client>)
    requires forall i :: 0 <= i < |clients| ==> clients[i].phase.Reading?
    ensures TotalLeft(clients) == 3 * |clients|
  {
    if clients != [] {
      FreshTotal(clients[..|clients| - 1]);
    }
  }

  lemma {:induction false} RunIsShort(run: seq<State>, schedule: seq<Move>, t: nat)
    requires IsRun(run, schedule) && Undisturbed(schedule) && t < |run|
    ensures t + TotalLeft(run[t].clients) <= 3 * |run[0].clients|
  {
    if t == 0 {
      FreshTotal(run[0].clients);
    } else {
      RunIsShort(run, schedule, t - 1);
      LastStep(run, schedule, t);
      StepUsesUp(run[t - 1], schedule[t - 1]);
    }
  }

  /** Clients with one digest all succeed, however they are interleaved, within three steps each. */
  lemma AgreeingClientsAllSucceed(run: seq<State>, schedule: seq<Move>, d: Digest, i: nat)
    requires IsRun(run, schedule) && Undisturbed(schedule) && Agreeing(run[0], d)
    requires forall j :: !Running(run[|schedule|], j)
    requires i < |run[0].clients|
    ensures |schedule| <= 3 * |run[0].clients|
    ensures i < |run[|schedule|].clients| && run[|schedule|].clients[i].phase.Succeeded?
  {
    AgreeingClientsNeverFail(run, schedule, d, |schedule|);
    RunIsShort(run, schedule, |schedule|);
    SameCount(run, schedule, |schedule|);
    assert !Running(run[|schedule|], i);
  }
}
