/** Removing local references while other processes write to the store (cmd/remove.go). */
module Remove {
  import opened Prelude

  /** One stored reference and the record its digest points at. */
  datatype Entry = Entry(ref: string, digest: string, name: string, version: string)

  datatype RemovePlan = RemovePlan(all: bool, selectors: seq<string>)

  datatype Item = Item(name: string, version: string, digest: string, ref: string)

  datatype Error = EmptySelector | NotFound(selector: string) | StoreFailed | StoreBusy | GcFailed | NotConverged

  const MAX_PASSES := 8

  /** A reference name occurs at most once in a store. */
  ghost predicate UniqueRefs(entries: seq<Entry>) {
    forall i, j :: 0 <= i < j < |entries| ==> entries[i].ref != entries[j].ref
  }

  // ---- choosing targets ----

  /** When an entry matches a selector, and the display order of targets. */
  datatype Rules = Rules(matches: (Entry, string) -> bool, arrange: seq<Entry> -> seq<Entry>) {
    ghost predicate Valid() {
      forall es :: multiset(arrange(es)) == multiset(es)
    }
  }

  /** The digests of the entries a selector matches. */
  function MatchedDigests(rules: Rules, entries: seq<Entry>, selector: string): set<string> {
    if entries == [] then {}
    else
      var last := entries[|entries| - 1];
      MatchedDigests(rules, entries[..|entries| - 1], selector)
          + if rules.matches(last, selector) then {last.digest} else {}
  }

  /** All wanted digests, or the first selector that is blank or, if matches are required, matches nothing. */
  function Wanted(rules: Rules, entries: seq<Entry>, selectors: seq<string>,
                  requireMatch: bool): Result<set<string>, Error> {
    if selectors == [] then Ok({})
    else
      var (init, last) := (selectors[..|selectors| - 1], TrimSpace(selectors[|selectors| - 1]));
      match Wanted(rules, entries, init, requireMatch)
      case Err(e) => Err(e)
      case Ok(digests) =>
        var matched := MatchedDigests(rules, entries, last);
        if last == "" then Err(EmptySelector)
        else if matched == {} && requireMatch then Err(NotFound(last))
        else Ok(digests + matched)
  }

  predicate Listed(entries: seq<Entry>, e: Entry) {
    exists k :: 0 <= k < |entries| && entries[k].ref == e.ref && entries[k].digest == e.digest
  }

  /** Every entry with a wanted digest, each reference and digest once. */
  function Chosen(entries: seq<Entry>, wanted: set<string>): seq<Entry> {
    if entries == [] then []
    else
      var (before, last) := (Chosen(entries[..|entries| - 1], wanted), entries[|entries| - 1]);
      if last.digest !in wanted || Listed(before, last) then before else before + [last]
  }

  function Selected(rules: Rules, entries: seq<Entry>, selectors: seq<string>,
                    requireMatch: bool): Result<seq<Entry>, Error> {
    match Wanted(rules, entries, selectors, requireMatch)
    case Err(e) => Err(e)
    case Ok(wanted) => Ok(Chosen(entries, wanted))
  }

  function Targets(rules: Rules, entries: seq<Entry>, plan: RemovePlan, requireMatch: bool): Result<seq<Entry>, Error> {
    if plan.all then Ok(entries)
    else
      match Selected(rules, entries, plan.selectors, requireMatch)
      case Err(e) => Err(e)
      case Ok(chosen) => Ok(rules.arrange(chosen))
  }

  method PlanTargets(rules: Rules, entries: seq<Entry>, plan: RemovePlan, requireMatch: bool)
    returns (res: Result<seq<Entry>, Error>)
    ensures res == Targets(rules, entries, plan, requireMatch)
  {
    if plan.all {
      return Ok(entries);
    }
    var selected := SelectRemoveTargets(rules, entries, plan.selectors, requireMatch);
    if selected.Err? {
      return Err(selected.error);
    }
    return Ok(rules.arrange(selected.value));
  }

  method SelectRemoveTargets(rules: Rules, entries: seq<Entry>, selectors: seq<string>, requireMatch: bool)
    returns (res: Result<seq<Entry>, Error>)
    ensures res == Selected(rules, entries, selectors, requireMatch)
  {
    var digestWanted: set<string> := {};
    for i := 0 to |selectors|
      invariant Wanted(rules, entries, selectors[..i], requireMatch) == Ok(digestWanted)
    {
      var sel := TrimSpace(selectors[i]);
      assert selectors[..i + 1][..i] == selectors[..i];
      if sel == "" {
        WantedFails(rules, entries, selectors, i + 1, requireMatch);
        return Err(EmptySelector);
      }
      var matched := CollectMatches(rules, entries, sel);
      if matched == {} && requireMatch {
        WantedFails(rules, entries, selectors, i + 1, requireMatch);
        return Err(NotFound(sel));
      }
      digestWanted := digestWanted + matched;
    }
    assert selectors[..|selectors|] == selectors;
    var out := CollectWanted(entries, digestWanted);
    return Ok(out);
  }

  method CollectWanted(entries: seq<Entry>, wanted: set<string>) returns (out: seq<Entry>)
    ensures out == Chosen(entries, wanted)
  {
    out := [];
    for i := 0 to |entries|
      invariant out == Chosen(entries[..i], wanted)
    {
      assert entries[..i + 1][..i] == entries[..i];
      if entries[i].digest !in wanted || Listed(out, entries[i]) {
        continue;
      }
      out := out + [entries[i]];
    }
    assert entries[..|entries|] == entries;
  }

  method CollectMatches(rules: Rules, entries: seq<Entry>, selector: string) returns (matched: set<string>)
    ensures matched == MatchedDigests(rules, entries, selector)
  {
    matched := {};
    for k := 0 to |entries|
      invariant matched == MatchedDigests(rules, entries[..k], selector)
    {
      assert entries[..k + 1][..k] == entries[..k];
      if rules.matches(entries[k], selector) {
        matched := matched + {entries[k].digest};
      }
    }
    assert entries[..|entries|] == entries;
  }

  /** A failing selector fails the whole selection. */
  lemma {:induction false} WantedFails(rules: Rules, entries: seq<Entry>, selectors: seq<string>, n: nat,
                                       requireMatch: bool)
    requires n <= |selectors| && Wanted(rules, entries, selectors[..n], requireMatch).Err?
    ensures Wanted(rules, entries, selectors, requireMatch) == Wanted(rules, entries, selectors[..n], requireMatch)
    decreases |selectors| - n
  {
    if n < |selectors| {
      assert selectors[..n + 1][..n] == selectors[..n];
      WantedFails(rules, entries, selectors, n + 1, requireMatch);
    } else {
      assert selectors[..n] == selectors;
    }
  }

  // ---- what is chosen ----

  /** A digest is wanted when a selector matches an entry that carries it. */
  ghost predicate Asked(rules: Rules, entries: seq<Entry>, selectors: seq<string>, digest: string) {
    exists e, i :: e in entries && 0 <= i < |selectors| && rules.matches(e, TrimSpace(selectors[i]))
        && e.digest == digest
  }

  lemma {:induction false} MatchedMeans(rules: Rules, entries: seq<Entry>, selector: string, digest: string)
    ensures digest in MatchedDigests(rules, entries, selector) <==>
              exists e :: e in entries && rules.matches(e, selector) && e.digest == digest
  {
    if entries != [] {
      MatchedMeans(rules, entries[..|entries| - 1], selector, digest);
      assert entries == entries[..|entries| - 1] + [entries[|entries| - 1]];
    }
  }

  lemma {:induction false} WantedMeans(rules: Rules, entries: seq<Entry>, selectors: seq<string>, requireMatch: bool,
                                       digest: string)
    requires Wanted(rules, entries, selectors, requireMatch).Ok?
    ensures digest in Wanted(rules, entries, selectors, requireMatch).value <==>
              Asked(rules, entries, selectors, digest)
  {
    if selectors != [] {
      var init := selectors[..|selectors| - 1];
      WantedMeans(rules, entries, init, requireMatch, digest);
      MatchedMeans(rules, entries, TrimSpace(selectors[|selectors| - 1]), digest);
      AskedSnoc(rules, entries, selectors, digest);
    }
  }

  lemma AskedSnoc(rules: Rules, entries: seq<Entry>, selectors: seq<string>, digest: string)
    requires selectors != []
    ensures Asked(rules, entries, selectors, digest) <==>
              Asked(rules, entries, selectors[..|selectors| - 1], digest)
              || exists e ::
                   e in entries && rules.matches(e, TrimSpace(selectors[|selectors| - 1])) && e.digest == digest
  {
    var n := |selectors| - 1;
    if Asked(rules, entries, selectors[..n], digest) {
      var e, i :| e in entries && 0 <= i < n && rules.matches(e, TrimSpace(selectors[..n][i])) && e.digest == digest;
      assert rules.matches(e, TrimSpace(selectors[i]));
    }
    if Asked(rules, entries, selectors, digest) {
      var e, i :| e in entries && 0 <= i < |selectors| && rules.matches(e, TrimSpace(selectors[i]))
          && e.digest == digest;
      if i < n { assert selectors[..n][i] == selectors[i]; }
    }
  }

  lemma {:induction false} ChosenMeans(entries: seq<Entry>, wanted: set<string>)
    requires UniqueRefs(entries)
    ensures forall e :: e in Chosen(entries, wanted) <==> e in entries && e.digest in wanted
    ensures UniqueRefs(Chosen(entries, wanted))
  {
    if entries != [] {
      var (init, last) := (entries[..|entries| - 1], entries[|entries| - 1]);
      assert entries == init + [last];
      ChosenMeans(init, wanted);
      assert forall e :: e in init ==> e.ref != last.ref;
      var before := Chosen(init, wanted);
      assert forall k :: 0 <= k < |before| ==> before[k] in before;
    }
  }

  lemma {:induction false} CountAtMostOne(entries: seq<Entry>, e: Entry)
    requires UniqueRefs(entries)
    ensures multiset(entries)[e] <= 1
  {
    if entries != [] {
      var (init, last) := (entries[..|entries| - 1], entries[|entries| - 1]);
      assert entries == init + [last];
      CountAtMostOne(init, e);
      if last == e { assert e !in init; }
    }
  }

  lemma CountTwice(entries: seq<Entry>, i: nat, j: nat)
    requires i < j < |entries| && entries[i] == entries[j]
    ensures multiset(entries)[entries[i]] >= 2
  {
    assert entries == entries[..j] + [entries[j]] + entries[j + 1..];
    assert entries[i] in entries[..j];
  }

  /** Rearranging keeps names unique. */
  lemma UniqueAfterArranging(a: seq<Entry>, b: seq<Entry>)
    requires UniqueRefs(a) && multiset(a) == multiset(b)
    ensures UniqueRefs(b) && forall e :: e in b <==> e in a
  {
    forall e ensures e in b <==> e in a {
      assert e in multiset(b) <==> e in multiset(a);
    }
    forall i, j | 0 <= i < j < |b| ensures b[i].ref != b[j].ref {
      if b[i] == b[j] {
        CountTwice(b, i, j);
        CountAtMostOne(a, b[i]);
        assert false;
      } else {
        assert b[i] in a && b[j] in a;
      }
    }
  }

  /** Which entries a removal is aimed at. */
  ghost predicate Aimed(rules: Rules, entries: seq<Entry>, plan: RemovePlan, e: Entry) {
    e in entries && (plan.all || Asked(rules, entries, plan.selectors, e.digest))
  }

  /**
   * The targets are the entries whose digest some matching entry carries, each once; blank selectors aside, they are
   * always found.
   */
  lemma TargetsMean(rules: Rules, entries: seq<Entry>, plan: RemovePlan, requireMatch: bool)
    requires UniqueRefs(entries) && rules.Valid() && Targets(rules, entries, plan, requireMatch).Ok?
    ensures var targets := Targets(rules, entries, plan, requireMatch).value;
            UniqueRefs(targets) && forall e :: e in targets <==> Aimed(rules, entries, plan, e)
  {
    if !plan.all {
      hide Wanted, Chosen, Asked;
      var wanted := Wanted(rules, entries, plan.selectors, requireMatch).value;
      ChosenMeans(entries, wanted);
      UniqueAfterArranging(Chosen(entries, wanted), rules.arrange(Chosen(entries, wanted)));
      forall e: Entry ensures e.digest in wanted <==> Asked(rules, entries, plan.selectors, e.digest) {
        WantedMeans(rules, entries, plan.selectors, requireMatch, e.digest);
      }
    }
  }

  lemma {:induction false} MatchesStayOptional(rules: Rules, entries: seq<Entry>, selectors: seq<string>)
    requires Wanted(rules, entries, selectors, true).Ok?
    ensures Wanted(rules, entries, selectors, false) == Wanted(rules, entries, selectors, true)
  {
    if selectors != [] {
      MatchesStayOptional(rules, entries, selectors[..|selectors| - 1]);
    }
  }

  lemma TargetsStayOptional(rules: Rules, entries: seq<Entry>, plan: RemovePlan, requireMatch: bool)
    requires Targets(rules, entries, plan, requireMatch).Ok?
    ensures Targets(rules, entries, plan, false) == Targets(rules, entries, plan, requireMatch)
  {
    if !plan.all && requireMatch {
      MatchesStayOptional(rules, entries, plan.selectors);
    }
  }

  /** Whether a selector is blank does not depend on the entries. */
  lemma {:induction false} BlanksAreFixed(rules: Rules, a: seq<Entry>, b: seq<Entry>, selectors: seq<string>)
    ensures Wanted(rules, a, selectors, false).Ok? <==> Wanted(rules, b, selectors, false).Ok?
  {
    if selectors != [] {
      BlanksAreFixed(rules, a, b, selectors[..|selectors| - 1]);
    }
  }

  /**
   * The first plan that demands a match finds a target for any selector, so the check that follows the passes never
   * fires.
   */
  lemma MatchesGiveTargets(rules: Rules, entries: seq<Entry>, plan: RemovePlan)
    requires UniqueRefs(entries) && rules.Valid() && Targets(rules, entries, plan, true) == Ok([])
    ensures plan.all || plan.selectors == []
  {
    if !plan.all && plan.selectors != [] {
      TargetsMean(rules, entries, plan, true);
      var last := TrimSpace(plan.selectors[|plan.selectors| - 1]);
      var digest :| digest in MatchedDigests(rules, entries, last);
      MatchedMeans(rules, entries, last, digest);
      var e :| e in entries && rules.matches(e, last) && e.digest == digest;
      assert Asked(rules, entries, plan.selectors, e.digest);
      assert Aimed(rules, entries, plan, e);
      assert false;
    }
  }

  // ---- reporting ----

  function ItemOf(e: Entry): Item {
    Item(e.name, e.version, e.digest, e.ref)
  }

  predicate Reported(items: seq<Item>, digest: string) {
    exists k :: 0 <= k < |items| && items[k].digest == digest
  }

  function Report(items: seq<Item>, e: Entry): seq<Item> {
    if Reported(items, e.digest) then items else items + [ItemOf(e)]
  }

  /** One more item for each digest not reported yet, for the first entry that carries it. */
  function ReportAll(items: seq<Item>, targets: seq<Entry>): seq<Item> {
    if targets == [] then items else Report(ReportAll(items, targets[..|targets| - 1]), targets[|targets| - 1])
  }

  method SummarizeRemoved(targets: seq<Entry>) returns (items: seq<Item>)
    ensures items == ReportAll([], targets)
  {
    items := [];
    for k := 0 to |targets|
      invariant items == ReportAll([], targets[..k])
    {
      assert targets[..k + 1][..k] == targets[..k];
      items := Report(items, targets[k]);
    }
    assert targets[..|targets|] == targets;
  }

  /** A digest is reported exactly when it was before or a target carries it. */
  lemma {:induction false} ReportedIff(items: seq<Item>, targets: seq<Entry>, digest: string)
    ensures Reported(ReportAll(items, targets), digest) <==>
              Reported(items, digest) || exists e :: e in targets && e.digest == digest
  {
    if targets != [] {
      var (init, last) := (targets[..|targets| - 1], targets[|targets| - 1]);
      assert targets == init + [last];
      ReportedIff(items, init, digest);
      ReportedSnoc(ReportAll(items, init), last, digest);
    }
  }

  lemma ReportedSnoc(items: seq<Item>, e: Entry, digest: string)
    ensures Reported(Report(items, e), digest) <==> Reported(items, digest) || digest == e.digest
  {
    if Reported(items, digest) {
      var k :| 0 <= k < |items| && items[k].digest == digest;
      assert Report(items, e)[k].digest == digest;
    } else if digest == e.digest {
      assert Report(items, e)[|items|].digest == digest;
    }
  }

  function Digests(targets: seq<Entry>): set<string> {
    set t | t in targets :: t.digest
  }

  /** The planned deletions a dry run counts, one per digest, are the items it lists. */
  lemma {:induction false} OneItemPerDigest(targets: seq<Entry>)
    ensures |ReportAll([], targets)| == |Digests(targets)|
  {
    if targets == [] {
      assert Digests(targets) == {};
    } else {
      var (init, last) := (targets[..|targets| - 1], targets[|targets| - 1]);
      OneItemPerDigest(init);
      assert targets == init + [last];
      DigestReported(init, last.digest);
      assert Digests(targets) == Digests(init) + {last.digest};
    }
  }

  lemma DigestReported(targets: seq<Entry>, digest: string)
    ensures Reported(ReportAll([], targets), digest) <==> digest in Digests(targets)
  {
    hide Reported;
    ReportedIff([], targets, digest);
    NothingReported(digest);
  }

  lemma NothingReported(digest: string)
    ensures !Reported([], digest)
  {
  }

  function DryRun(rules: Rules, entries: seq<Entry>, plan: RemovePlan): Result<seq<Item>, Error> {
    match Targets(rules, entries, plan, true)
    case Err(e) => Err(e)
    case Ok(targets) => Ok(ReportAll([], targets))
  }

  // ---- the shared store ----

  function Find(entries: seq<Entry>, ref: string): Option<Entry> {
    if entries == [] then None else if entries[0].ref == ref then Some(entries[0]) else Find(entries[1..], ref)
  }

  function Without(entries: seq<Entry>, ref: string): seq<Entry> {
    if entries == [] then []
    else (if entries[0].ref == ref then [] else [entries[0]]) + Without(entries[1..], ref)
  }

  /**
   * Other processes may rewrite the references before each operation, and any operation may fail; each one is atomic.
   */
  datatype World = World(others: (nat, seq<Entry>) -> seq<Entry>, fails: nat -> bool) {
    ghost predicate Quiet() {
      forall c, es :: others(c, es) == es && !fails(c)
    }
  }

  /** A reference this process has deleted, and the snapshot it was last working from. */
  datatype Deletion = Deletion(entry: Entry, snapshot: seq<Entry>)

  datatype DeleteOutcome = Deleted | Absent | Moved | Broken

  class Store {
    var entries: seq<Entry>
    var clock: nat
    ghost var snapshot: seq<Entry>
    ghost var deletions: seq<Deletion>
    /** All snapshots this process has taken, and the references it has found absent or has deleted. */
    ghost var history: seq<seq<Entry>>
    ghost var absences: seq<string>
    const world: World

    constructor (initial: seq<Entry>, w: World)
      ensures entries == initial && clock == 0 && deletions == [] && history == [] && absences == [] && world == w
    {
      entries, clock, snapshot, deletions, history, absences, world := initial, 0, [], [], [], [], w;
    }

    method ReferenceEntries() returns (current: Option<seq<Entry>>)
      modifies this
      ensures entries == snapshot == world.others(old(clock), old(entries)) && clock == old(clock) + 1
              && deletions == old(deletions) && absences == old(absences)
      ensures history == old(history) + [snapshot]
      ensures current == if world.fails(old(clock)) then None else Some(snapshot)
    {
      entries, clock := world.others(clock, entries), clock + 1;
      snapshot, history := entries, history + [entries];
      return if world.fails(clock - 1) then None else Some(entries);
    }

    /** Some(false) when the reference does not exist. */
    method Resolve(ref: string) returns (present: Option<bool>)
      modifies this
      ensures entries == world.others(old(clock), old(entries)) && clock == old(clock) + 1
      ensures deletions == old(deletions) && snapshot == old(snapshot) && history == old(history)
      ensures absences == old(absences) + if Find(entries, ref).None? then [ref] else []
      ensures present == if world.fails(old(clock)) then None else Some(Find(entries, ref).Some?)
    {
      entries, clock := world.others(clock, entries), clock + 1;
      absences := absences + if Find(entries, ref).None? then [ref] else [];
      return if world.fails(clock - 1) then None else Some(Find(entries, ref).Some?);
    }

    method DeleteRef(ref: string, digest: string) returns (outcome: DeleteOutcome)
      modifies this
      ensures clock == old(clock) + 1 && snapshot == old(snapshot) && history == old(history)
      ensures var now := world.others(old(clock), old(entries));
              var found := Find(now, ref);
              && outcome == (if world.fails(old(clock)) then Broken else if found.None? then Absent
                             else if found.value.digest != digest then Moved else Deleted)
              && entries == (if outcome.Deleted? then Without(now, ref) else now)
              && deletions == old(deletions) + (if outcome.Deleted? then [Deletion(found.value, snapshot)] else [])
              && absences == old(absences) + (if outcome.Deleted? || found.None? then [ref] else [])
    {
      entries, clock := world.others(clock, entries), clock + 1;
      var found := Find(entries, ref);
      absences := absences + if found.None? then [ref] else [];
      if world.fails(clock - 1) {
        return Broken;
      }
      if found.None? {
        return Absent;
      }
      if found.value.digest != digest {
        return Moved;
      }
      deletions, absences := deletions + [Deletion(found.value, snapshot)], absences + [ref];
      entries := Without(entries, ref);
      return Deleted;
    }

    /** Garbage collection reclaims records; references stay as they are. */
    method CollectGarbage() returns (ok: bool)
      modifies this
      ensures entries == world.others(old(clock), old(entries)) && clock == old(clock) + 1
      ensures deletions == old(deletions) && snapshot == old(snapshot) && ok == !world.fails(old(clock))
      ensures history == old(history) && absences == old(absences)
    {
      entries, clock := world.others(clock, entries), clock + 1;
      return !world.fails(clock - 1);
    }
  }

  lemma {:induction false} FindMeans(entries: seq<Entry>, ref: string)
    ensures Find(entries, ref).Some? ==> Find(entries, ref).value in entries && Find(entries, ref).value.ref == ref
    ensures Find(entries, ref).None? ==> forall e :: e in entries ==> e.ref != ref
  {
    if entries != [] {
      FindMeans(entries[1..], ref);
    }
  }

  lemma {:induction false} WithoutMeans(entries: seq<Entry>, ref: string)
    ensures forall e :: e in Without(entries, ref) <==> e in entries && e.ref != ref
  {
    if entries != [] {
      WithoutMeans(entries[1..], ref);
    }
  }

  // ---- one pass ----

  /** What was deleted meanwhile was a target, at the digest the targets were planned with. */
  ghost predicate OnlyTargets(before: seq<Deletion>, after: seq<Deletion>, snapshot: seq<Entry>, targets: seq<Entry>) {
    before <= after && forall k :: |before| <= k < |after| ==>
        after[k].snapshot == snapshot && Listed(targets, after[k].entry)
  }

  datatype Removal = Gone | Stuck | Failed

  /** The reference is there, at another digest. */
  ghost predicate MovedAway(entries: seq<Entry>, e: Entry) {
    exists x :: x in entries && x.ref == e.ref && x.digest != e.digest
  }

  /** deleteStoredRef: an absent reference is fine, and so is one that has moved but is gone by now. */
  method DeleteStoredRef(store: Store, e: Entry) returns (removal: Removal)
    modifies store
    ensures OnlyTargets(old(store.deletions), store.deletions, store.snapshot, [e])
            && store.snapshot == old(store.snapshot)
    ensures store.world.Quiet() && Find(old(store.entries), e.ref) == Some(e) ==>
              removal.Gone? && store.entries == Without(old(store.entries), e.ref)
    ensures store.history == old(store.history) && old(store.absences) <= store.absences
            && old(store.clock) < store.clock
    ensures removal.Gone? ==> e.ref in store.absences[|old(store.absences)|..]
    ensures removal.Failed? <==> store.world.fails(old(store.clock))
    ensures removal.Stuck? ==> MovedAway(store.world.others(old(store.clock), old(store.entries)), e)
    ensures !removal.Gone? ==> store.deletions == old(store.deletions)
    ensures forall k :: |old(store.deletions)| <= k < |store.deletions| ==> store.deletions[k].entry.digest == e.digest
  {
    FindMeans(store.world.others(store.clock, store.entries), e.ref);
    var outcome := store.DeleteRef(e.ref, e.digest);
    assert [e][0] == e;
    match outcome
    case Deleted => return Gone;
    case Absent => return Gone;
    case Broken => return Failed;
    case Moved =>
      var present := store.Resolve(e.ref);
      return if present == Some(false) then Gone else Stuck;
  }

  /** What is left of `entries` after deleting the references of `targets` one after the other. */
  function Survivors(entries: seq<Entry>, targets: seq<Entry>): seq<Entry> {
    if targets == [] then entries else Without(Survivors(entries, targets[..|targets| - 1]), targets[|targets| - 1].ref)
  }

  lemma {:induction false} SurvivorsMean(entries: seq<Entry>, targets: seq<Entry>)
    ensures forall e :: e in Survivors(entries, targets) <==>
              e in entries && forall t :: t in targets ==> t.ref != e.ref
  {
    if targets != [] {
      var (init, last) := (targets[..|targets| - 1], targets[|targets| - 1]);
      assert targets == init + [last];
      SurvivorsMean(entries, init);
      WithoutMeans(Survivors(entries, init), last.ref);
    }
  }

  ghost predicate Calm(w: World, entries: seq<Entry>, targets: seq<Entry>) {
    w.Quiet() && UniqueRefs(entries) && UniqueRefs(targets) && forall t :: t in targets ==> t in entries
  }

  lemma TargetStillThere(entries: seq<Entry>, targets: seq<Entry>, k: nat)
    requires UniqueRefs(entries) && UniqueRefs(targets) && k < |targets| && targets[k] in entries
    ensures Find(Survivors(entries, targets[..k]), targets[k].ref) == Some(targets[k])
  {
    SurvivorsMean(entries, targets[..k]);
    FindMeans(Survivors(entries, targets[..k]), targets[k].ref);
    assert targets[k] in Survivors(entries, targets[..k]);
  }

  lemma OnlyTargetsChain(a: seq<Deletion>, b: seq<Deletion>, c: seq<Deletion>, snapshot: seq<Entry>,
                         targets: seq<Entry>, k: nat)
    requires k < |targets| && OnlyTargets(a, b, snapshot, targets) && OnlyTargets(b, c, snapshot, [targets[k]])
    ensures OnlyTargets(a, c, snapshot, targets)
  {
    forall m | |b| <= m < |c| ensures Listed(targets, c[m].entry) {
      assert Listed([targets[k]], c[m].entry);
      assert targets[k].ref == c[m].entry.ref;
    }
  }

  datatype Pass = Pass(progress: bool, stuck: bool, removed: seq<Item>)

  // ---- what reports may say ----

  /** The item is about a target whose reference has meanwhile been found absent or been deleted. */
  ghost predicate Truthful(item: Item, targets: seq<Entry>, before: seq<string>, after: seq<string>) {
    before <= after && exists t :: t in targets && item == Item(t.name, t.version, t.digest, t.ref)
                                   && t.ref in after[|before|..]
  }

  /** New items are truthful, and no digest is listed twice. */
  ghost predicate Honest(items: seq<Item>, more: seq<Item>, targets: seq<Entry>, before: seq<string>,
                         after: seq<string>)
  {
    && items <= more && before <= after
    && (forall k :: |items| <= k < |more| ==> Truthful(more[k], targets, before, after))
    && (OncePerDigest(items) ==> OncePerDigest(more))
  }

  ghost predicate OncePerDigest(items: seq<Item>) {
    forall i, j :: 0 <= i < j < |items| ==> items[i].digest != items[j].digest
  }

  /** Every deletion is reported. */
  ghost predicate Covered(items: seq<Item>, before: seq<Deletion>, after: seq<Deletion>) {
    before <= after && forall k :: |before| <= k < |after| ==> Reported(items, after[k].entry.digest)
  }

  ghost predicate FailedBetween(w: World, from: nat, to: nat) {
    exists k: nat :: from <= k < to && w.fails(k)
  }

  lemma ReportIsHonest(items: seq<Item>, now: seq<Item>, targets: seq<Entry>, i: nat, a: seq<string>, b: seq<string>,
                       c: seq<string>)
    requires i < |targets| && Honest(items, now, targets[..i], a, b) && b <= c
    requires targets[i].ref in c[|b|..]
    ensures Honest(items, Report(now, targets[i]), targets[..i + 1], a, c)
  {
    var (t, more) := (targets[i], Report(now, targets[i]));
    assert t.ref in c[|a|..] by {
      var k :| 0 <= k < |c[|b|..]| && c[|b|..][k] == t.ref;
      assert c[|a|..][|b| - |a| + k] == t.ref;
    }
    assert targets[..i + 1] == targets[..i] + [t] && t in targets[..i + 1];
    StillHonest(items, now, targets[..i], targets[..i + 1], a, b, c);
    forall k | |now| <= k < |more| ensures Truthful(more[k], targets[..i + 1], a, c) {
      assert more[k] == ItemOf(t);
    }
  }

  lemma StillHonest(items: seq<Item>, now: seq<Item>, targets: seq<Entry>, more: seq<Entry>, a: seq<string>,
                    b: seq<string>, c: seq<string>)
    requires Honest(items, now, targets, a, b) && b <= c && forall t :: t in targets ==> t in more
    ensures Honest(items, now, more, a, c)
  {
    forall k | |items| <= k < |now| ensures Truthful(now[k], more, a, c) {
      assert Truthful(now[k], targets, a, b);
      var t :| t in targets && now[k] == ItemOf(t) && t.ref in b[|a|..];
      var m :| 0 <= m < |b[|a|..]| && b[|a|..][m] == t.ref;
      assert c[|a|..][m] == t.ref;
    }
  }

  lemma ReportCovers(now: seq<Item>, t: Entry, a: seq<Deletion>, b: seq<Deletion>, c: seq<Deletion>)
    requires Covered(now, a, b) && b <= c && forall k :: |b| <= k < |c| ==> c[k].entry.digest == t.digest
    ensures Covered(Report(now, t), a, c)
  {
    forall k | |a| <= k < |c| ensures Reported(Report(now, t), c[k].entry.digest) {
      if k < |b| { assert c[k] == b[k] && Reported(now, b[k].entry.digest); }
      ReportedSnoc(now, t, c[k].entry.digest);
    }
  }

  method RemovePass(store: Store, targets: seq<Entry>, removed: seq<Item>, ghost base: seq<Deletion>)
    returns (res: Option<Pass>)
    modifies store
    ensures OnlyTargets(old(store.deletions), store.deletions, store.snapshot, targets)
            && store.snapshot == old(store.snapshot)
    ensures Calm(store.world, old(store.entries), targets) ==>
              res == Some(Pass(targets != [], false, ReportAll(removed, targets)))
                  && store.entries == Survivors(old(store.entries), targets)
    ensures store.history == old(store.history) && old(store.absences) <= store.absences
            && old(store.clock) <= store.clock && old(store.deletions) <= store.deletions
    ensures res.None? ==> FailedBetween(store.world, old(store.clock), store.clock)
    ensures res.Some? ==>
              && Honest(removed, res.value.removed, targets, old(store.absences), store.absences)
              && (Covered(removed, base, old(store.deletions)) ==> Covered(res.value.removed, base, store.deletions))
              && (res.value.progress || res.value.stuck || targets == [])
              && (!res.value.progress ==> store.deletions == old(store.deletions))
  {
    hide Survivors, Find, Without, Listed, Reported, Honest, Covered, MovedAway;
    var pass := Pass(false, false, removed);
    ghost var (before, calm) := (store.entries, Calm(store.world, store.entries, targets));
    StartOfPass(before, removed, targets);
    NothingToReport(removed, targets[..0], store.absences);
    for i := 0 to |targets|
      invariant OnlyTargets(old(store.deletions), store.deletions, store.snapshot, targets)
                && store.snapshot == old(store.snapshot)
      invariant calm ==>
                  && pass == Pass(i > 0, false, ReportAll(removed, targets[..i]))
                  && store.entries == Survivors(before, targets[..i])
      invariant store.history == old(store.history) && old(store.absences) <= store.absences
                && old(store.clock) <= store.clock && old(store.deletions) <= store.deletions
      invariant Honest(removed, pass.removed, targets[..i], old(store.absences), store.absences)
      invariant Covered(removed, base, old(store.deletions)) ==> Covered(pass.removed, base, store.deletions)
      invariant pass.progress || pass.stuck || i == 0
      invariant !pass.progress ==> store.deletions == old(store.deletions)
    {
      if calm { TargetStillThere(before, targets, i); }
      NextOfPass(before, removed, targets, i);
      ghost var (deleted, absent) := (store.deletions, store.absences);
      var removal := DeleteStoredRef(store, targets[i]);
      OnlyTargetsChain(old(store.deletions), deleted, store.deletions, store.snapshot, targets, i);
      match removal
      case Failed =>
        return None;
      case Stuck =>
        StillHonest(removed, pass.removed, targets[..i], targets[..i + 1], old(store.absences), absent, store.absences);
        pass := pass.(stuck := true);
      case Gone =>
        ReportIsHonest(removed, pass.removed, targets, i, old(store.absences), absent, store.absences);
        if Covered(removed, base, old(store.deletions)) {
          ReportCovers(pass.removed, targets[i], base, deleted, store.deletions);
        }
        pass := pass.(progress := true, removed := Report(pass.removed, targets[i]));
    }
    assert targets[..|targets|] == targets;
    return Some(pass);
  }

  lemma NothingToReport(items: seq<Item>, targets: seq<Entry>, absences: seq<string>)
    ensures Honest(items, items, targets, absences, absences)
  {
  }

  lemma StartOfPass(entries: seq<Entry>, removed: seq<Item>, targets: seq<Entry>)
    ensures Survivors(entries, targets[..0]) == entries && ReportAll(removed, targets[..0]) == removed
  {
  }

  lemma NextOfPass(entries: seq<Entry>, removed: seq<Item>, targets: seq<Entry>, i: nat)
    requires i < |targets|
    ensures Survivors(entries, targets[..i + 1]) == Without(Survivors(entries, targets[..i]), targets[i].ref)
    ensures ReportAll(removed, targets[..i + 1]) == Report(ReportAll(removed, targets[..i]), targets[i])
  {
    assert targets[..i + 1][..i] == targets[..i];
  }

  // ---- the passes ----

  /** The deletion was of a reference the plan selects in the snapshot of that pass, at the digest it had there. */
  ghost predicate Justified(rules: Rules, plan: RemovePlan, d: Deletion) {
    var targets := Targets(rules, d.snapshot, plan, false);
    targets.Ok? && Listed(targets.value, d.entry)
  }

  ghost predicate AllJustified(rules: Rules, plan: RemovePlan, before: seq<Deletion>, after: seq<Deletion>) {
    before <= after && forall k :: |before| <= k < |after| ==> Justified(rules, plan, after[k])
  }

  datatype Turn = Again(removed: seq<Item>) | Stop(removed: seq<Item>) | Fail(error: Error)

  /** The items a turn hands on. */
  function RemovedBy(turn: Turn): seq<Item> {
    match turn
    case Again(r) => r
    case Stop(r) => r
    case Fail(_) => []
  }

  /** Each item beyond `items` is about an entry that the plan selects in some snapshot from `from` on. */
  ghost predicate AllHonest(rules: Rules, plan: RemovePlan, items: seq<Item>, more: seq<Item>,
                            history: seq<seq<Entry>>, from: nat, before: seq<string>, after: seq<string>)
  {
    && items <= more && before <= after && (OncePerDigest(items) ==> OncePerDigest(more))
    && forall k :: |items| <= k < |more| ==> HonestFrom(rules, plan, more[k], history, from, before, after)
  }

  ghost predicate HonestFrom(rules: Rules, plan: RemovePlan, item: Item, history: seq<seq<Entry>>, from: nat,
                             before: seq<string>, after: seq<string>)
  {
    exists n :: from <= n < |history| && Targets(rules, history[n], plan, false).Ok?
                && Truthful(item, Targets(rules, history[n], plan, false).value, before, after)
  }

  /** Why a turn ends the passes. */
  ghost predicate Ends(rules: Rules, plan: RemovePlan, first: bool, snapshot: seq<Entry>, turn: Turn) {
    match turn
    case Again(_) => true
    case Stop(_) => Targets(rules, snapshot, plan, false) == Ok([])
    case Fail(StoreBusy) => Targets(rules, snapshot, plan, false).Ok? && Targets(rules, snapshot, plan, false) != Ok([])
    case Fail(NotConverged) => false
    case Fail(e) => e in {StoreFailed, GcFailed} || Targets(rules, snapshot, plan, first) == Err(e)
  }

  ghost predicate StoreTrouble(turn: Turn) {
    turn == Fail(StoreFailed) || turn == Fail(GcFailed)
  }

  /** What an undisturbed pass comes to. */
  ghost predicate CalmPass(rules: Rules, plan: RemovePlan, first: bool, removed: seq<Item>, before: seq<Entry>,
                           after: seq<Entry>, turn: Turn) {
    match Targets(rules, before, plan, first)
    case Err(e) => turn == Fail(e) && after == before
    case Ok(targets) =>
      if targets == [] then turn == Stop(removed) && after == before
      else turn == Again(ReportAll(removed, targets)) && after == Survivors(before, targets)
  }

  /** Deletes the targets of a pass and collects garbage if any reference is gone. */
  method WorkOff(store: Store, targets: seq<Entry>, removed: seq<Item>, ghost base: seq<Deletion>) returns (turn: Turn)
    requires targets != []
    modifies store
    ensures OnlyTargets(old(store.deletions), store.deletions, store.snapshot, targets)
            && store.snapshot == old(store.snapshot)
    ensures Calm(store.world, old(store.entries), targets) ==>
              turn == Again(ReportAll(removed, targets)) && store.entries == Survivors(old(store.entries), targets)
    ensures store.history == old(store.history) && old(store.clock) <= store.clock
    ensures turn.Again? || turn == Fail(StoreBusy) || StoreTrouble(turn)
    ensures StoreTrouble(turn) ==> FailedBetween(store.world, old(store.clock), store.clock)
    ensures turn == Fail(StoreBusy) ==> store.deletions == old(store.deletions)
    ensures turn.Again? ==>
              && Honest(removed, turn.removed, targets, old(store.absences), store.absences)
              && (Covered(removed, base, old(store.deletions)) ==> Covered(turn.removed, base, store.deletions))
  {
    hide Survivors, ReportAll, Listed, Covered, Honest, UniqueRefs;
    var pass := RemovePass(store, targets, removed, base);
    if pass.None? {
      return Fail(StoreFailed);
    }
    if pass.value.progress {
      var collected := store.CollectGarbage();
      return if collected then Again(pass.value.removed) else Fail(GcFailed);
    }
    return Fail(StoreBusy);
  }

  lemma HonestHere(rules: Rules, plan: RemovePlan, items: seq<Item>, more: seq<Item>, history: seq<seq<Entry>>,
                   n: nat, before: seq<string>, after: seq<string>)
    requires n < |history| && Targets(rules, history[n], plan, false).Ok?
    requires Honest(items, more, Targets(rules, history[n], plan, false).value, before, after)
    ensures AllHonest(rules, plan, items, more, history, n, before, after)
  {
    hide Targets, Truthful, OncePerDigest;
  }

  lemma NothingNew(rules: Rules, plan: RemovePlan, items: seq<Item>, history: seq<seq<Entry>>, n: nat,
                   absences: seq<string>)
    ensures AllHonest(rules, plan, items, items, history, n, absences, absences)
  {
  }

  lemma NothingDeleted(rules: Rules, plan: RemovePlan, deletions: seq<Deletion>)
    ensures AllJustified(rules, plan, deletions, deletions)
  {
  }

  lemma TargetsJustify(rules: Rules, plan: RemovePlan, before: seq<Deletion>, after: seq<Deletion>,
                       snapshot: seq<Entry>)
    requires Targets(rules, snapshot, plan, false).Ok?
    requires OnlyTargets(before, after, snapshot, Targets(rules, snapshot, plan, false).value)
    ensures AllJustified(rules, plan, before, after)
  {
    hide Targets;
  }

  method OnePass(rules: Rules, store: Store, plan: RemovePlan, first: bool, removed: seq<Item>,
                 ghost base: seq<Deletion>)
    returns (turn: Turn)
    modifies store
    ensures AllJustified(rules, plan, old(store.deletions), store.deletions)
    ensures store.world.Quiet() && UniqueRefs(old(store.entries)) && rules.Valid() ==>
              CalmPass(rules, plan, first, removed, old(store.entries), store.entries, turn)
    ensures store.history == old(store.history) + [store.snapshot] && old(store.clock) < store.clock
    ensures Ends(rules, plan, first, store.snapshot, turn)
    ensures StoreTrouble(turn) ==> FailedBetween(store.world, old(store.clock), store.clock)
    ensures turn == Fail(StoreBusy) ==> store.deletions == old(store.deletions)
    ensures !turn.Fail? ==>
              && AllHonest(rules, plan, removed, RemovedBy(turn), store.history, |old(store.history)|,
                           old(store.absences), store.absences)
              && (Covered(removed, base, old(store.deletions)) ==> Covered(RemovedBy(turn), base, store.deletions))
  {
    hide Targets, Survivors, UniqueRefs, ReportAll, Aimed, Covered, Honest, AllHonest, OnlyTargets, AllJustified;
    NothingDeleted(rules, plan, store.deletions);
    var entries := store.ReferenceEntries();
    if entries.None? {
      return Fail(StoreFailed);
    }
    var planned := PlanTargets(rules, entries.value, plan, first);
    if planned.Err? {
      PlanningFails(rules, entries.value, plan, first);
      return Fail(planned.error);
    }
    var targets := planned.value;
    TargetsStayOptional(rules, entries.value, plan, first);
    if |targets| == 0 {
      NothingNew(rules, plan, removed, store.history, |old(store.history)|, store.absences);
      return Stop(removed);
    }
    if store.world.Quiet() && UniqueRefs(entries.value) && rules.Valid() {
      TargetsArePresent(rules, entries.value, plan, first);
    }
    ghost var (absent, deleted) := (store.absences, store.deletions);
    turn := WorkOff(store, targets, removed, base);
    TargetsJustify(rules, plan, deleted, store.deletions, store.snapshot);
    if turn.Again? {
      HonestHere(rules, plan, removed, turn.removed, store.history, |old(store.history)|, absent, store.absences);
    }
  }

  /** Planning fails only over a selector. */
  lemma PlanningFails(rules: Rules, entries: seq<Entry>, plan: RemovePlan, requireMatch: bool)
    requires Targets(rules, entries, plan, requireMatch).Err?
    ensures Targets(rules, entries, plan, requireMatch).error !in {StoreFailed, StoreBusy, GcFailed, NotConverged}
  {
    hide Wanted, Finds, Matched;
    SelectionFailsIff(rules, entries, plan.selectors, requireMatch);
  }

  /** One more selector: it is blank, it matches nothing where it must, or it adds what it matches. */
  lemma WantedStep(rules: Rules, entries: seq<Entry>, selectors: seq<string>, requireMatch: bool)
    requires selectors != []
    ensures var (before, last) := (Wanted(rules, entries, selectors[..|selectors| - 1], requireMatch),
                                   TrimSpace(selectors[|selectors| - 1]));
            match Wanted(rules, entries, selectors, requireMatch)
            case Ok(_) => before.Ok? && last != "" && (requireMatch ==> Matched(rules, entries, last))
            case Err(e) =>
              before == Err(e)
              || (before.Ok? && ((e == EmptySelector && last == "")
                                 || (e == NotFound(last) && last != "" && requireMatch
                                     && !Matched(rules, entries, last))))
  {
    hide Matched, TrimSpace, MatchedDigests;
    MatchedIff(rules, entries, TrimSpace(selectors[|selectors| - 1]));
  }

  /** `e` is what is wrong with selector `k`, and nothing is wrong with those before it. */
  ghost predicate FirstBad(rules: Rules, entries: seq<Entry>, selectors: seq<string>, requireMatch: bool, k: nat,
                           e: Error)
  {
    && k < |selectors| && (forall m :: 0 <= m < k ==> Finds(rules, entries, selectors[m], requireMatch))
    && var s := TrimSpace(selectors[k]);
       || (s == "" && e == EmptySelector)
       || (s != "" && requireMatch && !Matched(rules, entries, s) && e == NotFound(s))
  }

  ghost predicate Finds(rules: Rules, entries: seq<Entry>, selector: string, requireMatch: bool) {
    TrimSpace(selector) != "" && (requireMatch ==> Matched(rules, entries, TrimSpace(selector)))
  }

  ghost predicate AllFind(rules: Rules, entries: seq<Entry>, selectors: seq<string>, requireMatch: bool) {
    forall k :: 0 <= k < |selectors| ==> Finds(rules, entries, selectors[k], requireMatch)
  }

  /** A selection fails exactly for a selector that is blank or, where it must match, matches nothing; the first one. */
  lemma {:induction false} SelectionFailsIff(rules: Rules, entries: seq<Entry>, selectors: seq<string>,
                                             requireMatch: bool)
    ensures match Wanted(rules, entries, selectors, requireMatch)
            case Ok(_) => AllFind(rules, entries, selectors, requireMatch)
            case Err(e) => exists k: nat :: FirstBad(rules, entries, selectors, requireMatch, k, e)
  {
    if selectors != [] {
      hide Wanted, Matched, TrimSpace, Finds, FirstBad, AllFind;
      var last := |selectors| - 1;
      SelectionFailsIff(rules, entries, selectors[..last], requireMatch);
      WantedStep(rules, entries, selectors, requireMatch);
      var before := Wanted(rules, entries, selectors[..last], requireMatch);
      match Wanted(rules, entries, selectors, requireMatch)
      case Ok(_) =>
        LastFinds(rules, entries, selectors, requireMatch);
      case Err(e) =>
        if before.Err? {
          var k: nat :| FirstBad(rules, entries, selectors[..last], requireMatch, k, e);
          StaysBad(rules, entries, selectors, requireMatch, k, e);
        } else {
          LastIsBad(rules, entries, selectors, requireMatch, e);
        }
    }
  }

  lemma LastFinds(rules: Rules, entries: seq<Entry>, selectors: seq<string>, requireMatch: bool)
    requires selectors != []
    requires var s := TrimSpace(selectors[|selectors| - 1]);
             s != "" && (requireMatch ==> Matched(rules, entries, s))
    requires AllFind(rules, entries, selectors[..|selectors| - 1], requireMatch)
    ensures AllFind(rules, entries, selectors, requireMatch)
  {
    hide TrimSpace, Matched;
    var init := selectors[..|selectors| - 1];
    forall k | 0 <= k < |selectors| ensures Finds(rules, entries, selectors[k], requireMatch) {
      if k < |init| { assert init[k] == selectors[k]; }
    }
  }

  lemma StaysBad(rules: Rules, entries: seq<Entry>, selectors: seq<string>, requireMatch: bool, k: nat, e: Error)
    requires selectors != [] && FirstBad(rules, entries, selectors[..|selectors| - 1], requireMatch, k, e)
    ensures FirstBad(rules, entries, selectors, requireMatch, k, e)
  {
    hide TrimSpace, Matched, Finds;
    var init := selectors[..|selectors| - 1];
    forall m | 0 <= m < k ensures Finds(rules, entries, selectors[m], requireMatch) {
      assert init[m] == selectors[m];
    }
  }

  lemma LastIsBad(rules: Rules, entries: seq<Entry>, selectors: seq<string>, requireMatch: bool, e: Error)
    requires selectors != []
    requires AllFind(rules, entries, selectors[..|selectors| - 1], requireMatch)
    requires var s := TrimSpace(selectors[|selectors| - 1]);
             || (e == EmptySelector && s == "")
             || (e == NotFound(s) && s != "" && requireMatch && !Matched(rules, entries, s))
    ensures FirstBad(rules, entries, selectors, requireMatch, |selectors| - 1, e)
  {
    hide TrimSpace, Matched, Finds;
    var init := selectors[..|selectors| - 1];
    forall m | 0 <= m < |init| ensures Finds(rules, entries, selectors[m], requireMatch) {
      assert init[m] == selectors[m];
    }
  }

  ghost predicate Matched(rules: Rules, entries: seq<Entry>, selector: string) {
    exists e :: e in entries && rules.matches(e, selector)
  }

  lemma MatchedIff(rules: Rules, entries: seq<Entry>, selector: string)
    ensures MatchedDigests(rules, entries, selector) != {} <==> Matched(rules, entries, selector)
  {
    if e :| e in entries && rules.matches(e, selector) {
      MatchedMeans(rules, entries, selector, e.digest);
    }
    if digest :| digest in MatchedDigests(rules, entries, selector) {
      MatchedMeans(rules, entries, selector, digest);
    }
  }

  lemma TargetsArePresent(rules: Rules, entries: seq<Entry>, plan: RemovePlan, requireMatch: bool)
    requires UniqueRefs(entries) && rules.Valid() && Targets(rules, entries, plan, requireMatch).Ok?
    ensures var targets := Targets(rules, entries, plan, requireMatch).value;
            UniqueRefs(targets) && forall t :: t in targets ==> t in entries
  {
    TargetsMean(rules, entries, plan, requireMatch);
  }

  // ---- the removal ----

  /** After an undisturbed pass nothing matches any more. */
  lemma NothingLeft(rules: Rules, entries: seq<Entry>, plan: RemovePlan, targets: seq<Entry>)
    requires UniqueRefs(entries) && rules.Valid() && Targets(rules, entries, plan, true) == Ok(targets)
    ensures UniqueRefs(Survivors(entries, targets)) ==>
              Targets(rules, Survivors(entries, targets), plan, false) == Ok([])
  {
    var left := Survivors(entries, targets);
    SurvivorsMean(entries, targets);
    TargetsMean(rules, entries, plan, true);
    if !plan.all { SelectionStaysOk(rules, entries, left, plan); }
    if UniqueRefs(left) {
      TargetsMean(rules, left, plan, false);
      var more := Targets(rules, left, plan, false).value;
      if more != [] {
        assert more[0] in more && Aimed(rules, left, plan, more[0]);
        AimedStaysAimed(rules, entries, plan, left, more[0]);
        assert false;
      }
    }
  }

  lemma SelectionStaysOk(rules: Rules, entries: seq<Entry>, left: seq<Entry>, plan: RemovePlan)
    requires !plan.all && Targets(rules, entries, plan, true).Ok?
    ensures Targets(rules, left, plan, false).Ok?
  {
    MatchesStayOptional(rules, entries, plan.selectors);
    BlanksAreFixed(rules, entries, left, plan.selectors);
  }

  lemma AimedStaysAimed(rules: Rules, entries: seq<Entry>, plan: RemovePlan, left: seq<Entry>, e: Entry)
    requires (forall x :: x in left ==> x in entries) && Aimed(rules, left, plan, e)
    ensures Aimed(rules, entries, plan, e)
  {
    if !plan.all {
      var f, i :| f in left && 0 <= i < |plan.selectors| && rules.matches(f, TrimSpace(plan.selectors[i]))
          && f.digest == e.digest;
      assert Asked(rules, entries, plan.selectors, e.digest);
    }
  }

  lemma {:induction false} WithoutKeepsUnique(entries: seq<Entry>, ref: string)
    requires UniqueRefs(entries)
    ensures UniqueRefs(Without(entries, ref))
  {
    if entries != [] {
      WithoutKeepsUnique(entries[1..], ref);
      WithoutMeans(entries[1..], ref);
      var rest := Without(entries[1..], ref);
      forall k | 0 <= k < |rest| ensures rest[k].ref != entries[0].ref {
        assert rest[k] in rest;
      }
    }
  }

  lemma {:induction false} SurvivorsStayUnique(entries: seq<Entry>, targets: seq<Entry>)
    requires UniqueRefs(entries)
    ensures UniqueRefs(Survivors(entries, targets))
  {
    if targets != [] {
      SurvivorsStayUnique(entries, targets[..|targets| - 1]);
      WithoutKeepsUnique(Survivors(entries, targets[..|targets| - 1]), targets[|targets| - 1].ref);
    }
  }

  /** The state an undisturbed removal is in after its first pass. */
  ghost predicate AfterFirst(rules: Rules, plan: RemovePlan, before: seq<Entry>, now: seq<Entry>, removed: seq<Item>) {
    match Targets(rules, before, plan, true)
    case Err(_) => false
    case Ok(targets) => now == Survivors(before, targets) && removed == ReportAll([], targets)
  }

  lemma FirstPass(rules: Rules, plan: RemovePlan, before: seq<Entry>, after: seq<Entry>, turn: Turn)
    requires CalmPass(rules, plan, true, [], before, after, turn)
    ensures match turn
            case Fail(e) => Targets(rules, before, plan, true) == Err(e) && after == before
            case Again(removed) => AfterFirst(rules, plan, before, after, removed)
            case Stop(removed) => AfterFirst(rules, plan, before, after, removed)
  {
  }

  lemma LaterPass(rules: Rules, plan: RemovePlan, before: seq<Entry>, now: seq<Entry>, removed: seq<Item>,
                  after: seq<Entry>, turn: Turn)
    requires UniqueRefs(before) && rules.Valid() && AfterFirst(rules, plan, before, now, removed)
    requires CalmPass(rules, plan, false, removed, now, after, turn)
    ensures turn == Stop(removed) && after == now
  {
    hide Survivors, Targets;
    var targets := Targets(rules, before, plan, true).value;
    SurvivorsStayUnique(before, targets);
    NothingLeft(rules, before, plan, targets);
  }

  lemma HonestChain(rules: Rules, plan: RemovePlan, a: seq<Item>, b: seq<Item>, c: seq<Item>, h: seq<seq<Entry>>,
                    i: seq<seq<Entry>>, n: nat, m: nat, x: seq<string>, y: seq<string>, z: seq<string>)
    requires AllHonest(rules, plan, a, b, h, n, x, y) && AllHonest(rules, plan, b, c, i, m, y, z)
    requires h <= i && n <= m
    ensures AllHonest(rules, plan, a, c, i, n, x, z)
  {
    hide Targets, OncePerDigest;
    forall k | |a| <= k < |c| ensures HonestFrom(rules, plan, c[k], i, n, x, z) {
      if k < |b| {
        assert c[k] == b[k] && HonestFrom(rules, plan, b[k], h, n, x, y);
        StaysHonest(rules, plan, b[k], h, i, n, n, x, x, y, z);
      } else {
        assert HonestFrom(rules, plan, c[k], i, m, y, z);
        StaysHonest(rules, plan, c[k], i, i, m, n, y, x, z, z);
      }
    }
  }

  /** A longer history, and more absences, still bear out an item. */
  lemma StaysHonest(rules: Rules, plan: RemovePlan, item: Item, h: seq<seq<Entry>>, i: seq<seq<Entry>>, n: nat, m: nat,
                    x: seq<string>, w: seq<string>, y: seq<string>, z: seq<string>)
    requires HonestFrom(rules, plan, item, h, n, x, y) && h <= i && m <= n && w <= x && y <= z
    ensures HonestFrom(rules, plan, item, i, m, w, z)
  {
    hide Targets;
    var k :| n <= k < |h| && Targets(rules, h[k], plan, false).Ok?
             && Truthful(item, Targets(rules, h[k], plan, false).value, x, y);
    var targets := Targets(rules, h[k], plan, false).value;
    var t :| t in targets && item == ItemOf(t) && t.ref in y[|x|..];
    var q :| 0 <= q < |y[|x|..]| && y[|x|..][q] == t.ref;
    assert z[|w|..][|x| - |w| + q] == t.ref;
    assert Truthful(item, targets, w, z) && i[k] == h[k];
  }

  /** Why the passes end without a list of items; `tried` is the number of passes. */
  ghost predicate GivesUp(rules: Rules, plan: RemovePlan, snapshot: seq<Entry>, tried: int, e: Error) {
    match e
    case StoreFailed => true
    case GcFailed => true
    case StoreBusy => Targets(rules, snapshot, plan, false).Ok? && Targets(rules, snapshot, plan, false) != Ok([])
    case NotConverged => false
    case _ => Targets(rules, snapshot, plan, tried == 1) == Err(e)
  }

  method RunPasses(rules: Rules, store: Store, plan: RemovePlan) returns (res: Result<seq<Item>, Error>)
    modifies store
    ensures |old(store.history)| < |store.history| <= |old(store.history)| + 8
            && old(store.history) <= store.history && old(store.clock) < store.clock
    ensures res.Ok? ==>
              && AllHonest(rules, plan, [], res.value, store.history, |old(store.history)|, old(store.absences),
                           store.absences)
              && Covered(res.value, old(store.deletions), store.deletions)
              && (|store.history| == |old(store.history)| + 8
                  || Targets(rules, store.history[|store.history| - 1], plan, false) == Ok([]))
    ensures res.Err? ==>
              && GivesUp(rules, plan, store.history[|store.history| - 1],
                         |store.history| - |old(store.history)|, res.error)
              && (res.error in {StoreFailed, GcFailed} ==>
                    FailedBetween(store.world, old(store.clock), store.clock))
    ensures AllJustified(rules, plan, old(store.deletions), store.deletions)
    ensures store.world.Quiet() && UniqueRefs(old(store.entries)) && rules.Valid() ==>
              match res
              case Err(e) => Targets(rules, old(store.entries), plan, true) == Err(e)
                  && store.entries == old(store.entries)
              case Ok(removed) => AfterFirst(rules, plan, old(store.entries), store.entries, removed)
  {
    hide Targets, AfterFirst, CalmPass, UniqueRefs, Justified, AllHonest, Covered;
    var removed: seq<Item> := [];
    NothingNew(rules, plan, [], store.history, |store.history|, store.absences);
    NothingToCover(store.deletions);
    ghost var (before, calm) := (store.entries, store.world.Quiet() && UniqueRefs(store.entries) && rules.Valid());
    for pass := 0 to MAX_PASSES
      invariant AllJustified(rules, plan, old(store.deletions), store.deletions)
      invariant calm && pass == 0 ==> store.entries == before && removed == []
      invariant calm && pass > 0 ==> AfterFirst(rules, plan, before, store.entries, removed)
      invariant |store.history| == |old(store.history)| + pass && old(store.history) <= store.history
                && old(store.clock) <= store.clock && (pass > 0 ==> old(store.clock) < store.clock)
      invariant AllHonest(rules, plan, [], removed, store.history, |old(store.history)|, old(store.absences),
                          store.absences)
      invariant Covered(removed, old(store.deletions), store.deletions)
    {
      ghost var now := store.entries;
      ghost var (clock, history, absent) := (store.clock, store.history, store.absences);
      if calm && pass > 0 { AfterFirstUnique(rules, plan, before, now, removed); }
      var turn := OnePass(rules, store, plan, pass == 0, removed, old(store.deletions));
      if calm {
        if pass == 0 {
          FirstPass(rules, plan, before, store.entries, turn);
        } else {
          LaterPass(rules, plan, before, now, removed, store.entries, turn);
        }
      }
      if !turn.Fail? {
        HonestChain(rules, plan, [], removed, RemovedBy(turn), history, store.history, |old(store.history)|, |history|,
                    old(store.absences), absent, store.absences);
      }
      match turn
      case Fail(e) => return Err(e);
      case Stop(r) => return Ok(r);
      case Again(r) => removed := r;
    }
    return Ok(removed);
  }

  lemma NothingToCover(deletions: seq<Deletion>)
    ensures Covered([], deletions, deletions)
  {
  }

  lemma AfterFirstUnique(rules: Rules, plan: RemovePlan, before: seq<Entry>, now: seq<Entry>, removed: seq<Item>)
    requires UniqueRefs(before) && AfterFirst(rules, plan, before, now, removed)
    ensures UniqueRefs(now)
  {
    SurvivorsStayUnique(before, Targets(rules, before, plan, true).value);
  }

  /** The undisturbed run does what the dry run says: it removes every reported digest and nothing else. */
  ghost predicate AsPredicted(rules: Rules, plan: RemovePlan, before: seq<Entry>, after: seq<Entry>,
                              res: Result<seq<Item>, Error>) {
    && res == DryRun(rules, before, plan)
    && if res.Err? then after == before else forall e :: e in after <==> e in before && !Reported(res.value, e.digest)
  }

  lemma AfterFirstIsPredicted(rules: Rules, plan: RemovePlan, before: seq<Entry>, now: seq<Entry>, removed: seq<Item>)
    requires UniqueRefs(before) && rules.Valid() && AfterFirst(rules, plan, before, now, removed)
    ensures AsPredicted(rules, plan, before, now, Ok(removed)) && Targets(rules, now, plan, false) == Ok([])
  {
    hide Targets, Survivors, ReportAll, Reported, Aimed;
    var targets := Targets(rules, before, plan, true).value;
    SurvivorsStayUnique(before, targets);
    NothingLeft(rules, before, plan, targets);
    TargetsMean(rules, before, plan, true);
    SurvivorsMean(before, targets);
    forall e ensures e in now <==> e in before && !Reported(removed, e.digest) {
      if e in before {
        ReportedIff([], targets, e.digest);
        NothingReported(e.digest);
        SurvivesIffUnreported(rules, plan, before, targets, e);
      }
    }
  }

  lemma SurvivesIffUnreported(rules: Rules, plan: RemovePlan, before: seq<Entry>, targets: seq<Entry>, e: Entry)
    requires UniqueRefs(before) && forall t :: t in targets <==> Aimed(rules, before, plan, t)
    requires e in before
    ensures (forall t :: t in targets ==> t.ref != e.ref) <==> !exists t :: t in targets && t.digest == e.digest
  {
    if t :| t in targets && t.digest == e.digest {
      assert Aimed(rules, before, plan, t);
      assert Aimed(rules, before, plan, e);
    }
    if t :| t in targets && t.ref == e.ref {
      assert t in before;
      assert t == e;
    }
  }

  /**
   * removeLocalAdversaries. With any other writers, success means that no reference matches in the final snapshot, and
   * every deletion was justified by the snapshot of its pass. Undisturbed, it does what the dry run says.
   */
  method RemoveLocal(rules: Rules, store: Store, plan: RemovePlan) returns (res: Result<seq<Item>, Error>)
    modifies store
    ensures res.Ok? ==> Targets(rules, store.entries, plan, false) == Ok([])
    ensures AllJustified(rules, plan, old(store.deletions), store.deletions)
    ensures store.world.Quiet() && UniqueRefs(old(store.entries)) && rules.Valid() ==>
              AsPredicted(rules, plan, old(store.entries), store.entries, res)
    ensures |old(store.history)| < |store.history| <= |old(store.history)| + 9 && old(store.history) <= store.history
    ensures res.Ok? ==>
              && AllHonest(rules, plan, [], res.value, store.history, |old(store.history)|, old(store.absences),
                           store.absences)
              && Covered(res.value, old(store.deletions), store.deletions)
    ensures res == Err(NotConverged) ==>
              && Targets(rules, store.entries, plan, false).Ok? && Targets(rules, store.entries, plan, false) != Ok([])
              && |store.history| >= |old(store.history)| + 2
              && (|store.history| == |old(store.history)| + 9
                  || Targets(rules, store.history[|store.history| - 2], plan, false) == Ok([]))
    ensures res == Err(StoreFailed) || res == Err(GcFailed) ==>
              FailedBetween(store.world, old(store.clock), store.clock)
    ensures res == Err(StoreBusy) ==>
              var targets := Targets(rules, store.history[|store.history| - 1], plan, false);
              targets.Ok? && targets != Ok([])
    ensures res == Err(EmptySelector) || (res.Err? && res.error.NotFound?) ==>
              exists n :: |old(store.history)| <= n < |store.history|
                          && Targets(rules, store.history[n], plan, n == |old(store.history)|) == Err(res.error)
  {
    hide Targets, AfterFirst, AsPredicted, UniqueRefs, AllJustified, AllHonest, Covered;
    ghost var (before, calm) := (store.entries, store.world.Quiet() && UniqueRefs(store.entries) && rules.Valid());
    var removed := RunPasses(rules, store, plan);
    if removed.Err? {
      assert GivesUp(rules, plan, store.history[|store.history| - 1], |store.history| - |old(store.history)|,
                     removed.error);
      if calm { FailureIsPredicted(rules, plan, before, removed.error); }
      return Err(removed.error);
    }
    if calm { AfterFirstIsPredicted(rules, plan, before, store.entries, removed.value); }
    ghost var history := store.history;
    var entries := store.ReferenceEntries();
    LongerHistory(rules, plan, removed.value, history, store.history, |old(store.history)|, old(store.absences),
                  store.absences);
    if entries.None? {
      return Err(StoreFailed);
    }
    var remaining := PlanTargets(rules, entries.value, plan, false);
    if remaining.Err? {
      PlanningFails(rules, entries.value, plan, false);
      assert store.history[|store.history| - 1] == entries.value;
      return Err(remaining.error);
    }
    if |remaining.value| > 0 {
      return Err(NotConverged);
    }
    return removed;
  }

  lemma LongerHistory(rules: Rules, plan: RemovePlan, items: seq<Item>, h: seq<seq<Entry>>, i: seq<seq<Entry>>, n: nat,
                      before: seq<string>, after: seq<string>)
    requires AllHonest(rules, plan, [], items, h, n, before, after) && h <= i && n <= |h|
    ensures AllHonest(rules, plan, [], items, i, n, before, after)
  {
    hide Targets, OncePerDigest;
    assert after <= after;
    NothingNew(rules, plan, items, i, n, after);
    HonestChain(rules, plan, [], items, items, h, i, n, n, before, after, after);
  }

  lemma FailureIsPredicted(rules: Rules, plan: RemovePlan, before: seq<Entry>, e: Error)
    requires Targets(rules, before, plan, true) == Err(e)
    ensures AsPredicted(rules, plan, before, before, Err(e))
  {
  }

  method DryRunRemoval(rules: Rules, store: Store, plan: RemovePlan) returns (res: Result<seq<Item>, Error>)
    modifies store
    ensures store.deletions == old(store.deletions)
            && store.entries == store.world.others(old(store.clock), old(store.entries))
    ensures res == if store.world.fails(old(store.clock)) then Err(StoreFailed) else DryRun(rules, store.entries, plan)
  {
    var entries := store.ReferenceEntries();
    if entries.None? {
      return Err(StoreFailed);
    }
    var targets := PlanTargets(rules, entries.value, plan, true);
    if targets.Err? {
      return Err(targets.error);
    }
    var items := SummarizeRemoved(targets.value);
    return Ok(items);
  }
}
