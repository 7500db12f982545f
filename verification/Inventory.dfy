/** Merging local and catalog rows into one inventory (cmd/inventory.go, cmd/auto_pull.go). */
module Inventory {
  import opened Prelude

  // ---- version precedence, section 11 of Semantic Versioning 2.0.0 ----

  datatype Identifier = Number(n: nat) | Text(s: string)

  /** Build metadata plays no part in precedence. */
  datatype Version = Version(major: nat, minor: nat, patch: nat, pre: seq<Identifier>)

  predicate IdentifierLess(a: Identifier, b: Identifier) {
    match (a, b)
    case (Number(x), Number(y)) => x < y
    case (Number(_), Text(_)) => true
    case (Text(_), Number(_)) => false
    case (Text(x), Text(y)) => Less(x, y)
  }

  /** Left to right; a list that ends first is lower. */
  predicate ListLess(a: seq<Identifier>, b: seq<Identifier>) {
    b != [] && (a == [] || IdentifierLess(a[0], b[0]) || (a[0] == b[0] && ListLess(a[1..], b[1..])))
  }

  predicate PrereleaseLess(a: seq<Identifier>, b: seq<Identifier>) {
    if a == [] then false else if b == [] then true else ListLess(a, b)
  }

  predicate VersionLess(a: Version, b: Version) {
    if a.major != b.major then a.major < b.major
    else if a.minor != b.minor then a.minor < b.minor
    else if a.patch != b.patch then a.patch < b.patch
    else PrereleaseLess(a.pre, b.pre)
  }

  lemma IdentifierOrder(a: Identifier, b: Identifier, c: Identifier)
    ensures IdentifierLess(a, b) ==> !IdentifierLess(b, a)
    ensures IdentifierLess(a, b) && IdentifierLess(b, c) ==> IdentifierLess(a, c)
    ensures IdentifierLess(a, b) || IdentifierLess(b, a) || a == b
  {
    if a.Text? && b.Text? {
      LessTotal(a.s, b.s);
      if Less(a.s, b.s) { LessAsymmetric(a.s, b.s); }
      if c.Text? && Less(a.s, b.s) && Less(b.s, c.s) { LessTransitive(a.s, b.s, c.s); }
    }
  }

  lemma {:induction false} ListOrder(a: seq<Identifier>, b: seq<Identifier>)
    ensures ListLess(a, b) ==> !ListLess(b, a)
    ensures ListLess(a, b) || ListLess(b, a) || a == b
  {
    if a != [] && b != [] {
      IdentifierOrder(a[0], b[0], a[0]);
      if a[0] == b[0] {
        ListOrder(a[1..], b[1..]);
        assert a == [a[0]] + a[1..] && b == [b[0]] + b[1..];
      }
    }
  }

  lemma {:induction false} ListTransitive(a: seq<Identifier>, b: seq<Identifier>, c: seq<Identifier>)
    requires ListLess(a, b) && ListLess(b, c)
    ensures ListLess(a, c)
  {
    if a != [] {
      IdentifierOrder(a[0], b[0], c[0]);
      if a[0] == b[0] == c[0] {
        ListTransitive(a[1..], b[1..], c[1..]);
      }
    }
  }

  /** Precedence is a strict total order on versions without build metadata. */
  lemma VersionOrder(a: Version, b: Version, c: Version)
    ensures VersionLess(a, b) ==> !VersionLess(b, a)
    ensures VersionLess(a, b) && VersionLess(b, c) ==> VersionLess(a, c)
    ensures VersionLess(a, b) || VersionLess(b, a) || a == b
  {
    ListOrder(a.pre, b.pre);
    if ListLess(a.pre, b.pre) && ListLess(b.pre, c.pre) {
      ListTransitive(a.pre, b.pre, c.pre);
    }
  }

  // ---- precedence in the standard's own words ----

  /** Section 11.4: numbers by value, words in ASCII order, and numbers below words. */
  ghost predicate IdentifierRanksBelow(a: Identifier, b: Identifier) {
    || (a.Number? && b.Number? && a.n < b.n)
    || (a.Number? && b.Text?)
    || (a.Text? && b.Text? && (ProperPrefix(a.s, b.s) || exists k :: DifferAt(a.s, b.s, k) && a.s[k] < b.s[k]))
  }

  /** Section 11.3 and 11.4: a prerelease is below its release; else the first difference decides, or the length. */
  ghost predicate PrereleaseRanksBelow(a: seq<Identifier>, b: seq<Identifier>) {
    a != []
    && (b == [] || ProperPrefix(a, b) || exists k :: DifferAt(a, b, k) && IdentifierRanksBelow(a[k], b[k]))
  }

  /** Section 11.2: the first difference of major, minor and patch decides, and only then the prerelease. */
  ghost predicate RanksBelow(a: Version, b: Version) {
    var x, y := [a.major, a.minor, a.patch], [b.major, b.minor, b.patch];
    (exists k :: DifferAt(x, y, k) && x[k] < y[k]) || (x == y && PrereleaseRanksBelow(a.pre, b.pre))
  }

  lemma IdentifierLessMeans(a: Identifier, b: Identifier)
    ensures IdentifierLess(a, b) <==> IdentifierRanksBelow(a, b)
  {
    if a.Text? && b.Text? {
      LessMeans(a.s, b.s);
    }
  }

  lemma {:induction false} ListLessMeans(a: seq<Identifier>, b: seq<Identifier>)
    ensures ListLess(a, b) <==>
              ProperPrefix(a, b) || exists k :: DifferAt(a, b, k) && IdentifierRanksBelow(a[k], b[k])
  {
    hide IdentifierLess, IdentifierRanksBelow, ProperPrefix;
    if a == [] || b == [] {
      NoDifference(a, b);
    } else {
      IdentifierLessMeans(a[0], b[0]);
      FirstDifference(a, b);
      if a[0] == b[0] {
        IdentifierOrder(a[0], b[0], a[0]);
        ListLessMeans(a[1..], b[1..]);
        if k :| DifferAt(a[1..], b[1..], k) && IdentifierRanksBelow(a[1..][k], b[1..][k]) {
          assert DifferAt(a, b, k + 1);
        }
      }
    }
  }

  lemma VersionLessMeans(a: Version, b: Version)
    ensures VersionLess(a, b) <==> RanksBelow(a, b)
  {
    hide PrereleaseRanksBelow, PrereleaseLess;
    var x, y := [a.major, a.minor, a.patch], [b.major, b.minor, b.patch];
    PrereleaseLessMeans(a.pre, b.pre);
    assert x[..0] == y[..0] && x[..1] == [a.major] && y[..1] == [b.major];
    assert x[..2] == [a.major, a.minor] && y[..2] == [b.major, b.minor];
    assert a.major != b.major ==> DifferAt(x, y, 0);
    assert a.major == b.major && a.minor != b.minor ==> DifferAt(x, y, 1);
    assert a.major == b.major && a.minor == b.minor && a.patch != b.patch ==> DifferAt(x, y, 2);
    assert forall k :: DifferAt(x, y, k) ==> k == 0 || k == 1 || k == 2;
  }

  lemma PrereleaseLessMeans(a: seq<Identifier>, b: seq<Identifier>)
    ensures PrereleaseLess(a, b) <==> PrereleaseRanksBelow(a, b)
  {
    hide ListLess, IdentifierRanksBelow, DifferAt;
    ListLessMeans(a, b);
  }

  // ---- the layered preference over version labels ----

  /** How a label is read as a version, if it can be. */
  type Reader = string -> Option<Version>

  /** strings.EqualFold(s, "latest"); the long s folds to s. */
  predicate IsLatest(s: string) {
    |s| == 6 && s[0] in {'l', 'L'} && s[1] in {'a', 'A'} && s[2] in {'t', 'T'} && s[3] in {'e', 'E'}
    && s[4] in {'s', 'S', '\U{17F}'} && s[5] in {'t', 'T'}
  }

  predicate Prefer(read: Reader, candidate: string, current: string) {
    var (x, y) := (TrimSpace(candidate), TrimSpace(current));
    if x == "" then false
    else if y == "" then true
    else
      var (left, right) := (read(x), read(y));
      if left.Some? && right.Some? then VersionLess(right.value, left.value)
      else if left.Some? then true
      else if right.Some? then false
      else if IsLatest(x) && !IsLatest(y) then true
      else if IsLatest(y) && !IsLatest(x) then false
      else Less(y, x)
  }

  /** Empty, other label, `latest`, version. */
  function Layer(read: Reader, s: string): nat {
    if s == "" then 0 else if read(s).Some? then 3 else if IsLatest(s) then 2 else 1
  }

  predicate SameLayerPrefer(read: Reader, x: string, y: string)
    requires Layer(read, x) == Layer(read, y)
  {
    if x == "" then false
    else if read(x).Some? then VersionLess(read(y).value, read(x).value)
    else Less(y, x)
  }

  lemma PreferByLayer(read: Reader, candidate: string, current: string)
    ensures var (x, y) := (TrimSpace(candidate), TrimSpace(current));
            Prefer(read, candidate, current) <==>
              Layer(read, x) > Layer(read, y) || (Layer(read, x) == Layer(read, y) && SameLayerPrefer(read, x, y))
  {
  }

  lemma SameLayerOrder(read: Reader, x: string, y: string, z: string)
    requires Layer(read, x) == Layer(read, y) == Layer(read, z)
    ensures SameLayerPrefer(read, x, y) ==> !SameLayerPrefer(read, y, x)
    ensures SameLayerPrefer(read, x, z) ==> SameLayerPrefer(read, x, y) || SameLayerPrefer(read, y, z)
  {
    if x != "" {
      if read(x).Some? {
        VersionOrder(read(y).value, read(x).value, read(x).value);
        VersionOrder(read(z).value, read(y).value, read(x).value);
        VersionOrder(read(x).value, read(y).value, read(z).value);
        VersionOrder(read(y).value, read(z).value, read(x).value);
        VersionOrder(read(z).value, read(x).value, read(y).value);
      } else {
        LessOrder(x, y);
        LessOrder(y, z);
        LessOrder(x, z);
        if Less(x, y) && Less(y, z) { LessTransitive(x, y, z); }
        if Less(z, x) && Less(x, y) { LessTransitive(z, x, y); }
        if Less(y, z) && Less(z, x) { LessTransitive(y, z, x); }
      }
    }
  }

  lemma LessOrder(a: string, b: string)
    ensures Less(a, b) ==> !Less(b, a)
    ensures Less(b, a) ==> !Less(a, b)
    ensures Less(a, b) || Less(b, a) || a == b
  {
    LessTotal(a, b);
    if Less(a, b) { LessAsymmetric(a, b); }
    if Less(b, a) { LessAsymmetric(b, a); }
  }

  /** preferCatalogVersion is a strict weak order: asymmetric, and whatever lies between is comparable to one side. */
  lemma PreferIsStrictWeakOrder(read: Reader, a: string, b: string, c: string)
    ensures Prefer(read, a, b) ==> !Prefer(read, b, a)
    ensures Prefer(read, a, c) ==> Prefer(read, a, b) || Prefer(read, b, c)
  {
    PreferByLayer(read, a, b);
    PreferByLayer(read, b, a);
    PreferByLayer(read, a, c);
    PreferByLayer(read, b, c);
    var (x, y, z) := (TrimSpace(a), TrimSpace(b), TrimSpace(c));
    if Layer(read, x) == Layer(read, y) {
      SameLayerOrder(read, x, y, if Layer(read, z) == Layer(read, x) then z else x);
    }
  }

  // ---- rows ----

  datatype Origin = Local | Remote

  datatype Row = Row(name: string, version: string, description: string, reference: string, origin: Origin,
                     digest: string)

  datatype Status = Outdated | Installed | Catalog

  datatype Item = Item(name: string, version: string, latestVersion: string, description: string, reference: string,
                       origin: Origin, status: Status, digest: string)

  /** preferRawInventoryItem: the better version, then the smaller reference. */
  predicate Better(read: Reader, candidate: Row, current: Row) {
    if Prefer(read, candidate.version, current.version) then true
    else if Prefer(read, current.version, candidate.version) then false
    else Less(candidate.reference, current.reference)
  }

  /** Neither row is better: the same precedence and the same reference. */
  predicate Tied(read: Reader, a: Row, b: Row) {
    !Better(read, a, b) && !Better(read, b, a)
  }

  lemma BetterIsStrictWeakOrder(read: Reader, a: Row, b: Row, c: Row)
    ensures Better(read, a, b) ==> !Better(read, b, a)
    ensures Better(read, a, c) ==> Better(read, a, b) || Better(read, b, c)
    ensures Tied(read, a, b) ==>
              && a.reference == b.reference
              && !Prefer(read, a.version, b.version) && !Prefer(read, b.version, a.version)
  {
    PreferIsStrictWeakOrder(read, a.version, b.version, c.version);
    PreferIsStrictWeakOrder(read, b.version, a.version, c.version);
    PreferIsStrictWeakOrder(read, a.version, c.version, b.version);
    PreferIsStrictWeakOrder(read, c.version, b.version, a.version);
    PreferIsStrictWeakOrder(read, b.version, c.version, a.version);
    PreferIsStrictWeakOrder(read, c.version, a.version, b.version);
    LessOrder(a.reference, b.reference);
    LessOrder(b.reference, c.reference);
    LessOrder(a.reference, c.reference);
    if Less(c.reference, b.reference) && Less(b.reference, a.reference) {
      LessTransitive(c.reference, b.reference, a.reference);
    }
  }

  /** The name and reference folded to one key per package. */
  function NameKey(lower: string -> string, row: Row): string {
    var name := lower(TrimSpace(row.name));
    if name != "" then name else lower(TrimSpace(row.reference))
  }

  datatype Tools = Tools(read: Reader, lower: string -> string)

  /** The row kept for one key and origin among the first rows: replaced only by a better one. */
  function Best(tools: Tools, rows: seq<Row>, key: string, origin: Origin): Option<Row> {
    if rows == [] then None
    else
      var (before, row) := (Best(tools, rows[..|rows| - 1], key, origin), rows[|rows| - 1]);
      if NameKey(tools.lower, row) != key || row.origin != origin then before
      else if before.None? || Better(tools.read, row, before.value) then Some(row) else before
  }

  predicate Competes(tools: Tools, row: Row, key: string, origin: Origin) {
    NameKey(tools.lower, row) == key && row.origin == origin
  }

  lemma {:induction false} BestIfAny(tools: Tools, rows: seq<Row>, key: string, origin: Origin, k: nat)
    requires k < |rows| && Competes(tools, rows[k], key, origin)
    ensures Best(tools, rows, key, origin).Some?
  {
    if k < |rows| - 1 {
      BestIfAny(tools, rows[..|rows| - 1], key, origin, k);
    }
  }

  /** The kept row is one of the competing rows, and none of them is better. */
  lemma {:induction false} BestIsMaximal(tools: Tools, rows: seq<Row>, key: string, origin: Origin)
    ensures Best(tools, rows, key, origin).Some? ==>
              var best := Best(tools, rows, key, origin).value;
              && best in rows && Competes(tools, best, key, origin)
              && forall r :: r in rows && Competes(tools, r, key, origin) ==> !Better(tools.read, r, best)
  {
    if rows != [] {
      var (init, row) := (rows[..|rows| - 1], rows[|rows| - 1]);
      assert rows == init + [row];
      BestIsMaximal(tools, init, key, origin);
      var (before, best) := (Best(tools, init, key, origin), Best(tools, rows, key, origin));
      if best.Some? {
        hide NameKey, Better;
        if before.None? {
          forall r | r in init ensures !Competes(tools, r, key, origin) {
            var k :| 0 <= k < |init| && init[k] == r;
            if Competes(tools, r, key, origin) { BestIfAny(tools, init, key, origin, k); }
          }
        }
        forall r | r in rows && Competes(tools, r, key, origin) ensures !Better(tools.read, r, best.value) {
          if before.Some? {
            BetterIsStrictWeakOrder(tools.read, r, best.value, before.value);
            BetterIsStrictWeakOrder(tools.read, r, before.value, best.value);
            BetterIsStrictWeakOrder(tools.read, best.value, before.value, r);
          }
          BetterIsStrictWeakOrder(tools.read, r, best.value, r);
        }
      }
    }
  }

  lemma BestIfMember(tools: Tools, rows: seq<Row>, key: string, origin: Origin, r: Row)
    requires r in rows && Competes(tools, r, key, origin)
    ensures Best(tools, rows, key, origin).Some?
  {
    var k :| 0 <= k < |rows| && rows[k] == r;
    BestIfAny(tools, rows, key, origin, k);
  }

  lemma SameMembers(a: seq<Row>, b: seq<Row>)
    requires multiset(a) == multiset(b)
    ensures forall r :: r in a <==> r in b
  {
    forall r ensures r in a <==> r in b {
      assert r in multiset(a) <==> r in multiset(b);
    }
  }

  /** The rows kept do not depend on the order of the input, up to equal precedence and equal reference. */
  lemma {:induction false} BestIgnoresOrder(tools: Tools, a: seq<Row>, b: seq<Row>, key: string, origin: Origin)
    requires multiset(a) == multiset(b)
    ensures var (x, y) := (Best(tools, a, key, origin), Best(tools, b, key, origin));
            if x.Some? then y.Some? && Tied(tools.read, x.value, y.value) else y.None?
  {
    hide NameKey, Best, Better;
    SameMembers(a, b);
    BestIsMaximal(tools, a, key, origin);
    BestIsMaximal(tools, b, key, origin);
    if Best(tools, a, key, origin).Some? {
      BestIfMember(tools, b, key, origin, Best(tools, a, key, origin).value);
    } else if Best(tools, b, key, origin).Some? {
      BestIfMember(tools, a, key, origin, Best(tools, b, key, origin).value);
    }
  }

  // ---- one item per package ----

  function FirstNonEmpty(a: string, b: string): string {
    if TrimSpace(a) != "" then a else if TrimSpace(b) != "" then b else ""
  }

  function StatusOf(read: Reader, local: Option<Row>, remote: Option<Row>): Status {
    if local.None? then Catalog
    else if remote.Some? && Prefer(read, remote.value.version, local.value.version) then Outdated
    else Installed
  }

  function ComposeStatus(read: Reader, local: Option<Row>, remote: Option<Row>): Item
    requires local.Some? || remote.Some?
  {
    var status := StatusOf(read, local, remote);
    if local.Some? && remote.Some? then
      var (l, r) := (local.value, remote.value);
      Item(FirstNonEmpty(l.name, r.name), l.version, if status.Outdated? then r.version else "",
           FirstNonEmpty(l.description, r.description), FirstNonEmpty(r.reference, l.reference), Local, status,
               l.digest)
    else if local.Some? then
      var l := local.value;
      Item(l.name, l.version, "", l.description, l.reference, Local, status, l.digest)
    else
      var r := remote.value;
      Item(r.name, r.version, "", r.description, r.reference, Remote, status, "")
  }

  /** The package keys in order of first appearance. */
  function Keys(tools: Tools, rows: seq<Row>): seq<string> {
    if rows == [] then []
    else
      var (before, key) := (Keys(tools, rows[..|rows| - 1]), NameKey(tools.lower, rows[|rows| - 1]));
      if key in before then before else before + [key]
  }

  lemma {:induction false} KeysAreNames(tools: Tools, rows: seq<Row>)
    ensures forall key :: key in Keys(tools, rows) <==> exists r :: r in rows && NameKey(tools.lower, r) == key
    ensures forall i, j :: 0 <= i < j < |Keys(tools, rows)| ==> Keys(tools, rows)[i] != Keys(tools, rows)[j]
  {
    if rows != [] {
      KeysAreNames(tools, rows[..|rows| - 1]);
      assert rows == rows[..|rows| - 1] + [rows[|rows| - 1]];
    }
  }

  lemma KeyHasRow(tools: Tools, rows: seq<Row>, key: string)
    requires key in Keys(tools, rows)
    ensures Best(tools, rows, key, Local).Some? || Best(tools, rows, key, Remote).Some?
  {
    KeysAreNames(tools, rows);
    var r :| r in rows && NameKey(tools.lower, r) == key;
    BestIfMember(tools, rows, key, r.origin, r);
  }

  datatype Pair = Pair(local: Option<Row>, remote: Option<Row>)

  method CollectPairs(tools: Tools, rows: seq<Row>) returns (best: map<string, Pair>, order: seq<string>)
    ensures order == Keys(tools, rows)
    ensures forall key :: key in best <==> key in order
    ensures forall key :: key in best ==>
              best[key] == Pair(Best(tools, rows, key, Local), Best(tools, rows, key, Remote))
  {
    best, order := map[], [];
    for i := 0 to |rows|
      invariant order == Keys(tools, rows[..i])
      invariant forall key :: key in best <==> key in order
      invariant forall key :: key in best ==>
                  best[key] == Pair(Best(tools, rows[..i], key, Local), Best(tools, rows[..i], key, Remote))
    {
      var (row, key) := (rows[i], NameKey(tools.lower, rows[i]));
      assert rows[..i + 1][..i] == rows[..i];
      if key !in best {
        UnknownHasNoRow(tools, rows[..i], key);
        best := best[key := Pair(None, None)];
        order := order + [key];
      }
      best := best[key := Placed(tools.read, best[key], row)];
    }
    assert rows[..|rows|] == rows;
  }

  lemma UnknownHasNoRow(tools: Tools, rows: seq<Row>, key: string)
    requires key !in Keys(tools, rows)
    ensures Best(tools, rows, key, Local).None? && Best(tools, rows, key, Remote).None?
  {
    KeysAreNames(tools, rows);
    BestIsMaximal(tools, rows, key, Local);
    BestIsMaximal(tools, rows, key, Remote);
  }

  function Placed(read: Reader, p: Pair, row: Row): Pair {
    match row.origin
    case Remote => if p.remote.None? || Better(read, row, p.remote.value) then p.(remote := Some(row)) else p
    case Local => if p.local.None? || Better(read, row, p.local.value) then p.(local := Some(row)) else p
  }

  /** The item for a package with these best rows. */
  predicate ItemFor(tools: Tools, rows: seq<Row>, key: string, item: Item) {
    var (local, remote) := (Best(tools, rows, key, Local), Best(tools, rows, key, Remote));
    (local.Some? || remote.Some?) && item == ComposeStatus(tools.read, local, remote)
  }

  method MergeInventoryByName(tools: Tools, rows: seq<Row>) returns (items: seq<Item>)
    ensures |items| == |Keys(tools, rows)|
    ensures forall k :: 0 <= k < |items| ==> ItemFor(tools, rows, Keys(tools, rows)[k], items[k])
  {
    hide Best, ComposeStatus, Keys;
    var best, order := CollectPairs(tools, rows);
    items := [];
    for k := 0 to |order|
      invariant |items| == k
      invariant forall m :: 0 <= m < k ==> ItemFor(tools, rows, order[m], items[m])
    {
      KeyHasRow(tools, rows, order[k]);
      assert order[k] in best;
      items := items + [ComposeStatus(tools.read, best[order[k]].local, best[order[k]].remote)];
    }
  }

  /** A catalog row of the package whose version is preferred to every installed one. */
  ghost predicate Upgrade(tools: Tools, rows: seq<Row>, key: string, r: Row) {
    && r in rows && Competes(tools, r, key, Remote)
    && forall l :: l in rows && Competes(tools, l, key, Local) ==> Prefer(tools.read, r.version, l.version)
  }

  /** An installed package is outdated exactly when the catalog has a version preferred to everything installed. */
  lemma OutdatedIff(tools: Tools, rows: seq<Row>, key: string)
    requires Best(tools, rows, key, Local).Some?
    ensures StatusOf(tools.read, Best(tools, rows, key, Local), Best(tools, rows, key, Remote)).Outdated?
            <==> exists r :: Upgrade(tools, rows, key, r)
  {
    BestIsMaximal(tools, rows, key, Local);
    BestIsMaximal(tools, rows, key, Remote);
    hide Best, NameKey, Prefer;
    var (local, remote) := (Best(tools, rows, key, Local).value, Best(tools, rows, key, Remote));
    if r :| Upgrade(tools, rows, key, r) {
      BestIfMember(tools, rows, key, Remote, r);
      PreferIsStrictWeakOrder(tools.read, r.version, remote.value.version, local.version);
    }
    if remote.Some? && Prefer(tools.read, remote.value.version, local.version) {
      forall l | l in rows && Competes(tools, l, key, Local)
        ensures Prefer(tools.read, remote.value.version, l.version)
      {
        PreferIsStrictWeakOrder(tools.read, remote.value.version, l.version, local.version);
      }
      assert Upgrade(tools, rows, key, remote.value);
    }
  }

  /** The packages listed, and the status of each, do not depend on the order in which rows arrive. */
  lemma {:induction false} StatusIgnoresOrder(tools: Tools, a: seq<Row>, b: seq<Row>, key: string)
    requires multiset(a) == multiset(b)
    ensures key in Keys(tools, a) <==> key in Keys(tools, b)
    ensures StatusOf(tools.read, Best(tools, a, key, Local), Best(tools, a, key, Remote))
         == StatusOf(tools.read, Best(tools, b, key, Local), Best(tools, b, key, Remote))
  {
    KeysAreNames(tools, a);
    KeysAreNames(tools, b);
    SameMembers(a, b);
    hide Keys, Best, NameKey, Prefer, Better;
    BestIgnoresOrder(tools, a, b, key, Local);
    BestIgnoresOrder(tools, a, b, key, Remote);
    var (l, m) := (Best(tools, a, key, Local), Best(tools, b, key, Local));
    var (r, s) := (Best(tools, a, key, Remote), Best(tools, b, key, Remote));
    if l.Some? && r.Some? {
      TiedVersionsCompareAlike(tools.read, l.value, m.value, r.value, s.value);
    }
  }

  lemma TiedVersionsCompareAlike(read: Reader, l: Row, m: Row, r: Row, s: Row)
    requires Tied(read, l, m) && Tied(read, r, s)
    ensures Prefer(read, r.version, l.version) <==> Prefer(read, s.version, m.version)
  {
    BetterIsStrictWeakOrder(read, l, m, l);
    BetterIsStrictWeakOrder(read, r, s, r);
    PreferIsStrictWeakOrder(read, r.version, s.version, l.version);
    PreferIsStrictWeakOrder(read, s.version, m.version, l.version);
    PreferIsStrictWeakOrder(read, s.version, r.version, m.version);
    PreferIsStrictWeakOrder(read, r.version, l.version, m.version);
  }

  // ---- the merged inventory in plain terms ----

  /** Simple case folding, as far as it reaches the letters of `latest`. */
  function Fold(c: char): char {
    if 'A' <= c <= 'Z' then (c as int + 32) as char else if c == '\U{17F}' then 's' else c
  }

  function FoldAll(s: string): (t: string)
    ensures |t| == |s| && forall i :: 0 <= i < |s| ==> t[i] == Fold(s[i])
  {
    seq(|s|, i requires 0 <= i < |s| => Fold(s[i]))
  }

  lemma LatestMeans(s: string)
    ensures IsLatest(s) <==> FoldAll(s) == "latest"
  {
    var t := FoldAll(s);
    assert t == "latest" <==>
           |t| == 6 && t[0] == 'l' && t[1] == 'a' && t[2] == 't' && t[3] == 'e' && t[4] == 's' && t[5] == 't';
  }

  /** Which of two labels is taken: versions by precedence before `latest` before any other label before none. */
  lemma PreferMeans(read: Reader, candidate: string, current: string)
    ensures var (x, y) := (TrimSpace(candidate), TrimSpace(current));
            && (x == "" ==> !Prefer(read, candidate, current))
            && (x != "" && y == "" ==> Prefer(read, candidate, current))
            && (x != "" && y != "" ==>
                  match (read(x), read(y))
                  case (Some(a), Some(b)) => Prefer(read, candidate, current) <==> RanksBelow(b, a)
                  case (Some(_), None) => Prefer(read, candidate, current)
                  case (None, Some(_)) => !Prefer(read, candidate, current)
                  case (None, None) =>
                    Prefer(read, candidate, current) <==>
                      if (FoldAll(x) == "latest") != (FoldAll(y) == "latest") then FoldAll(x) == "latest"
                      else Less(y, x))
  {
    hide VersionLess, RanksBelow, IsLatest, FoldAll;
    var (x, y) := (TrimSpace(candidate), TrimSpace(current));
    LatestMeans(x);
    LatestMeans(y);
    if read(x).Some? && read(y).Some? {
      VersionLessMeans(read(y).value, read(x).value);
    }
  }

  /** The version a label spells; a blank label spells none. */
  function Spelled(read: Reader, text: string): Option<Version> {
    if TrimSpace(text) == "" then None else read(TrimSpace(text))
  }

  /** Against a label that spells a version, only a label of a higher version is preferred. */
  lemma PreferToVersion(read: Reader, text: string, current: string)
    requires Spelled(read, current).Some?
    ensures Prefer(read, text, current)
       <==> Spelled(read, text).Some? && RanksBelow(Spelled(read, current).value, Spelled(read, text).value)
  {
    hide RanksBelow, Prefer;
    PreferMeans(read, text, current);
  }

  /** Rows of one package and origin: their names, or without a name their references, fold alike. */
  predicate SamePackage(tools: Tools, row: Row, key: string, origin: Origin) {
    && row.origin == origin
    && ((tools.lower(TrimSpace(row.name)) == key && key != "")
        || (tools.lower(TrimSpace(row.name)) == "" && tools.lower(TrimSpace(row.reference)) == key))
  }

  lemma CompetesMeans(tools: Tools, row: Row, key: string, origin: Origin)
    ensures Competes(tools, row, key, origin) <==> SamePackage(tools, row, key, origin)
  {
  }

  /**
   * The installed row an item shows: present exactly when something is installed, and at least as new as every
   * installed row that has a version.
   */
  lemma {:induction false} ItemShowsNewestInstalled(tools: Tools, rows: seq<Row>, key: string, item: Item)
    requires ItemFor(tools, rows, key, item)
    ensures item.origin.Local? <==> exists r :: r in rows && SamePackage(tools, r, key, Local)
    ensures item.origin.Local? ==>
              exists l :: l in rows && SamePackage(tools, l, key, Local)
                          && item.version == l.version && item.digest == l.digest
    ensures forall r :: r in rows && SamePackage(tools, r, key, Local) && Spelled(tools.read, r.version).Some? ==>
              && Spelled(tools.read, item.version).Some?
              && !RanksBelow(Spelled(tools.read, item.version).value, Spelled(tools.read, r.version).value)
  {
    hide Best, NameKey, Prefer, RanksBelow, Spelled, Less, SamePackage;
    BestIsMaximal(tools, rows, key, Local);
    forall r: Row ensures Competes(tools, r, key, Local) <==> SamePackage(tools, r, key, Local) {
      CompetesMeans(tools, r, key, Local);
    }
    forall r | r in rows && SamePackage(tools, r, key, Local) ensures Best(tools, rows, key, Local).Some? {
      BestIfMember(tools, rows, key, Local, r);
    }
    forall r | r in rows && SamePackage(tools, r, key, Local) && Spelled(tools.read, r.version).Some?
      ensures && Spelled(tools.read, item.version).Some?
              && !RanksBelow(Spelled(tools.read, item.version).value, Spelled(tools.read, r.version).value)
    {
      NotBetterIsNotNewer(tools.read, Best(tools, rows, key, Local).value, r);
    }
  }

  /** A row that is not beaten by a row with a version has a version at least as high. */
  lemma NotBetterIsNotNewer(read: Reader, best: Row, r: Row)
    requires !Better(read, r, best) && Spelled(read, r.version).Some?
    ensures Spelled(read, best.version).Some?
    ensures !RanksBelow(Spelled(read, best.version).value, Spelled(read, r.version).value)
  {
    hide RanksBelow, Prefer;
    PreferMeans(read, r.version, best.version);
  }

  /** An installed version is outdated exactly when a catalog row of the package has a higher one. */
  lemma {:induction false} OutdatedByVersion(tools: Tools, rows: seq<Row>, key: string, item: Item)
    requires ItemFor(tools, rows, key, item) && item.origin.Local? && Spelled(tools.read, item.version).Some?
    ensures item.status.Outdated? <==>
              exists r :: && r in rows && SamePackage(tools, r, key, Remote) && Spelled(tools.read, r.version).Some?
                          && RanksBelow(Spelled(tools.read, item.version).value, Spelled(tools.read, r.version).value)
    ensures item.status.Outdated? ==>
              && (exists r :: r in rows && SamePackage(tools, r, key, Remote) && item.latestVersion == r.version)
              && Spelled(tools.read, item.latestVersion).Some?
              && forall r :: r in rows && SamePackage(tools, r, key, Remote) && Spelled(tools.read, r.version).Some? ==>
                   !RanksBelow(Spelled(tools.read, item.latestVersion).value, Spelled(tools.read, r.version).value)
  {
    hide Best, NameKey, Prefer, RanksBelow, Spelled, Less, SamePackage;
    var (local, remote) := (Best(tools, rows, key, Local), Best(tools, rows, key, Remote));
    BestIsMaximal(tools, rows, key, Remote);
    forall r: Row ensures Competes(tools, r, key, Remote) <==> SamePackage(tools, r, key, Remote) {
      CompetesMeans(tools, r, key, Remote);
    }
    if remote.Some? {
      PreferToVersion(tools.read, remote.value.version, local.value.version);
    }
    forall r | r in rows && SamePackage(tools, r, key, Remote) && Spelled(tools.read, r.version).Some?
      ensures && remote.Some? && Spelled(tools.read, remote.value.version).Some?
              && !RanksBelow(Spelled(tools.read, remote.value.version).value, Spelled(tools.read, r.version).value)
      ensures RanksBelow(Spelled(tools.read, item.version).value, Spelled(tools.read, r.version).value) ==>
                RanksBelow(Spelled(tools.read, item.version).value, Spelled(tools.read, remote.value.version).value)
    {
      BestIfMember(tools, rows, key, Remote, r);
      NotBetterIsNotNewer(tools.read, remote.value, r);
      RanksBelowOrder(Spelled(tools.read, item.version).value, Spelled(tools.read, r.version).value,
                      Spelled(tools.read, remote.value.version).value);
    }
  }

  lemma RanksBelowOrder(a: Version, b: Version, c: Version)
    ensures RanksBelow(a, b) && !RanksBelow(c, b) ==> RanksBelow(a, c)
  {
    hide VersionLess, RanksBelow;
    VersionLessMeans(a, b);
    VersionLessMeans(c, b);
    VersionLessMeans(a, c);
    VersionOrder(a, b, c);
    VersionOrder(b, c, a);
  }

  /** Between rows that no version decides, the smaller reference wins. */
  lemma BestHasSmallestReference(tools: Tools, rows: seq<Row>, key: string, origin: Origin, r: Row)
    requires r in rows && SamePackage(tools, r, key, origin)
    ensures Best(tools, rows, key, origin).Some?
    ensures var best := Best(tools, rows, key, origin).value;
            !Prefer(tools.read, best.version, r.version) && r.reference != best.reference ==>
              ProperPrefix(best.reference, r.reference)
              || exists k :: DifferAt(best.reference, r.reference, k) && best.reference[k] < r.reference[k]
  {
    hide Best, NameKey, Prefer, Less, ProperPrefix, DifferAt;
    CompetesMeans(tools, r, key, origin);
    BestIfMember(tools, rows, key, origin, r);
    BestIsMaximal(tools, rows, key, origin);
    var best := Best(tools, rows, key, origin).value;
    LessTotal(r.reference, best.reference);
    LessMeans(best.reference, r.reference);
  }

  /** Packages are listed in the order in which their first rows stand. */
  lemma {:induction false} KeysInOrder(tools: Tools, rows: seq<Row>, i: nat, j: nat) returns (first: nat)
    requires i < j < |Keys(tools, rows)|
    ensures first < |rows| && NameKey(tools.lower, rows[first]) == Keys(tools, rows)[i]
    ensures forall k :: 0 <= k <= first ==> NameKey(tools.lower, rows[k]) != Keys(tools, rows)[j]
  {
    hide NameKey;
    var init := rows[..|rows| - 1];
    if j < |Keys(tools, init)| {
      first := KeysInOrder(tools, init, i, j);
    } else {
      KeysAreNames(tools, init);
      assert Keys(tools, init)[i] in Keys(tools, init) && Keys(tools, rows)[j] !in Keys(tools, init);
      var r :| r in init && NameKey(tools.lower, r) == Keys(tools, init)[i];
      first :| 0 <= first < |init| && init[first] == r;
      forall k | 0 <= k <= first ensures NameKey(tools.lower, rows[k]) != Keys(tools, rows)[j] {
        assert rows[k] == init[k] && init[k] in init;
      }
    }
  }

  /** What an item shows beside its version: texts of the installed row first, but the catalog's reference. */
  lemma {:induction false} ItemTexts(tools: Tools, rows: seq<Row>, key: string, item: Item)
    requires ItemFor(tools, rows, key, item)
    ensures item.origin.Local? ==> !item.status.Catalog? && (item.status.Installed? ==> item.latestVersion == "")
    ensures item.origin.Remote? ==>
              && item.status.Catalog? && item.latestVersion == "" && item.digest == ""
              && exists r :: && r in rows && SamePackage(tools, r, key, Remote)
                             && (item.name, item.version, item.description, item.reference)
                                == (r.name, r.version, r.description, r.reference)
    ensures item.origin.Local? && (exists r :: r in rows && SamePackage(tools, r, key, Remote)) ==>
              exists l, r :: && l in rows && SamePackage(tools, l, key, Local) && item.version == l.version
                             && r in rows && SamePackage(tools, r, key, Remote)
                             && FirstOf(item.name, l.name, r.name)
                             && FirstOf(item.description, l.description, r.description)
                             && FirstOf(item.reference, r.reference, l.reference)
    ensures item.origin.Local? && !(exists r :: r in rows && SamePackage(tools, r, key, Remote)) ==>
              && item.status.Installed? && item.latestVersion == ""
              && exists l :: && l in rows && SamePackage(tools, l, key, Local)
                             && (item.name, item.version, item.description, item.reference)
                                == (l.name, l.version, l.description, l.reference)
  {
    hide Best, NameKey, Prefer, SamePackage;
    BestIsMaximal(tools, rows, key, Local);
    BestIsMaximal(tools, rows, key, Remote);
    forall r: Row, o: Origin ensures Competes(tools, r, key, o) <==> SamePackage(tools, r, key, o) {
      CompetesMeans(tools, r, key, o);
    }
    forall r | r in rows && SamePackage(tools, r, key, Remote) ensures Best(tools, rows, key, Remote).Some? {
      BestIfMember(tools, rows, key, Remote, r);
    }
  }

  /** `text` is the first of two texts that is not blank, and empty when both are. */
  predicate FirstOf(text: string, a: string, b: string) {
    && (TrimSpace(a) != "" ==> text == a)
    && (TrimSpace(a) == "" && TrimSpace(b) != "" ==> text == b)
    && (TrimSpace(a) == "" && TrimSpace(b) == "" ==> text == "")
  }
}
