/** Small shared vocabulary: optional and failing values, Go string helpers, and flattening. */
module Prelude {

  datatype Option<+T> = None | Some(value: T)

  datatype Result<+T, +E> = Ok(value: T) | Err(error: E)

  // ---- Go string helpers ----

  /** The characters strings.TrimSpace and strings.Fields treat as white space. */
  predicate IsSpace(c: char) {
    || '\t' <= c <= '\r'
    || c in {' ', '\U{85}', '\U{A0}', '\U{1680}', '\U{2028}', '\U{2029}', '\U{202F}', '\U{205F}', '\U{3000}'}
    || '\U{2000}' <= c <= '\U{200A}'
  }

  /** These are the characters of the Unicode property White_Space. */
  lemma SpacesAre(c: char)
    ensures IsSpace(c) <==>
              var n := c as int;
              || n in {0x9, 0xA, 0xB, 0xC, 0xD, 0x20, 0x85, 0xA0, 0x1680, 0x2028, 0x2029, 0x202F, 0x205F, 0x3000}
              || n in {0x2000, 0x2001, 0x2002, 0x2003, 0x2004, 0x2005, 0x2006, 0x2007, 0x2008, 0x2009, 0x200A}
  {
  }

  function TrimLeft(s: string): (t: string)
    ensures |t| <= |s|
    ensures t == [] || !IsSpace(t[0])
  {
    if s != [] && IsSpace(s[0]) then TrimLeft(s[1..]) else s
  }

  function TrimRight(s: string): (t: string)
    ensures t <= s
    ensures t == [] || !IsSpace(t[|t| - 1])
  {
    if s != [] && IsSpace(s[|s| - 1]) then TrimRight(s[..|s| - 1]) else s
  }

  function TrimSpace(s: string): (t: string)
    ensures t == [] || (!IsSpace(t[0]) && !IsSpace(t[|t| - 1]))
  {
    TrimRight(TrimLeft(s))
  }

  /** Nothing is left of a string exactly when it is all white space. */
  lemma TrimmedAway(s: string)
    ensures TrimSpace(s) != "" <==> exists x :: x in s && !IsSpace(x)
  {
    TrimLeftKeeps(s);
    TrimRightKeeps(TrimLeft(s));
  }

  lemma {:induction false} TrimLeftKeeps(s: string)
    ensures forall x :: x in s && !IsSpace(x) ==> x in TrimLeft(s)
    ensures forall x :: x in TrimLeft(s) ==> x in s
  {
    if s != [] && IsSpace(s[0]) {
      TrimLeftKeeps(s[1..]);
      assert s == [s[0]] + s[1..];
    }
  }

  lemma {:induction false} TrimRightKeeps(s: string)
    ensures forall x :: x in s && !IsSpace(x) ==> x in TrimRight(s)
    ensures forall x :: x in TrimRight(s) ==> x in s
  {
    if s != [] && IsSpace(s[|s| - 1]) {
      var last := |s| - 1;
      TrimRightKeeps(s[..last]);
      assert s == s[..last] + [s[last]];
    }
  }

  /** Go's `a < b` on strings: lexicographic by code point. */
  predicate Less(a: string, b: string) {
    b != [] && (a == [] || a[0] < b[0] || (a[0] == b[0] && Less(a[1..], b[1..])))
  }

  lemma {:induction false} LessTransitive(a: string, b: string, c: string)
    requires Less(a, b) && Less(b, c)
    ensures Less(a, c)
  {
    if a != [] && a[0] == b[0] == c[0] {
      LessTransitive(a[1..], b[1..], c[1..]);
    }
  }

  lemma {:induction false} LessAsymmetric(a: string, b: string)
    requires Less(a, b)
    ensures !Less(b, a)
  {
    if a != [] && a[0] == b[0] {
      LessAsymmetric(a[1..], b[1..]);
    }
  }

  lemma {:induction false} LessTotal(a: string, b: string)
    ensures Less(a, b) || Less(b, a) || a == b
  {
    if a != [] && b != [] && a[0] == b[0] {
      LessTotal(a[1..], b[1..]);
      assert a == [a[0]] + a[1..] && b == [b[0]] + b[1..];
    }
  }

  ghost predicate ProperPrefix<T>(a: seq<T>, b: seq<T>) {
    |a| < |b| && a == b[..|a|]
  }

  /** The two sequences agree before `k` and differ there. */
  ghost predicate DifferAt<T>(a: seq<T>, b: seq<T>, k: int) {
    0 <= k < |a| && k < |b| && a[..k] == b[..k] && a[k] != b[k]
  }

  lemma NoDifference<T>(a: seq<T>, b: seq<T>)
    requires a == [] || b == []
    ensures ProperPrefix(a, b) <==> b != []
    ensures forall k :: !DifferAt(a, b, k)
  {
  }

  /** Where two non-empty sequences differ first, in terms of their tails. */
  lemma FirstDifference<T>(a: seq<T>, b: seq<T>)
    requires a != [] && b != []
    ensures ProperPrefix(a, b) <==> a[0] == b[0] && ProperPrefix(a[1..], b[1..])
    ensures DifferAt(a, b, 0) <==> a[0] != b[0]
    ensures forall k :: k != 0 ==> (DifferAt(a, b, k) <==> a[0] == b[0] && DifferAt(a[1..], b[1..], k - 1))
  {
    PrefixOfTails(a, b);
    forall k | k != 0 ensures DifferAt(a, b, k) <==> a[0] == b[0] && DifferAt(a[1..], b[1..], k - 1) {
      if 0 < k < |a| && k < |b| {
        SameHeads(a, b, k);
      }
    }
  }

  lemma PrefixOfTails<T>(a: seq<T>, b: seq<T>)
    requires a != [] && b != []
    ensures ProperPrefix(a, b) <==> a[0] == b[0] && ProperPrefix(a[1..], b[1..])
  {
    if |a| < |b| {
      SameHeads(a, b, |a|);
      assert a[..|a|] == a && a[1..][..|a| - 1] == a[1..];
    }
  }

  lemma SameHeads<T>(a: seq<T>, b: seq<T>, k: nat)
    requires 0 < k <= |a| && k <= |b|
    ensures a[..k] == b[..k] <==> a[0] == b[0] && a[1..][..k - 1] == b[1..][..k - 1]
  {
    assert a[..k] == [a[0]] + a[1..][..k - 1] && b[..k] == [b[0]] + b[1..][..k - 1];
    assert a[..k][0] == a[0] && b[..k][0] == b[0];
    assert a[..k][1..] == a[1..][..k - 1] && b[..k][1..] == b[1..][..k - 1];
  }

  /** The order of strings: a proper prefix is smaller, and otherwise the first difference decides. */
  lemma {:induction false} LessMeans(a: string, b: string)
    ensures Less(a, b) <==> ProperPrefix(a, b) || exists k :: DifferAt(a, b, k) && a[k] < b[k]
  {
    hide ProperPrefix;
    if a == [] || b == [] {
      NoDifference(a, b);
    } else {
      FirstDifference(a, b);
      if a[0] == b[0] {
        LessMeans(a[1..], b[1..]);
        if k :| DifferAt(a[1..], b[1..], k) && a[1..][k] < b[1..][k] {
          assert DifferAt(a, b, k + 1);
        }
      }
    }
  }

  // ---- decimal numbers ----

  predicate Digits(s: string) {
    forall k :: 0 <= k < |s| ==> '0' <= s[k] <= '9'
  }

  function Value(s: string): nat
    requires Digits(s)
  {
    if s == [] then 0 else 10 * Value(s[..|s| - 1]) + (s[|s| - 1] as int - '0' as int)
  }

  function Digit(n: nat): char
    requires n < 10
  {
    ('0' as int + n) as char
  }

  /** %d of a natural number. */
  function Decimal(n: nat): (s: string)
    ensures s != []
  {
    if n < 10 then [Digit(n)] else Decimal(n / 10) + [Digit(n % 10)]
  }

  lemma {:induction false} DecimalHasValue(n: nat)
    ensures Digits(Decimal(n)) && Value(Decimal(n)) == n
  {
    if n >= 10 {
      DecimalHasValue(n / 10);
      assert Decimal(n)[..|Decimal(n)| - 1] == Decimal(n / 10);
    } else {
      assert Decimal(n)[..0] == [];
    }
  }

  // ---- flattening ----

  function Flatten<T>(pieces: seq<seq<T>>): seq<T> {
    if pieces == [] then [] else pieces[0] + Flatten(pieces[1..])
  }

  lemma {:induction false} FlattenConcat<T>(a: seq<seq<T>>, b: seq<seq<T>>)
    ensures Flatten(a + b) == Flatten(a) + Flatten(b)
  {
    if a == [] {
      assert a + b == b;
    } else {
      FlattenConcat(a[1..], b);
      assert (a + b)[1..] == a[1..] + b;
      assert Flatten(a + b) == a[0] + (Flatten(a[1..]) + Flatten(b));
    }
  }

  lemma FlattenSnoc<T>(a: seq<seq<T>>, last: seq<T>)
    ensures Flatten(a + [last]) == Flatten(a) + last
  {
    FlattenConcat(a, [last]);
    assert Flatten([last]) == last + Flatten<T>([]);
  }

  lemma {:induction false} FlattenAt<T>(a: seq<seq<T>>, k: nat)
    requires k < |a|
    ensures Flatten(a) == Flatten(a[..k]) + a[k] + Flatten(a[k + 1..])
  {
    if k > 0 {
      FlattenAt(a[1..], k - 1);
      assert a[1..][..k - 1] == a[..k][1..] && a[1..][k..] == a[k + 1..];
      var (x, y, z) := (Flatten(a[..k][1..]), a[k], Flatten(a[k + 1..]));
      assert a[0] + (x + y + z) == a[0] + x + y + z;
    }
  }

  /** Appending to one piece adds exactly that element to the whole. */
  lemma FlattenAppendAt<T>(a: seq<seq<T>>, k: nat, x: T)
    requires k < |a|
    ensures multiset(Flatten(a[k := a[k] + [x]])) == multiset(Flatten(a)) + multiset{x}
  {
    var b := a[k := a[k] + [x]];
    FlattenAt(a, k);
    FlattenAt(b, k);
    assert b[..k] == a[..k] && b[k + 1..] == a[k + 1..];
  }

  lemma AppendAssociates<T>(a: seq<T>, b: seq<T>, c: seq<T>)
    ensures a + (b + c) == (a + b) + c
  {
  }

  lemma PrefixSnoc<T>(before: seq<T>, s: seq<T>, j: nat)
    requires j < |s|
    ensures before + s[..j] + [s[j]] == before + s[..j + 1]
  {
  }

  lemma MultisetTail<T>(s: seq<T>)
    requires s != []
    ensures multiset(s[1..]) == multiset(s) - multiset{s[0]}
  {
    assert s == [s[0]] + s[1..];
  }

  lemma CountSnoc<T>(s: seq<T>, last: T, x: T)
    ensures multiset(s + [last])[x] == multiset(s)[x] + if last == x then 1 else 0
  {
  }

  /** Two ways to cut one sequence: the first piece ends within `taken`, or it reaches past it and over `x`. */
  lemma CompareCuts<T>(first: seq<T>, tail: seq<T>, taken: seq<T>, x: T, rest: seq<T>)
    requires first + tail == taken + [x] + rest
    ensures |first| <= |taken| ==> tail == taken[|first|..] + [x] + rest
    ensures |first| > |taken| ==> first == taken + [x] + first[|taken| + 1..]
  {
    var all := taken + [x] + rest;
    assert all[..|taken|] == taken && all[|taken|] == x;
    assert first == all[..|first|] && tail == all[|first|..];
  }

  // ---- splitting and joining, as bytes.Split, strings.Split and strings.Join ----

  function SplitOn<T(==)>(s: seq<T>, sep: T): (pieces: seq<seq<T>>)
    ensures |pieces| >= 1
  {
    if s == [] then [[]]
    else
      var rest := SplitOn(s[1..], sep);
      if s[0] == sep then [[]] + rest else [[s[0]] + rest[0]] + rest[1..]
  }

  function JoinWith<T>(pieces: seq<seq<T>>, sep: T): seq<T>
    requires |pieces| >= 1
  {
    if |pieces| == 1 then pieces[0] else pieces[0] + [sep] + JoinWith(pieces[1..], sep)
  }

  lemma {:induction false} SplitPiecesClean<T>(s: seq<T>, sep: T)
    ensures forall k :: 0 <= k < |SplitOn(s, sep)| ==> sep !in SplitOn(s, sep)[k]
  {
    if s != [] {
      SplitPiecesClean(s[1..], sep);
    }
  }

  /** A piece without the separator is split off whole. */
  lemma {:induction false} SplitOffPiece<T>(piece: seq<T>, sep: T, rest: seq<T>)
    requires sep !in piece
    ensures SplitOn(piece, sep) == [piece]
    ensures SplitOn(piece + [sep] + rest, sep) == [piece] + SplitOn(rest, sep)
  {
    var s := piece + [sep] + rest;
    if piece == [] {
      assert s[1..] == rest;
    } else {
      SplitOffPiece(piece[1..], sep, rest);
      assert s[1..] == piece[1..] + [sep] + rest;
      assert piece == [piece[0]] + piece[1..];
    }
  }

  lemma {:induction false} JoinUndoesSplit<T>(s: seq<T>, sep: T)
    ensures JoinWith(SplitOn(s, sep), sep) == s
  {
    if s != [] {
      JoinUndoesSplit(s[1..], sep);
      var pieces, rest := SplitOn(s, sep), SplitOn(s[1..], sep);
      if s[0] == sep {
        assert pieces[1..] == rest;
      } else {
        assert pieces[1..] == rest[1..];
        var (c, first, more) := ([s[0]], rest[0], if |rest| > 1 then JoinWith(rest[1..], sep) else []);
        assert c + (first + [sep] + more) == c + first + [sep] + more;
      }
    }
  }

  /** Joining keeps every element of every piece, and adds only separators. */
  lemma {:induction false} JoinedAll<T>(pieces: seq<seq<T>>, sep: T, k: nat)
    requires k < |pieces|
    ensures forall x :: x in pieces[k] ==> x in JoinWith(pieces, sep)
  {
    if k > 0 {
      JoinedAll(pieces[1..], sep, k - 1);
    }
  }

  lemma {:induction false} JoinedOnly<T>(pieces: seq<seq<T>>, sep: T, x: T)
    requires |pieces| >= 1 && x in JoinWith(pieces, sep)
    ensures x == sep || exists k :: 0 <= k < |pieces| && x in pieces[k]
  {
    if |pieces| > 1 && x != sep && x !in pieces[0] {
      JoinedOnly(pieces[1..], sep, x);
      var k :| 0 <= k < |pieces[1..]| && x in pieces[1..][k];
      assert x in pieces[k + 1];
    }
  }

  lemma {:induction false} SplitUndoesJoin<T>(pieces: seq<seq<T>>, sep: T)
    requires |pieces| >= 1
    requires forall k :: 0 <= k < |pieces| ==> sep !in pieces[k]
    ensures SplitOn(JoinWith(pieces, sep), sep) == pieces
  {
    if |pieces| == 1 {
      SplitOffPiece(pieces[0], sep, []);
    } else {
      SplitUndoesJoin(pieces[1..], sep);
      SplitOffPiece(pieces[0], sep, JoinWith(pieces[1..], sep));
    }
  }
}
