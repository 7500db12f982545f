/** The path glob compiler (internal/adversary/match.go): a translation into a regular expression. */
module Glob {
  import opened Prelude

  // ---- the meaning of patterns ----

  datatype Token = Char(c: char) | One | Run | Deep | Dirs

  /** The token a non-empty pattern starts with, and its width: `?`, `*`, `**`, `**` with a slash, or a character. */
  function NextToken(p: string): (res: (Token, nat))
    requires p != []
    ensures 1 <= res.1 <= |p|
  {
    if "**/" <= p then (Dirs, 3)
    else if "**" <= p then (Deep, 2)
    else if p[0] == '*' then (Run, 1)
    else if p[0] == '?' then (One, 1)
    else (Char(p[0]), 1)
  }

  /**
   * The text one token stands for. `linewise` restricts `**` to text without line feeds, which is what
   * the compiled `.*` accepts; the patterns' own meaning is `linewise == false`.
   */
  predicate TokenMatches(t: Token, w: string, linewise: bool) {
    match t
    case Char(c) => w == [c]
    case One => |w| == 1 && w[0] != '/'
    case Run => '/' !in w
    case Deep => !linewise || '\n' !in w
    case Dirs => w == [] || (w[|w| - 1] == '/' && (!linewise || '\n' !in w[..|w| - 1]))
  }

  /** A direct matcher: the path is cut into one piece per token. */
  predicate Matches(p: string, w: string, linewise: bool)
    decreases |p|
  {
    if p == [] then w == []
    else
      var (t, n) := NextToken(p);
      exists k :: 0 <= k <= |w| && TokenMatches(t, w[..k], linewise) && Matches(p[n..], w[k..], linewise)
  }

  // ---- the translation ----

  predicate Special(c: char) {
    c in {'.', '+', '(', ')', '|', '[', ']', '{', '}', '^', '$', '\\'}
  }

  function Emit(t: Token): string {
    match t
    case Char(c) => if Special(c) then ['\\', c] else [c]
    case One => "[^/]"
    case Run => "[^/]*"
    case Deep => ".*"
    case Dirs => "(?:.*/)?"
  }

  /** What the loop has left to emit for the rest of the pattern. */
  function Emitted(p: string): string
    decreases |p|
  {
    if p == [] then "" else Emit(NextToken(p).0) + Emitted(p[NextToken(p).1..])
  }

  lemma NextTokenAt(p: string, i: nat)
    requires i < |p|
    ensures var more, deep := i + 1 < |p| && p[i + 1] == '*', i + 2 < |p| && p[i + 2] == '/';
            NextToken(p[i..]) ==
              if p[i] == '*' then (if more then (if deep then (Dirs, 3) else (Deep, 2)) else (Run, 1))
              else if p[i] == '?' then (One, 1)
              else (Char(p[i]), 1)
  {
    var rest := p[i..];
    assert "**" <= rest <==> |rest| >= 2 && rest[0] == '*' && rest[1] == '*';
    assert "**/" <= rest <==> |rest| >= 3 && rest[0] == '*' && rest[1] == '*' && rest[2] == '/';
  }

  lemma EmittedStep(p: string, i: nat)
    requires i < |p|
    ensures i + NextToken(p[i..]).1 <= |p|
    ensures Emitted(p[i..]) == Emit(NextToken(p[i..]).0) + Emitted(p[i + NextToken(p[i..]).1..])
  {
    assert p[i..][NextToken(p[i..]).1..] == p[i + NextToken(p[i..]).1..];
  }

  lemma EmittedEnds(p: string)
    ensures p[0..] == p && Emitted(p[|p|..]) == ""
  {
  }

  /** The switch of the loop body: the text for the token at `i`, and the index after it. */
  method EmitNext(pattern: string, i: nat) returns (piece: string, next: nat)
    requires i < |pattern|
    ensures piece == Emit(NextToken(pattern[i..]).0) && next == i + NextToken(pattern[i..]).1
  {
    NextTokenAt(pattern, i);
    var ch := pattern[i];
    next := i + 1;
    if ch == '*' {
      if i + 1 < |pattern| && pattern[i + 1] == '*' {
        next := next + 1;
        if i + 2 < |pattern| && pattern[i + 2] == '/' {
          next := next + 1;
          piece := "(?:.*/)?";
        } else {
          piece := ".*";
        }
      } else {
        piece := "[^/]*";
      }
    } else if ch == '?' {
      piece := "[^/]";
    } else if Special(ch) {
      piece := ['\\', ch];
    } else {
      piece := [ch];
    }
  }

  method GlobToRegexp(pattern: string) returns (b: string)
    ensures b == "^" + Emitted(pattern) + "$"
  {
    hide *;
    b := "^";
    var i := 0;
    EmittedEnds(pattern);
    while i < |pattern|
      invariant 0 <= i <= |pattern|
      invariant b + Emitted(pattern[i..]) == "^" + Emitted(pattern)
    {
      EmittedStep(pattern, i);
      var piece, next := EmitNext(pattern, i);
      AppendAssociates(b, piece, Emitted(pattern[next..]));
      b, i := b + piece, next;
    }
    b := b + "$";
  }

  // ---- the regular expressions of the target language that the translation can produce ----

  datatype Re =
    | Lit(c: char)
    | Dot
    | NotSlash
    | Star(r: Re)
    | Maybe(r: Re)
    | Group(items: seq<Re>)

  /** The characters with a meaning of their own in an expression, which a backslash takes away. */
  predicate Meta(c: char) {
    c in "\\.+*?()|[]{}^$"
  }

  /** Parse up to a closing parenthesis, a `$`, or the end; None is a compile error. */
  function ParseItems(s: string): (res: Option<(seq<Re>, string)>)
    ensures res.Some? ==> |res.value.1| <= |s|
    decreases |s|, 1
  {
    if s == [] || s[0] == ')' || s[0] == '$' then Some(([], s))
    else
      match ParseAtom(s)
      case None => None
      case Some((atom, rest)) =>
        var (item, rest') :=
          if rest != [] && rest[0] == '*' then (Star(atom), rest[1..])
          else if rest != [] && rest[0] == '?' then (Maybe(atom), rest[1..])
          else (atom, rest);
        match ParseItems(rest')
        case None => None
        case Some((items, tail)) => Some(([item] + items, tail))
  }

  function ParseAtom(s: string): (res: Option<(Re, string)>)
    requires s != []
    ensures res.Some? ==> |res.value.1| < |s|
    decreases |s|, 0
  {
    if s[0] == '\\' then
      if |s| > 1 && Meta(s[1]) then Some((Lit(s[1]), s[2..])) else None
    else if s[0] == '.' then Some((Dot, s[1..]))
    else if "[^/]" <= s then Some((NotSlash, s[4..]))
    else if "(?:" <= s then
      match ParseItems(s[3..])
      case Some((items, tail)) => if tail != [] && tail[0] == ')' then Some((Group(items), tail[1..])) else None
      case None => None
    else if Meta(s[0]) then None
    else Some((Lit(s[0]), s[1..]))
  }

  /** regexp.Compile on an anchored expression. */
  function Compile(s: string): Option<seq<Re>> {
    if s == [] || s[0] != '^' then None
    else
      match ParseItems(s[1..])
      case Some((items, tail)) => if tail == "$" then Some(items) else None
      case None => None
  }

  predicate MatchOne(r: Re, w: string)
    decreases r, |w|
  {
    match r
    case Lit(c) => w == [c]
    case Dot => |w| == 1 && w[0] != '\n'
    case NotSlash => |w| == 1 && w[0] != '/'
    case Star(x) => w == [] || exists k :: 0 < k <= |w| && MatchOne(x, w[..k]) && MatchOne(r, w[k..])
    case Maybe(x) => w == [] || MatchOne(x, w)
    case Group(items) => MatchAll(items, w)
  }

  /** The items match consecutive pieces that make up all of `w`. */
  predicate MatchAll(items: seq<Re>, w: string)
    decreases items, |w|
  {
    if items == [] then w == []
    else exists k :: 0 <= k <= |w| && MatchOne(items[0], w[..k]) && MatchAll(items[1..], w[k..])
  }

  // ---- the translation compiles, and to what ----

  function Item(t: Token): Re {
    match t
    case Char(c) => Lit(c)
    case One => NotSlash
    case Run => Star(NotSlash)
    case Deep => Star(Dot)
    case Dirs => Maybe(Group([Star(Dot), Lit('/')]))
  }

  function Items(p: string): seq<Re>
    decreases |p|
  {
    if p == [] then [] else [Item(NextToken(p).0)] + Items(p[NextToken(p).1..])
  }

  /** The rest of an expression that a postfix operator cannot capture. */
  predicate Detached(tail: string) {
    tail != [] && tail[0] != '*' && tail[0] != '?'
  }

  lemma DirsParse(tail: string)
    ensures ParseAtom("(?:.*/)?" + tail) == Some((Group([Star(Dot), Lit('/')]), "?" + tail))
  {
    var s := "(?:.*/)?" + tail;
    var t1 := s[3..];
    var t2 := "/)?" + tail;
    var t3 := ")?" + tail;
    assert t1 == ".*/)?" + tail && t1[1..][1..] == t2 && t2[1..] == t3 && t3[1..] == "?" + tail;
    assert ParseItems(t3) == Some(([], t3));
    SlashParse(t2, t3);
    assert ParseAtom(t1) == Some((Dot, t1[1..]));
    assert ParseItems(t1) == Some(([Star(Dot)] + [Lit('/')], t3));
    assert [Star(Dot)] + [Lit('/')] == [Star(Dot), Lit('/')];
  }

  lemma SlashParse(s: string, tail: string)
    requires s == "/" + tail && Detached(tail) && ParseItems(tail) == Some(([], tail))
    ensures ParseItems(s) == Some(([Lit('/')], tail))
  {
    assert s[1..] == tail;
    assert ParseAtom(s) == Some((Lit('/'), tail));
    assert [Lit('/')] + [] == [Lit('/')];
  }

  lemma TokenParses(t: Token, tail: string, items: seq<Re>, end: string)
    requires t.Char? ==> t.c != '*' && t.c != '?'
    requires Detached(tail) && ParseItems(tail) == Some((items, end))
    ensures Detached(Emit(t) + tail) && ParseItems(Emit(t) + tail) == Some(([Item(t)] + items, end))
  {
    var s := Emit(t) + tail;
    match t
    case Char(c) =>
      if Special(c) {
        assert s[2..] == tail && ParseAtom(s) == Some((Lit(c), tail));
      } else {
        assert s[1..] == tail && !("[^/]" <= s) && !("(?:" <= s) && ParseAtom(s) == Some((Lit(c), tail));
      }
    case One =>
      assert s[4..] == tail && ParseAtom(s) == Some((NotSlash, tail));
    case Run =>
      assert s[4..][1..] == tail && ParseAtom(s) == Some((NotSlash, s[4..]));
    case Deep =>
      assert s[1..][1..] == tail && ParseAtom(s) == Some((Dot, s[1..]));
    case Dirs =>
      DirsParse(tail);
      assert ("?" + tail)[1..] == tail;
  }

  lemma {:induction false} CompilesToItems(p: string)
    ensures Detached(Emitted(p) + "$") && ParseItems(Emitted(p) + "$") == Some((Items(p), "$"))
    decreases |p|
  {
    if p == [] {
      assert Emitted(p) + "$" == "$";
    } else {
      var (t, n) := NextToken(p);
      CompilesToItems(p[n..]);
      TokenParses(t, Emitted(p[n..]) + "$", Items(p[n..]), "$");
      assert Emitted(p) + "$" == Emit(t) + (Emitted(p[n..]) + "$");
    }
  }

  // ---- each item matches what its token stands for ----

  lemma {:induction false} StarDotMatches(w: string)
    ensures MatchOne(Star(Dot), w) <==> '\n' !in w
    decreases |w|
  {
    if w != [] {
      forall k | 0 < k <= |w| && MatchOne(Dot, w[..k]) ensures k == 1 && w[..k] == [w[0]] {}
      StarDotMatches(w[1..]);
      assert w == [w[0]] + w[1..] && w[..1] == [w[0]];
      assert MatchOne(Dot, w[..1]) <==> w[0] != '\n';
    }
  }

  lemma {:induction false} StarNotSlashMatches(w: string)
    ensures MatchOne(Star(NotSlash), w) <==> '/' !in w
    decreases |w|
  {
    if w != [] {
      forall k | 0 < k <= |w| && MatchOne(NotSlash, w[..k]) ensures k == 1 && w[..k] == [w[0]] {}
      StarNotSlashMatches(w[1..]);
      assert w == [w[0]] + w[1..] && w[..1] == [w[0]];
      assert MatchOne(NotSlash, w[..1]) <==> w[0] != '/';
    }
  }

  lemma LastSlashMatches(v: string)
    ensures MatchAll([Lit('/')], v) <==> v == "/"
  {
    var items := [Lit('/')];
    assert items[1..] == [];
    if MatchAll(items, v) {
      var k :| 0 <= k <= |v| && MatchOne(items[0], v[..k]) && MatchAll(items[1..], v[k..]);
      assert v == v[..k] + v[k..];
    }
    if v == "/" {
      assert MatchOne(items[0], v[..1]) && MatchAll(items[1..], v[1..]);
    }
  }

  lemma DirsMatches(w: string)
    ensures MatchAll([Star(Dot), Lit('/')], w) <==> w != [] && w[|w| - 1] == '/' && '\n' !in w[..|w| - 1]
  {
    var items := [Star(Dot), Lit('/')];
    assert items[1..] == [Lit('/')];
    if MatchAll(items, w) {
      var k :| 0 <= k <= |w| && MatchOne(items[0], w[..k]) && MatchAll(items[1..], w[k..]);
      LastSlashMatches(w[k..]);
      StarDotMatches(w[..k]);
    }
    if w != [] && w[|w| - 1] == '/' && '\n' !in w[..|w| - 1] {
      var k := |w| - 1;
      LastSlashMatches(w[k..]);
      StarDotMatches(w[..k]);
      assert w[k..] == "/";
      assert MatchOne(items[0], w[..k]) && MatchAll(items[1..], w[k..]);
    }
  }

  lemma ItemMeans(t: Token, w: string)
    ensures MatchOne(Item(t), w) <==> TokenMatches(t, w, true)
  {
    match t
    case Char(_) =>
    case One =>
    case Run => StarNotSlashMatches(w);
    case Deep => StarDotMatches(w);
    case Dirs => DirsMatches(w);
  }

  lemma {:induction false} ItemsMean(p: string, w: string)
    ensures MatchAll(Items(p), w) <==> Matches(p, w, true)
    decreases |p|
  {
    if p != [] {
      var (t, n) := NextToken(p);
      var items := Items(p);
      assert items[0] == Item(t) && items[1..] == Items(p[n..]);
      forall k | 0 <= k <= |w|
        ensures MatchOne(items[0], w[..k]) <==> TokenMatches(t, w[..k], true)
        ensures MatchAll(items[1..], w[k..]) <==> Matches(p[n..], w[k..], true)
      {
        ItemMeans(t, w[..k]);
        ItemsMean(p[n..], w[k..]);
      }
    }
  }

  // ---- matching paths ----

  function PatternOf(pattern: string): string {
    TrimSpace(pattern)
  }

  predicate GlobMatchSpec(pattern: string, name: string) {
    PatternOf(pattern) != "" && name != "" && Matches(PatternOf(pattern), name, true)
  }

  method GlobMatch(pattern: string, name: string) returns (ok: bool)
    ensures ok == GlobMatchSpec(pattern, name)
  {
    var trimmed := TrimSpace(pattern);
    if trimmed == "" || name == "" {
      return false;
    }
    var re := CompileGlob(trimmed);
    ItemsMean(trimmed, name);
    return re.Some? && MatchAll(re.value, name);
  }

  /** The emitted expression always compiles, and it accepts exactly what the pattern means. */
  lemma TranslationPreservesMeaning(p: string, w: string)
    ensures var re := Compile("^" + Emitted(p) + "$");
            re.Some? && (MatchAll(re.value, w) <==> Matches(p, w, true))
  {
    CompilesToItems(p);
    assert ("^" + Emitted(p) + "$")[1..] == Emitted(p) + "$";
    ItemsMean(p, w);
  }

  /** The patterns that survive trimming, in order. */
  function Kept(patterns: seq<string>): (kept: seq<string>)
    ensures forall q :: q in kept ==> exists p :: p in patterns && q == PatternOf(p) && q != ""
    ensures forall p :: p in patterns && PatternOf(p) != "" ==> PatternOf(p) in kept
  {
    if patterns == [] then []
    else
      var last := |patterns| - 1;
      assert patterns == patterns[..last] + [patterns[last]];
      Kept(patterns[..last]) + if PatternOf(patterns[last]) == "" then [] else [PatternOf(patterns[last])]
  }

  method CompileGlob(pattern: string) returns (re: Option<seq<Re>>)
    ensures re == Some(Items(pattern))
  {
    var regex := GlobToRegexp(pattern);
    CompilesToItems(pattern);
    assert regex[1..] == Emitted(pattern) + "$";
    re := Compile(regex);
  }

  /** Compile every non-blank pattern; none is lost, because every emitted expression compiles. */
  method CompilePatterns(patterns: seq<string>) returns (compiled: seq<seq<Re>>)
    ensures |compiled| == |Kept(patterns)|
    ensures forall k :: 0 <= k < |compiled| ==> compiled[k] == Items(Kept(patterns)[k])
  {
    compiled := [];
    for i := 0 to |patterns|
      invariant |compiled| == |Kept(patterns[..i])|
      invariant forall k :: 0 <= k < |compiled| ==> compiled[k] == Items(Kept(patterns[..i])[k])
    {
      var pattern := TrimSpace(patterns[i]);
      assert patterns[..i + 1][..i] == patterns[..i];
      if pattern == "" {
        continue;
      }
      var re := CompileGlob(pattern);
      if re.None? {
        continue;
      }
      compiled := compiled + [re.value];
    }
    assert patterns[..|patterns|] == patterns;
  }

  predicate AnyMatches(kept: seq<string>, name: string) {
    exists q :: q in kept && name != "" && Matches(q, name, true)
  }

  method MatchesAny(compiled: seq<seq<Re>>, ghost kept: seq<string>, name: string) returns (hit: bool)
    requires |compiled| == |kept| && forall k :: 0 <= k < |compiled| ==> compiled[k] == Items(kept[k])
    ensures hit == AnyMatches(kept, name)
  {
    for j := 0 to |compiled|
      invariant forall k :: 0 <= k < j ==> !(name != "" && Matches(kept[k], name, true))
    {
      ItemsMean(kept[j], name);
      if name != "" && MatchAll(compiled[j], name) {
        return true;
      }
    }
    return false;
  }

  predicate ShouldRun(patterns: seq<string>, changedFiles: seq<string>, force: bool) {
    force || patterns == [] || exists f, p :: f in changedFiles && p in patterns && GlobMatchSpec(p, f)
  }

  method ShouldRunForChangedFiles(patterns: seq<string>, changedFiles: seq<string>, force: bool) returns (run: bool)
    ensures run == ShouldRun(patterns, changedFiles, force)
  {
    if force || |patterns| == 0 {
      return true;
    }
    var compiled := CompilePatterns(patterns);
    ghost var kept := Kept(patterns);
    for i := 0 to |changedFiles|
      invariant forall k :: 0 <= k < i ==> !AnyMatches(kept, changedFiles[k])
    {
      var hit := MatchesAny(compiled, kept, changedFiles[i]);
      if hit {
        ghost var q :| q in kept && Matches(q, changedFiles[i], true);
        ghost var p :| p in patterns && q == PatternOf(p) && q != "";
        assert GlobMatchSpec(p, changedFiles[i]);
        return true;
      }
    }
    return false;
  }

  /** A blank pattern matches nothing, and nothing matches an empty name; white space around a pattern is ignored. */
  lemma GlobMatchMeans(pattern: string, name: string)
    ensures GlobMatchSpec(pattern, name) <==>
              name != "" && (exists c :: c in pattern && !IsSpace(c)) && Matches(TrimSpace(pattern), name, true)
    ensures forall patterns, files, force ::
              ShouldRun(patterns, files, force) <==>
                force || |patterns| == 0
                || exists p, f :: p in patterns && f in files && GlobMatchSpec(p, f)
  {
    TrimmedAway(pattern);
  }

  // ---- the rules of patterns ----

  /** `w` begins with some text `before` that is allowed, and the rest matches `p`. */
  ghost predicate Splits(p: string, w: string, linewise: bool, allowed: string -> bool) {
    exists k :: 0 <= k <= |w| && allowed(w[..k]) && Matches(p, w[k..], linewise)
  }

  /**
   * What each part of a pattern stands for: a character for itself, `?` for a character that is not a slash, `*` for
   * text without slashes, `**` for any text, and `**` with a slash for nothing or for directories. Compiled patterns
   * (`linewise`) do not let the last two run over a line feed.
   */
  lemma PatternRules(p: string, w: string, linewise: bool)
    ensures Matches("", w, linewise) <==> w == ""
    ensures forall c :: c !in {'*', '?'} ==>
              (Matches([c] + p, w, linewise) <==> w != "" && w[0] == c && Matches(p, w[1..], linewise))
    ensures Matches("?" + p, w, linewise) <==> w != "" && w[0] != '/' && Matches(p, w[1..], linewise)
    ensures !("*" <= p) ==>
              (Matches("*" + p, w, linewise) <==> Splits(p, w, linewise, before => '/' !in before))
    ensures !("/" <= p) ==>
              (Matches("**" + p, w, linewise) <==> Splits(p, w, linewise, before => linewise ==> '\n' !in before))
    ensures Matches("**/" + p, w, linewise) <==>
              Matches(p, w, linewise)
              || Splits(p, w, linewise, before =>
                   before != "" && before[|before| - 1] == '/'
                   && (linewise ==> '\n' !in before[..|before| - 1]))
  {
    forall c | c !in {'*', '?'}
      ensures Matches([c] + p, w, linewise) <==> w != "" && w[0] == c && Matches(p, w[1..], linewise)
    {
      PlainRule(c, p, w, linewise);
    }
    OneRule(p, w, linewise);
    StarRules(p, w, linewise);
    DirsRule(p, w, linewise);
  }

  lemma PlainRule(c: char, p: string, w: string, linewise: bool)
    requires c !in {'*', '?'}
    ensures Matches([c] + p, w, linewise) <==> w != "" && w[0] == c && Matches(p, w[1..], linewise)
  {
    var q := [c] + p;
    NextTokenAt(q, 0);
    assert q[0..] == q && q[1..] == p;
    hide NextToken;
    if w != "" && w[0] == c && Matches(p, w[1..], linewise) {
      assert w[..1] == [c];
      assert TokenMatches(NextToken(q).0, w[..1], linewise);
    }
  }

  lemma OneRule(p: string, w: string, linewise: bool)
    ensures Matches("?" + p, w, linewise) <==> w != "" && w[0] != '/' && Matches(p, w[1..], linewise)
  {
    var q := "?" + p;
    NextTokenAt(q, 0);
    assert q[0..] == q && q[1..] == p;
    hide NextToken;
    if w != "" && w[0] != '/' && Matches(p, w[1..], linewise) {
      assert TokenMatches(NextToken(q).0, w[..1], linewise);
    }
  }

  lemma StarRules(p: string, w: string, linewise: bool)
    ensures !("*" <= p) ==>
              (Matches("*" + p, w, linewise) <==> Splits(p, w, linewise, before => '/' !in before))
    ensures !("/" <= p) ==>
              (Matches("**" + p, w, linewise) <==> Splits(p, w, linewise, before => linewise ==> '\n' !in before))
  {
    hide NextToken;
    if !("*" <= p) {
      var q := "*" + p;
      NextTokenAt(q, 0);
      assert q[0..] == q && q[1..] == p;
      assert p != "" ==> p[0] != '*';
    }
    if !("/" <= p) {
      var q := "**" + p;
      NextTokenAt(q, 0);
      assert q[0..] == q && q[2..] == p;
      assert p != "" ==> p[0] != '/';
    }
  }

  lemma DirsRule(p: string, w: string, linewise: bool)
    ensures Matches("**/" + p, w, linewise) <==>
              Matches(p, w, linewise)
              || Splits(p, w, linewise, before =>
                   before != "" && before[|before| - 1] == '/'
                   && (linewise ==> '\n' !in before[..|before| - 1]))
  {
    var q := "**/" + p;
    NextTokenAt(q, 0);
    assert q[0..] == q && q[3..] == p;
    hide NextToken;
    assert w[..0] == "" && w[0..] == w;
    assert TokenMatches(Dirs, w[..0], linewise);
  }

  // ---- where `**` falls short of its meaning ----

  /** Without line feeds in the path, the compiled `**` is unrestricted. */
  lemma {:induction false} LinewiseIsEnough(p: string, w: string)
    requires '\n' !in w
    ensures Matches(p, w, true) <==> Matches(p, w, false)
    decreases |p|
  {
    if p != [] {
      var (t, n) := NextToken(p);
      forall k | 0 <= k <= |w|
        ensures TokenMatches(t, w[..k], true) <==> TokenMatches(t, w[..k], false)
        ensures Matches(p[n..], w[k..], true) <==> Matches(p[n..], w[k..], false)
      {
        LinewiseIsEnough(p[n..], w[k..]);
      }
    }
  }

  /** What `**` alone accepts: everything by its meaning, and as compiled everything without a line feed. */
  lemma DeepAlone(w: string)
    ensures Matches("**", w, false) && (Matches("**", w, true) <==> '\n' !in w)
  {
    assert NextToken("**") == (Deep, 2) && "**"[2..] == "";
    assert w[..|w|] == w && w[|w|..] == "";
    assert Matches("", w[|w|..], false) && Matches("", w[|w|..], true);
  }

  /** A path is matched as meant by every compiled pattern exactly when it has no line feed. */
  lemma FaithfulForAllPatternsIffNoLineFeed(w: string)
    ensures (forall p :: Matches(p, w, true) <==> Matches(p, w, false)) <==> '\n' !in w
  {
    hide *;
    if '\n' in w {
      DeepAlone(w);
    } else {
      forall p ensures Matches(p, w, true) <==> Matches(p, w, false) { LinewiseIsEnough(p, w); }
    }
  }

  /** One such pattern and path: the compiled `**` refuses a file name with a line feed in it. */
  lemma DeepMissesLineFeed()
    ensures Matches("**", "a\nb", false)
    ensures var re := Compile("^" + Emitted("**") + "$");
            re.Some? && !MatchAll(re.value, "a\nb")
  {
    DeepAlone("a\nb");
    assert "a\nb"[1] == '\n';
    TranslationPreservesMeaning("**", "a\nb");
  }

  predicate UsesDeep(p: string)
    decreases |p|
  {
    p != [] && (NextToken(p).0.Deep? || NextToken(p).0.Dirs? || UsesDeep(p[NextToken(p).1..]))
  }

  /** How often a slash directly follows a line feed. */
  function Breaks(w: string): nat {
    if |w| < 2 then 0 else (if w[0] == '\n' && w[1] == '/' then 1 else 0) + Breaks(w[1..])
  }

  lemma {:induction false} BreaksConcat(u: string, v: string)
    ensures Breaks(u) + Breaks(v) <= Breaks(u + v) <= Breaks(u) + Breaks(v) + 1
  {
    if u == [] {
      assert u + v == v;
    } else {
      BreaksConcat(u[1..], v);
      assert (u + v)[1..] == u[1..] + v;
    }
  }

  lemma {:induction false} NoBreaks(w: string)
    requires '/' !in w || |w| <= 1 || '\n' !in w[..|w| - 1]
    ensures Breaks(w) == 0
  {
    if |w| >= 2 {
      assert w[0] == w[..|w| - 1][0];
      assert '\n' !in w[..|w| - 1] ==> '\n' !in w[1..][..|w| - 2];
      NoBreaks(w[1..]);
    }
  }

  /** A compiled pattern has room for at most one such break per token. */
  lemma {:induction false} LinewiseBoundsBreaks(p: string, w: string)
    requires Matches(p, w, true)
    ensures Breaks(w) <= |p|
    decreases |p|
  {
    if p != [] {
      var (t, n) := NextToken(p);
      var k :| 0 <= k <= |w| && TokenMatches(t, w[..k], true) && Matches(p[n..], w[k..], true);
      NoBreaks(w[..k]);
      LinewiseBoundsBreaks(p[n..], w[k..]);
      BreaksConcat(w[..k], w[k..]);
      assert w == w[..k] + w[k..];
    }
  }

  function BreakText(m: nat): string {
    if m == 0 then "" else "\n/" + BreakText(m - 1)
  }

  /** A path the pattern means to accept, in which every `**` stands for `m` breaks. */
  function Sample(p: string, m: nat): string
    decreases |p|
  {
    if p == [] then ""
    else
      var (t, n) := NextToken(p);
      (match t case Char(c) => [c] case One => "a" case Run => "" case Deep => BreakText(m) case Dirs => BreakText(m))
      + Sample(p[n..], m)
  }

  lemma {:induction false} BreakTextHas(m: nat)
    ensures Breaks(BreakText(m)) >= m
    ensures m > 0 ==> BreakText(m) != [] && BreakText(m)[|BreakText(m)| - 1] == '/'
  {
    if m > 0 {
      BreakTextHas(m - 1);
      BreaksConcat("\n/", BreakText(m - 1));
      assert "\n/"[1..] == "/";
      assert Breaks("\n/") == 1;
    }
  }

  lemma {:induction false} SampleMatches(p: string, m: nat)
    ensures Matches(p, Sample(p, m), false)
    ensures UsesDeep(p) ==> Breaks(Sample(p, m)) >= m
    decreases |p|
  {
    if p != [] {
      var (t, n) := NextToken(p);
      SampleMatches(p[n..], m);
      BreakTextHas(m);
      var w, rest := Sample(p, m), Sample(p[n..], m);
      var k := |w| - |rest|;
      assert w[k..] == rest && w == w[..k] + rest;
      BreaksConcat(w[..k], rest);
      assert TokenMatches(t, w[..k], false) by {
        match t
        case Char(c) => assert w[..k] == [c];
        case One => assert w[..k] == "a";
        case Run => assert w[..k] == "";
        case Deep =>
        case Dirs => assert w[..k] == BreakText(m);
      }
    }
  }

  lemma {:induction false} WithoutDeepAllPathsAgree(p: string, w: string)
    requires !UsesDeep(p)
    ensures Matches(p, w, true) <==> Matches(p, w, false)
    decreases |p|
  {
    if p != [] {
      forall k | 0 <= k <= |w|
        ensures Matches(p[NextToken(p).1..], w[k..], true) <==> Matches(p[NextToken(p).1..], w[k..], false)
      {
        WithoutDeepAllPathsAgree(p[NextToken(p).1..], w[k..]);
      }
    }
  }

  /** A pattern is compiled faithfully for every path, line feeds included, exactly when it does not use `**`. */
  lemma FaithfulOnAllPathsIffNoDeep(p: string)
    ensures (forall w :: Matches(p, w, true) <==> Matches(p, w, false)) <==> !UsesDeep(p)
  {
    hide *;
    if UsesDeep(p) {
      var w := Sample(p, |p| + 1);
      SampleMatches(p, |p| + 1);
      assert !Matches(p, w, true) by {
        if Matches(p, w, true) { LinewiseBoundsBreaks(p, w); }
      }
    } else {
      forall w ensures Matches(p, w, true) <==> Matches(p, w, false) { WithoutDeepAllPathsAgree(p, w); }
    }
  }
}
