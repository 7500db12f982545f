/** The NUL-delimited name-status parser and its inverse (internal/adversary/git.go). */
module NameStatus {
  import opened Prelude

  datatype Kind = Added | Modified | Deleted | TypeChanged | Renamed | Copied

  datatype Change = Change(kind: Kind, score: nat, oldPath: string, path: string)

  const NUL := '\0'

  // ---- status codes ----

  /** The kind and similarity score of a code, or None; numbers too long for an int exceed 100 in any case. */
  function CodeMeaning(code: string): Option<(Kind, nat)> {
    if code == "A" then Some((Added, 0))
    else if code == "M" then Some((Modified, 0))
    else if code == "D" then Some((Deleted, 0))
    else if code == "T" then Some((TypeChanged, 0))
    else if |code| < 2 || (code[0] != 'R' && code[0] != 'C') then None
    else if !Digits(code[1..]) || Value(code[1..]) > 100 then None
    else Some((if code[0] == 'R' then Renamed else Copied, Value(code[1..])))
  }

  method ParseStatusCode(code: string) returns (meaning: Option<(Kind, nat)>)
    ensures meaning == CodeMeaning(code)
  {
    if |code| == 1 {
      match code[0]
      case 'A' => return Some((Added, 0));
      case 'M' => return Some((Modified, 0));
      case 'D' => return Some((Deleted, 0));
      case 'T' => return Some((TypeChanged, 0));
      case _ =>
    }
    if |code| < 2 || (code[0] != 'R' && code[0] != 'C') {
      return None;
    }
    var digits := code[1..];
    var score: nat := 0;
    for k := 0 to |digits|
      invariant Digits(digits[..k]) && score == Value(digits[..k])
    {
      if digits[k] < '0' || digits[k] > '9' {
        return None;
      }
      assert digits[..k + 1][..k] == digits[..k];
      score := 10 * score + (digits[k] as int - '0' as int);
    }
    assert digits[..|digits|] == digits;
    if score > 100 {
      return None;
    }
    return Some((if code[0] == 'R' then Renamed else Copied, score));
  }

  // ---- parsing ----

  predicate TwoPaths(code: string) {
    code != "" && (code[0] == 'R' || code[0] == 'C')
  }

  /** Why an output is refused: no final NUL, a record without its fields, an unknown code, or a second path missing. */
  datatype Refusal = Unterminated | Malformed | Unsupported(code: string) | SecondPathMissing(code: string)

  function ParseFields(fields: seq<string>): Result<seq<Change>, Refusal>
    decreases |fields|
  {
    if fields == [] then Ok([])
    else if |fields| < 2 || fields[0] == "" || fields[1] == "" then Err(Malformed)
    else
      match CodeMeaning(fields[0])
      case None => Err(Unsupported(fields[0]))
      case Some((kind, score)) =>
        if TwoPaths(fields[0]) then
          if |fields| < 3 || fields[2] == "" then Err(SecondPathMissing(fields[0]))
          else Prepend(Change(kind, score, fields[1], fields[2]), ParseFields(fields[3..]))
        else Prepend(Change(kind, score, "", fields[1]), ParseFields(fields[2..]))
  }

  function Prepend(c: Change, rest: Result<seq<Change>, Refusal>): Result<seq<Change>, Refusal> {
    if rest.Err? then rest else Ok([c] + rest.value)
  }

  function Parse(output: string): Result<seq<Change>, Refusal> {
    if output == [] then Ok([])
    else
      var fields := SplitOn(output, NUL);
      if fields[|fields| - 1] != "" then Err(Unterminated) else ParseFields(fields[..|fields| - 1])
  }

  method ParseGitChanges(output: string) returns (res: Result<seq<Change>, Refusal>)
    ensures res == Parse(output)
  {
    if |output| == 0 {
      return Ok([]);
    }
    var fields := SplitOn(output, NUL);
    if |fields[|fields| - 1]| != 0 {
      return Err(Unterminated);
    }
    fields := fields[..|fields| - 1];
    ghost var all := ParseFields(fields);
    var changes: seq<Change> := [];
    assert all.Ok? ==> [] + all.value == all.value;
    while |fields| > 0
      invariant all == if ParseFields(fields).Err? then ParseFields(fields) else Ok(changes + ParseFields(fields).value)
      decreases |fields|
    {
      if |fields| < 2 || |fields[0]| == 0 || |fields[1]| == 0 {
        return Err(Malformed);
      }
      var code := fields[0];
      var meaning := ParseStatusCode(code);
      if meaning.None? {
        return Err(Unsupported(code));
      }
      var (kind, score) := meaning.value;
      var change := Change(kind, score, "", fields[1]);
      ghost var rest := fields;
      if TwoPaths(code) {
        if |fields| < 3 || |fields[2]| == 0 {
          return Err(SecondPathMissing(code));
        }
        change := Change(kind, score, fields[1], fields[2]);
        fields := fields[3..];
      } else {
        fields := fields[2..];
      }
      assert ParseFields(rest) == Prepend(change, ParseFields(fields));
      if ParseFields(fields).Ok? {
        AppendAssociates(changes, [change], ParseFields(fields).value);
      }
      changes := changes + [change];
    }
    assert changes + [] == changes;
    return Ok(changes);
  }

  // ---- printing ----

  predicate PathText(p: string) {
    p != "" && NUL !in p
  }

  predicate ValidChange(c: Change) {
    && PathText(c.path)
    && if c.kind.Renamed? || c.kind.Copied? then PathText(c.oldPath) && c.score <= 100
       else c.oldPath == "" && c.score == 0
  }

  /** `code` is a way to write the kind and score of `c`. */
  predicate Spells(code: string, c: Change) {
    CodeMeaning(code) == Some((c.kind, c.score))
  }

  function RecordFields(code: string, c: Change): seq<string> {
    if c.kind.Renamed? || c.kind.Copied? then [code, c.oldPath, c.path] else [code, c.path]
  }

  /** Exactly these codes have a meaning: four letters, and R or C with a decimal number of at most 100. */
  lemma CodeMeans(code: string, kind: Kind, score: nat)
    ensures CodeMeaning(code) == Some((kind, score)) <==>
              match kind
              case Added => code == "A" && score == 0
              case Modified => code == "M" && score == 0
              case Deleted => code == "D" && score == 0
              case TypeChanged => code == "T" && score == 0
              case Renamed => Scored(code, 'R', score)
              case Copied => Scored(code, 'C', score)
  {
  }

  /** The letter, and decimal digits of the score. */
  predicate Scored(code: string, letter: char, score: nat) {
    |code| > 1 && code[0] == letter && Digits(code[1..]) && Value(code[1..]) == score <= 100
  }

  predicate Spelling(codes: seq<string>, changes: seq<Change>) {
    && |codes| == |changes|
    && forall k :: 0 <= k < |codes| ==> Spells(codes[k], changes[k]) && ValidChange(changes[k])
  }

  function AllFields(codes: seq<string>, changes: seq<Change>): seq<string>
    requires |codes| == |changes|
  {
    if codes == [] then [] else RecordFields(codes[0], changes[0]) + AllFields(codes[1..], changes[1..])
  }

  /** Each field followed by a NUL. */
  function Terminated(fields: seq<string>): string {
    if fields == [] then "" else fields[0] + [NUL] + Terminated(fields[1..])
  }

  /** The records of a change list, with the given status codes. */
  function PrintWith(codes: seq<string>, changes: seq<Change>): string
    requires |codes| == |changes|
  {
    Terminated(AllFields(codes, changes))
  }

  /** The code Git writes: a letter, with a three-digit score for renames and copies. */
  function Code(c: Change): string
    requires ValidChange(c)
  {
    match c.kind
    case Added => "A"
    case Modified => "M"
    case Deleted => "D"
    case TypeChanged => "T"
    case Renamed => "R" + Digits3(c.score)
    case Copied => "C" + Digits3(c.score)
  }

  function Digits3(n: nat): string
    requires n <= 100
  {
    [Digit(n / 100), Digit(n / 10 % 10), Digit(n % 10)]
  }

  function Codes(changes: seq<Change>): (codes: seq<string>)
    requires forall k :: 0 <= k < |changes| ==> ValidChange(changes[k])
    ensures |codes| == |changes|
    ensures forall k :: 0 <= k < |changes| ==> codes[k] == Code(changes[k])
  {
    seq(|changes|, k requires 0 <= k < |changes| => Code(changes[k]))
  }

  /** git diff --name-status -z. */
  function Print(changes: seq<Change>): string
    requires forall k :: 0 <= k < |changes| ==> ValidChange(changes[k])
  {
    PrintWith(Codes(changes), changes)
  }

  // ---- codes ----

  lemma ThreeDigitValue(s: string)
    requires |s| == 3 && Digits(s)
    ensures Value(s) == 100 * (s[0] as int - '0' as int) + 10 * (s[1] as int - '0' as int) + (s[2] as int - '0' as int)
  {
    var t := s[..2];
    var u := t[..1];
    assert Value(u) == 10 * Value(u[..0]) + (s[0] as int - '0' as int);
    assert Value(t) == 10 * Value(u) + (s[1] as int - '0' as int);
  }

  lemma Digits3Value(n: nat)
    requires n <= 100
    ensures Digits(Digits3(n)) && Value(Digits3(n)) == n
  {
    hide Value;
    ThreeDigitValue(Digits3(n));
  }

  lemma CodeSpells(c: Change)
    requires ValidChange(c)
    ensures Spells(Code(c), c)
  {
    hide Value, Digits, Digit;
    if c.kind.Renamed? || c.kind.Copied? {
      Digits3Value(c.score);
      assert Code(c)[1..] == Digits3(c.score);
    }
  }

  lemma CodeHasNoNul(code: string)
    requires CodeMeaning(code).Some?
    ensures NUL !in code && code != ""
    ensures TwoPaths(code) <==> CodeMeaning(code).value.0 in {Renamed, Copied}
    ensures !TwoPaths(code) ==> CodeMeaning(code).value.1 == 0
    ensures CodeMeaning(code).value.1 <= 100
  {
    if |code| >= 2 {
      assert code == [code[0]] + code[1..];
    }
  }

  // ---- splitting undoes terminating ----

  lemma {:induction false} SplitTerminated(fields: seq<string>)
    requires forall k :: 0 <= k < |fields| ==> NUL !in fields[k]
    ensures SplitOn(Terminated(fields), NUL) == fields + [""]
  {
    if fields != [] {
      SplitTerminated(fields[1..]);
      SplitOffPiece(fields[0], NUL, Terminated(fields[1..]));
    }
  }

  lemma {:induction false} TerminatedSplit(output: string)
    requires output == [] || output[|output| - 1] == NUL
    ensures var fields := SplitOn(output, NUL);
            fields[|fields| - 1] == "" && Terminated(fields[..|fields| - 1]) == output
  {
    if output != [] {
      TerminatedSplit(output[1..]);
      var (fields, rest) := (SplitOn(output, NUL), SplitOn(output[1..], NUL));
      if output[0] == NUL {
        assert fields[..|fields| - 1] == [""] + rest[..|rest| - 1];
        assert fields[..|fields| - 1][1..] == rest[..|rest| - 1];
      } else {
        assert rest[..0] == [] && |rest| >= 2;
        assert fields[..|fields| - 1][1..] == rest[..|rest| - 1][1..];
        assert fields[0] == [output[0]] + rest[0];
      }
    }
  }

  lemma {:induction false} LastPieceEmpty(output: string)
    requires SplitOn(output, NUL)[|SplitOn(output, NUL)| - 1] == ""
    ensures output == [] || output[|output| - 1] == NUL
  {
    if |output| > 1 {
      var (fields, rest) := (SplitOn(output, NUL), SplitOn(output[1..], NUL));
      LastPieceEmpty(output[1..]);
    }
  }

  lemma {:induction false} TerminatedConcat(a: seq<string>, b: seq<string>)
    ensures Terminated(a + b) == Terminated(a) + Terminated(b)
  {
    if a == [] {
      assert a + b == b;
    } else {
      TerminatedConcat(a[1..], b);
      assert (a + b)[1..] == a[1..] + b;
      AppendAssociates(a[0] + [NUL], Terminated(a[1..]), Terminated(b));
    }
  }

  lemma {:induction false} AllFieldsConcat(c1: seq<string>, x1: seq<Change>, c2: seq<string>, x2: seq<Change>)
    requires |c1| == |x1| && |c2| == |x2|
    ensures AllFields(c1 + c2, x1 + x2) == AllFields(c1, x1) + AllFields(c2, x2)
  {
    if c1 == [] {
      assert c1 + c2 == c2 && x1 + x2 == x2;
    } else {
      AllFieldsConcat(c1[1..], x1[1..], c2, x2);
      assert (c1 + c2)[1..] == c1[1..] + c2 && (x1 + x2)[1..] == x1[1..] + x2;
      hide RecordFields;
      assert (c1 + c2)[0] == c1[0] && (x1 + x2)[0] == x1[0];
      AppendAssociates(RecordFields(c1[0], x1[0]), AllFields(c1[1..], x1[1..]), AllFields(c2, x2));
    }
  }

  // ---- fields and change lists determine each other ----

  lemma ParseUndoesRecord(code: string, c: Change, rest: seq<string>)
    requires Spells(code, c) && ValidChange(c)
    ensures ParseFields(RecordFields(code, c) + rest) == Prepend(c, ParseFields(rest))
    ensures forall k :: 0 <= k < |RecordFields(code, c)| ==> NUL !in RecordFields(code, c)[k]
  {
    hide CodeMeaning;
    CodeHasNoNul(code);
    var fields := RecordFields(code, c) + rest;
    assert if TwoPaths(code) then fields[3..] == rest else fields[2..] == rest;
  }

  lemma {:induction false} ParseUndoesFields(codes: seq<string>, changes: seq<Change>)
    requires Spelling(codes, changes)
    ensures ParseFields(AllFields(codes, changes)) == Ok(changes)
    ensures forall k :: 0 <= k < |AllFields(codes, changes)| ==> NUL !in AllFields(codes, changes)[k]
  {
    hide RecordFields, Spells, ValidChange, TwoPaths, CodeMeaning;
    if codes != [] {
      hide ParseFields;
      ParseUndoesFields(codes[1..], changes[1..]);
      ParseUndoesRecord(codes[0], changes[0], AllFields(codes[1..], changes[1..]));
      assert changes == [changes[0]] + changes[1..];
    }
  }

  lemma {:induction false} FieldsUndoParse(fields: seq<string>) returns (codes: seq<string>)
    requires ParseFields(fields).Ok?
    requires forall k :: 0 <= k < |fields| ==> NUL !in fields[k]
    ensures Spelling(codes, ParseFields(fields).value)
    ensures AllFields(codes, ParseFields(fields).value) == fields
    decreases |fields|
  {
    if fields == [] {
      codes := [];
    } else {
      CodeHasNoNul(fields[0]);
      var n := if TwoPaths(fields[0]) then 3 else 2;
      var rest := FieldsUndoParse(fields[n..]);
      codes := [fields[0]] + rest;
      var changes := ParseFields(fields).value;
      assert codes[1..] == rest && changes[1..] == ParseFields(fields[n..]).value;
      assert fields == fields[..n] + fields[n..] && fields[..n] == RecordFields(fields[0], changes[0]);
    }
  }

  // ---- the parser and the printer undo each other ----

  /**
   * An input is accepted as a change list exactly when it is that list printed with some spelling of its status codes.
   */
  lemma ParseIffPrinted(output: string, changes: seq<Change>)
    ensures Parse(output) == Ok(changes) <==>
              exists codes :: Spelling(codes, changes) && output == PrintWith(codes, changes)
  {
    if codes :| Spelling(codes, changes) && output == PrintWith(codes, changes) {
      PrintedParses(codes, changes);
    }
    if Parse(output) == Ok(changes) {
      var codes := ParsedIsPrinted(output, changes);
    }
  }

  lemma PrintedParses(codes: seq<string>, changes: seq<Change>)
    requires Spelling(codes, changes)
    ensures Parse(PrintWith(codes, changes)) == Ok(changes)
  {
    var fields := AllFields(codes, changes);
    ParseUndoesFields(codes, changes);
    SplitTerminated(fields);
    assert (fields + [""])[..|fields|] == fields;
    if PrintWith(codes, changes) == [] {
      assert SplitOn<char>([], NUL) == [[]];
      assert |fields + [""]| == 1;
    }
  }

  lemma ParsedIsPrinted(output: string, changes: seq<Change>) returns (codes: seq<string>)
    requires Parse(output) == Ok(changes)
    ensures Spelling(codes, changes) && output == PrintWith(codes, changes)
  {
    if output == [] {
      codes := [];
    } else {
      var fields := SplitOn(output, NUL);
      LastPieceEmpty(output);
      TerminatedSplit(output);
      SplitPiecesClean(output, NUL);
      codes := FieldsUndoParse(fields[..|fields| - 1]);
    }
  }

  /** Parsing what Git prints gives the changes back. */
  lemma ParseUndoesPrint(changes: seq<Change>)
    requires forall k :: 0 <= k < |changes| ==> ValidChange(changes[k])
    ensures Parse(Print(changes)) == Ok(changes)
  {
    forall k | 0 <= k < |changes| ensures Spells(Codes(changes)[k], changes[k]) {
      CodeSpells(changes[k]);
    }
    PrintedParses(Codes(changes), changes);
  }

  lemma SpellingConcat(c: seq<string>, x: seq<Change>, d: seq<string>, y: seq<Change>)
    requires Spelling(c, x) && Spelling(d, y)
    ensures |c| == |x| && |d| == |y| && Spelling(c + d, x + y)
  {
    hide Spells, ValidChange;
  }

  lemma PrintIsTerminated(codes: seq<string>, changes: seq<Change>)
    requires |codes| == |changes|
    ensures PrintWith(codes, changes) == Terminated(AllFields(codes, changes))
  {
  }

  /** Accepted inputs can be parsed in pieces. */
  lemma ParseDistributes(a: string, b: string, x: seq<Change>, y: seq<Change>)
    requires Parse(a) == Ok(x) && Parse(b) == Ok(y)
    ensures Parse(a + b) == Ok(x + y)
  {
    hide *;
    var c := ParsedIsPrinted(a, x);
    var d := ParsedIsPrinted(b, y);
    SpellingConcat(c, x, d, y);
    AllFieldsConcat(c, x, d, y);
    PrintIsTerminated(c, x);
    PrintIsTerminated(d, y);
    PrintIsTerminated(c + d, x + y);
    TerminatedConcat(AllFields(c, x), AllFields(d, y));
    PrintedParses(c + d, x + y);
  }

  // ---- what is refused ----

  /** The fields that follow complete records cannot be a record, for this reason. */
  ghost predicate BadRecord(rest: seq<string>, refusal: Refusal) {
    rest != []
    && match refusal
       case Malformed => |rest| == 1 || rest[0] == "" || rest[1] == ""
       case Unsupported(code) =>
         |rest| > 1 && code == rest[0] != "" && rest[1] != "" && forall k, n: nat :: CodeMeaning(code) != Some((k, n))
       case SecondPathMissing(code) =>
         |rest| > 1 && code == rest[0] && rest[1] != "" && (|rest| == 2 || rest[2] == "")
         && exists n: nat :: Scored(code, 'R', n) || Scored(code, 'C', n)
       case Unterminated => false
  }

  lemma {:induction false} RefusedFields(fields: seq<string>) returns (codes: seq<string>, changes: seq<Change>,
                                                                      rest: seq<string>)
    requires ParseFields(fields).Err?
    requires forall k :: 0 <= k < |fields| ==> NUL !in fields[k]
    ensures Spelling(codes, changes) && fields == AllFields(codes, changes) + rest
    ensures BadRecord(rest, ParseFields(fields).error)
    decreases |fields|
  {
    hide ValidChange, Digits, Value;
    codes, changes, rest := [], [], fields;
    if |fields| > 1 && fields[0] != "" && fields[1] != "" && CodeMeaning(fields[0]).Some? {
      CodeHasNoNul(fields[0]);
      var (kind, score) := CodeMeaning(fields[0]).value;
      CodeMeans(fields[0], kind, score);
      if !TwoPaths(fields[0]) || (|fields| > 2 && fields[2] != "") {
        codes, changes, rest := RefusedAfter(fields);
      }
    }
  }

  /** A record that can be read, and what is refused behind it. */
  lemma {:induction false} RefusedAfter(fields: seq<string>) returns (codes: seq<string>, changes: seq<Change>,
                                                                     rest: seq<string>)
    requires ParseFields(fields).Err? && |fields| > 1 && fields[0] != "" && fields[1] != ""
    requires CodeMeaning(fields[0]).Some? && (TwoPaths(fields[0]) ==> |fields| > 2 && fields[2] != "")
    requires forall k :: 0 <= k < |fields| ==> NUL !in fields[k]
    ensures Spelling(codes, changes) && fields == AllFields(codes, changes) + rest
    ensures BadRecord(rest, ParseFields(fields).error)
    decreases |fields|, 0
  {
    hide BadRecord, CodeMeaning;
    CodeHasNoNul(fields[0]);
    var (kind, score) := CodeMeaning(fields[0]).value;
    var n := if TwoPaths(fields[0]) then 3 else 2;
    var change := if n == 3 then Change(kind, score, fields[1], fields[2]) else Change(kind, score, "", fields[1]);
    var moreCodes, moreChanges, end := RefusedFields(fields[n..]);
    codes, changes, rest := [fields[0]] + moreCodes, [change] + moreChanges, end;
    assert codes[1..] == moreCodes && changes[1..] == moreChanges;
    assert fields == fields[..n] + fields[n..] && fields[..n] == RecordFields(fields[0], change);
    AppendAssociates(RecordFields(fields[0], change), AllFields(moreCodes, moreChanges), end);
  }

  /**
   * An output is refused because it does not end with a NUL, or because what follows some complete records is not a
   * record; the refusal says why.
   */
  lemma RefusalMeans(output: string) returns (codes: seq<string>, changes: seq<Change>, rest: seq<string>)
    requires Parse(output).Err?
    ensures Parse(output) == Err(Unterminated) <==> output[|output| - 1] != NUL
    ensures Parse(output) != Err(Unterminated) ==>
              && Spelling(codes, changes) && output == Terminated(AllFields(codes, changes) + rest)
              && BadRecord(rest, Parse(output).error)
  {
    hide ParseFields, BadRecord;
    codes, changes, rest := [], [], [];
    var fields := SplitOn(output, NUL);
    if fields[|fields| - 1] == "" {
      LastPieceEmpty(output);
      TerminatedSplit(output);
      SplitPiecesClean(output, NUL);
      codes, changes, rest := RefusedFields(fields[..|fields| - 1]);
    } else if output[|output| - 1] == NUL {
      TerminatedSplit(output);
      assert false;
    }
    NotUnterminated(rest, if Parse(output).Err? then Parse(output).error else Malformed);
  }

  lemma NotUnterminated(rest: seq<string>, refusal: Refusal)
    ensures BadRecord(rest, refusal) ==> refusal != Unterminated
  {
  }
}
