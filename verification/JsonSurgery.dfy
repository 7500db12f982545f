/** Replacing one object value inside a JSON document, byte by byte (internal/cataloginit/runnable.go). */
module JsonSurgery {
  import opened Prelude

  // ---- finding the key and the opening brace ----

  predicate OccursAt(document: string, marker: string, i: nat) {
    i + |marker| <= |document| && document[i..i + |marker|] == marker
  }

  /** bytes.Index: the first occurrence at or after `from`. */
  function IndexFrom(document: string, marker: string, from: nat): (res: Option<nat>)
    ensures res.Some? ==>
              && from <= res.value && OccursAt(document, marker, res.value)
              && forall k :: from <= k < res.value ==> !OccursAt(document, marker, k)
    ensures res.None? ==> forall k :: from <= k ==> !OccursAt(document, marker, k)
    decreases |document| - from
  {
    if from + |marker| > |document| then None
    else if OccursAt(document, marker, from) then Some(from)
    else IndexFrom(document, marker, from + 1)
  }

  // ---- reading braces outside string literals ----

  /** The scanner state: brace depth, inside a string, after a backslash. */
  datatype Scan = Scan(depth: int, inString: bool, escaped: bool)

  const OUTSIDE := Scan(0, false, false)

  function Feed(s: Scan, c: char): Scan {
    if s.inString then
      if s.escaped then s.(escaped := false)
      else if c == '\\' then s.(escaped := true)
      else if c == '"' then s.(inString := false)
      else s
    else if c == '"' then s.(inString := true)
    else if c == '{' then s.(depth := s.depth + 1)
    else if c == '}' then s.(depth := s.depth - 1)
    else s
  }

  /** The state after reading all of `text` from outside. */
  function After(text: string): Scan {
    if text == [] then OUTSIDE else Feed(After(text[..|text| - 1]), text[|text| - 1])
  }

  /** The brace depth of `text` returns to zero outside string literals at its end, and not before. */
  ghost predicate Object(text: string) {
    && text != [] && text[0] == '{'
    && After(text).depth == 0 && !After(text).inString
    && forall k :: 0 < k < |text| ==> After(text[..k]).depth > 0
  }

  /** The length of the run of backslashes that ends `text`. */
  function Backslashes(text: string): nat {
    if text == [] || text[|text| - 1] != '\\' then 0 else 1 + Backslashes(text[..|text| - 1])
  }

  lemma {:induction false} EscapedIffOddRun(text: string)
    ensures After(text).escaped <==> After(text).inString && Backslashes(text) % 2 == 1
  {
    if text != [] {
      EscapedIffOddRun(text[..|text| - 1]);
    }
  }

  /** A quotation mark ends a string literal exactly when an even number of backslashes stands before it. */
  lemma LiteralEndsIff(text: string)
    requires After(text).inString
    ensures !After(text + ['"']).inString <==> Backslashes(text) % 2 == 0
  {
    EscapedIffOddRun(text);
    assert (text + ['"'])[..|text|] == text;
  }

  /** The end of the object that starts at `start`, searching from `i` on. */
  function EndFrom(document: string, start: nat, i: nat): Option<nat>
    requires start <= i <= |document|
    decreases |document| - i
  {
    if i == |document| then None
    else
      var (before, now) := (After(document[start..i]), After(document[start..i + 1]));
      if !before.inString && document[i] == '}' && now.depth == 0 then Some(i + 1) else EndFrom(document, start, i + 1)
  }

  function Marker(key: string): string {
    "\"" + key + "\""
  }

  datatype Trouble = Missing | NotAnObject | Unterminated

  /** Where the first brace after the first quoted key stands. */
  function StartOf(document: string, key: string): (start: Result<nat, Trouble>)
    ensures start.Ok? ==> start.value < |document| && document[start.value] == '{'
  {
    match IndexFrom(document, Marker(key), 0)
    case None => Err(Missing)
    case Some(at) =>
      match IndexFrom(document, "{", at + |Marker(key)|)
      case None => Err(NotAnObject)
      case Some(start) => assert document[start] == document[start..start + 1][0]; Ok(start)
  }

  function Bounds(document: string, key: string): Result<(nat, nat), Trouble> {
    match StartOf(document, key)
    case Err(e) => Err(e)
    case Ok(start) =>
      match EndFrom(document, start, start)
      case None => Err(Unterminated)
      case Some(end) => Ok((start, end))
  }

  /** One byte more. */
  lemma ScanStep(document: string, start: nat, i: nat)
    requires start <= i < |document|
    ensures var (before, now) := (After(document[start..i]), After(document[start..i + 1]));
            && now == (
                 if before.inString then
                   if before.escaped then before.(escaped := false)
                   else before.(escaped := document[i] == '\\', inString := document[i] != '"')
                 else if document[i] == '"' then before.(inString := true)
                 else before.(depth := before.depth
                     + (if document[i] == '{' then 1 else if document[i] == '}' then -1 else 0)))
            && EndFrom(document, start, i) ==
               if !before.inString && document[i] == '}' && now.depth == 0 then Some(i + 1)
               else EndFrom(document, start, i + 1)
  {
    assert document[start..i + 1][..i - start] == document[start..i];
  }

  lemma AfterNothing(text: string)
    requires text == []
    ensures After(text) == Scan(0, false, false)
  {
  }

  lemma EndNowhere(document: string, start: nat)
    requires start <= |document|
    ensures EndFrom(document, start, |document|) == None
  {
  }

  method JsonObjectValueBounds(document: string, key: string) returns (res: Result<(nat, nat), Trouble>)
    ensures res == Bounds(document, key)
  {
    var marker := Marker(key);
    var keyIndex := IndexFrom(document, marker, 0);
    if keyIndex.None? {
      return Err(Missing);
    }
    var brace := IndexFrom(document, "{", keyIndex.value + |marker|);
    if brace.None? {
      return Err(NotAnObject);
    }
    var start := brace.value;
    var end := ScanObject(document, start);
    return if end.Some? then Ok((start, end.value)) else Err(Unterminated);
  }

  /** The scanning loop: brace depth outside string literals. */
  method ScanObject(document: string, start: nat) returns (end: Option<nat>)
    requires start < |document|
    ensures end == EndFrom(document, start, start)
  {
    hide *;
    var depth, inString, escaped := 0, false, false;
    AfterNothing(document[start..start]);
    for index := start to |document|
      invariant After(document[start..index]) == Scan(depth, inString, escaped)
      invariant EndFrom(document, start, start) == EndFrom(document, start, index)
    {
      var character := document[index];
      ScanStep(document, start, index);
      if inString {
        if escaped {
          escaped := false;
        } else if character == '\\' {
          escaped := true;
        } else if character == '"' {
          inString := false;
        }
        continue;
      }
      match character
      case '"' => inString := true;
      case '{' => depth := depth + 1;
      case '}' =>
        depth := depth - 1;
        if depth == 0 {
          return Some(index + 1);
        }
      case _ =>
    }
    EndNowhere(document, start);
    return None;
  }

  // ---- what the bounds mean ----

  /** Reading from `start`, the brace depth stays above zero up to `n`. */
  ghost predicate OpenThrough(document: string, start: nat, n: nat)
    requires n <= |document|
  {
    forall k :: start < k <= n ==> After(document[start..k]).depth > 0
  }

  lemma CloseIsObject(document: string, start: nat, i: nat)
    requires start < i < |document| && document[start] == '{' && OpenThrough(document, start, i)
    requires After(document[start..i + 1]).depth == 0 && !After(document[start..i + 1]).inString
    ensures Object(document[start..i + 1])
  {
    hide After;
    var piece := document[start..i + 1];
    forall k | 0 < k < |piece| ensures After(piece[..k]).depth > 0 {
      assert piece[..k] == document[start..start + k];
    }
  }

  /** Given that no earlier position closes the object, the search finds the first one that does. */
  lemma {:induction false} EndFromIsFirstClose(document: string, start: nat, i: nat)
    requires start < i <= |document| && document[start] == '{' && OpenThrough(document, start, i)
    ensures var end := EndFrom(document, start, i);
            if end.Some? then i < end.value <= |document| && Object(document[start..end.value])
            else OpenThrough(document, start, |document|)
    decreases |document| - i
  {
    hide After, Object;
    if i < |document| {
      ScanStep(document, start, i);
      assert After(document[start..i]).depth > 0;
      if After(document[start..i + 1]).depth == 0 {
        CloseIsObject(document, start, i);
      } else {
        EndFromIsFirstClose(document, start, i + 1);
      }
    }
  }

  /** The key stands at `at`, between quotation marks. */
  ghost predicate QuotedAt(document: string, key: string, at: int) {
    && 0 <= at && at + |key| + 1 < |document|
    && document[at] == '"' && document[at + 1..at + 1 + |key|] == key && document[at + 1 + |key|] == '"'
  }

  lemma QuotedMeans(document: string, key: string, at: nat)
    ensures OccursAt(document, Marker(key), at) <==> QuotedAt(document, key, at)
  {
    var m := Marker(key);
    assert m[0] == '"' && m[1..1 + |key|] == key && m[1 + |key|] == '"';
    if QuotedAt(document, key, at) {
      assert document[at..at + |m|] == [document[at]] + document[at + 1..at + 1 + |key|] + [document[at + 1 + |key|]];
    }
    if OccursAt(document, m, at) {
      var piece := document[at..at + |m|];
      assert piece[0] == document[at] && piece[1 + |key|] == document[at + 1 + |key|];
      assert piece[1..1 + |key|] == document[at + 1..at + 1 + |key|];
    }
  }

  /**
   * The object starts at the first opening brace after the first place where the quoted key stands; there is none when
   * the key is missing, or when no brace follows it.
   */
  lemma StartMeans(document: string, key: string)
    ensures StartOf(document, key) == Err(Missing) <==> forall at :: !QuotedAt(document, key, at)
    ensures forall at :: QuotedAt(document, key, at) && (forall k :: k < at ==> !QuotedAt(document, key, k)) ==>
              match StartOf(document, key)
              case Ok(start) => at + |key| + 2 <= start < |document| && document[start] == '{'
                                && '{' !in document[at + |key| + 2..start]
              case Err(e) => e == NotAnObject && '{' !in document[at + |key| + 2..]
  {
    hide QuotedAt, IndexFrom;
    var m := Marker(key);
    forall at: nat ensures OccursAt(document, m, at) <==> QuotedAt(document, key, at) {
      QuotedMeans(document, key, at);
    }
    assert forall at :: QuotedAt(document, key, at) ==> 0 <= at && at + |key| + 2 <= |document| by {
      QuotedFits(document, key);
    }
    var found := IndexFrom(document, m, 0);
    if found.Some? {
      BraceMeans(document, found.value + |m|);
    }
  }

  lemma QuotedFits(document: string, key: string)
    ensures forall at :: QuotedAt(document, key, at) ==> 0 <= at && at + |key| + 2 <= |document|
  {
  }

  lemma BraceMeans(document: string, from: nat)
    requires from <= |document|
    ensures match IndexFrom(document, "{", from)
            case Some(start) => from <= start < |document| && document[start] == '{' && '{' !in document[from..start]
            case None => '{' !in document[from..]
  {
    hide IndexFrom;
    forall k: nat ensures OccursAt(document, "{", k) <==> k < |document| && document[k] == '{' {
      assert k < |document| ==> document[k..k + 1] == [document[k]];
    }
  }

  /**
   * The bounds enclose an object: braces balance outside string literals at the end and at no earlier point. They are
   * missing after an opening brace only when the depth never comes back to zero.
   */
  lemma BoundsEncloseObject(document: string, key: string)
    ensures Bounds(document, key).Ok? ==>
              var (start, end) := Bounds(document, key).value;
              start < end <= |document| && Object(document[start..end])
    ensures Bounds(document, key) == Err(Unterminated) ==>
              StartOf(document, key).Ok? && OpenThrough(document, StartOf(document, key).value, |document|)
  {
    hide After, Object;
    if StartOf(document, key).Ok? {
      hide StartOf;
      var start := StartOf(document, key).value;
      AfterNothing(document[start..start]);
      ScanStep(document, start, start);
      EndFromIsFirstClose(document, start, start + 1);
    }
  }

  /** Any object found at the start position is the one the search ends on, whatever follows it. */
  lemma {:induction false} EndFromFindsObject(document: string, start: nat, end: nat, i: nat)
    requires start <= i < end <= |document| && Object(document[start..end])
    ensures EndFrom(document, start, i) == Some(end)
    decreases end - i
  {
    var text := document[start..end];
    assert text[..i - start] == document[start..i] && text[..i + 1 - start] == document[start..i + 1];
    hide After;
    ScanStep(document, start, i);
    if i + 1 < end {
      EndFromFindsObject(document, start, end, i + 1);
    } else {
      assert text[..|text|] == text;
      if i > start {
        assert After(text[..i - start]).depth > 0;
      }
    }
  }

  // ---- replacing ----

  datatype Refusal = InDocument(trouble: Trouble) | InTemplate(trouble: Trouble)

  /** The object stored under the key. */
  function Get(document: string, key: string): Result<string, Trouble> {
    match Bounds(document, key)
    case Err(e) => Err(e)
    case Ok((start, end)) => BoundsEncloseObject(document, key); Ok(document[start..end])
  }

  function Put(document: string, template: string, key: string): Result<string, Refusal> {
    match Bounds(document, key)
    case Err(e) => Err(InDocument(e))
    case Ok((start, end)) =>
      match Get(template, key)
      case Err(e) => Err(InTemplate(e))
      case Ok(value) => BoundsEncloseObject(document, key); Ok(document[..start] + value + document[end..])
  }

  method ReplaceJsonObjectValue(document: string, template: string, key: string) returns (res: Result<string, Refusal>)
    ensures res == Put(document, template, key)
  {
    var bounds := JsonObjectValueBounds(document, key);
    if bounds.Err? {
      return Err(InDocument(bounds.error));
    }
    var templateBounds := JsonObjectValueBounds(template, key);
    if templateBounds.Err? {
      return Err(InTemplate(templateBounds.error));
    }
    BoundsEncloseObject(document, key);
    BoundsEncloseObject(template, key);
    var (start, end) := bounds.value;
    var (templateStart, templateEnd) := templateBounds.value;
    var updated := document[..start];
    updated := updated + template[templateStart..templateEnd];
    updated := updated + document[end..];
    return Ok(updated);
  }

  lemma SliceOfPrefix(s: string, n: nat, i: nat, j: nat)
    requires i <= j <= n <= |s|
    ensures s[..n][i..j] == s[i..j]
  {
  }

  lemma {:induction false} IndexDependsOnPrefix(a: string, b: string, m: string, from: nat, n: nat)
    requires n <= |a| && n <= |b| && a[..n] == b[..n]
    requires IndexFrom(a, m, from).Some? && IndexFrom(a, m, from).value + |m| <= n
    ensures IndexFrom(b, m, from) == IndexFrom(a, m, from)
    decreases |a| - from
  {
    SliceOfPrefix(a, n, from, from + |m|);
    SliceOfPrefix(b, n, from, from + |m|);
    if !OccursAt(a, m, from) {
      IndexDependsOnPrefix(a, b, m, from + 1, n);
    }
  }

  /** Where the object starts depends only on the bytes up to its opening brace. */
  lemma StartDependsOnPrefix(a: string, b: string, key: string, start: nat)
    requires StartOf(a, key) == Ok(start) && start < |b|
    requires a[..start + 1] == b[..start + 1]
    ensures StartOf(b, key) == Ok(start)
  {
    hide IndexFrom, OccursAt, Marker;
    var m := Marker(key);
    IndexDependsOnPrefix(a, b, m, 0, start + 1);
    IndexDependsOnPrefix(a, b, "{", IndexFrom(a, m, 0).value + |m|, start + 1);
  }

  lemma SpliceParts(document: string, start: nat, end: nat, value: string)
    requires start <= end <= |document|
    ensures var updated := document[..start] + value + document[end..];
            && |updated| == start + |value| + |document| - end
            && updated[..start] == document[..start] && updated[start..start + |value|] == value
            && updated[start + |value|..] == document[end..]
  {
  }

  /** Splicing an object between the bounds leaves it between the bounds. */
  lemma SpliceIsFound(document: string, key: string, value: string)
    requires Bounds(document, key).Ok? && Object(value)
    ensures var (start, end) := Bounds(document, key).value;
            && start < end <= |document|
            && Bounds(document[..start] + value + document[end..], key) == Ok((start, start + |value|))
  {
    hide After, EndFrom, StartOf;
    BoundsEncloseObject(document, key);
    var (start, end) := Bounds(document, key).value;
    var updated := document[..start] + value + document[end..];
    SpliceParts(document, start, end, value);
    assert value[0] == '{';
    assert document[..start + 1] == document[..start] + ['{'] && updated[..start + 1] == document[..start] + ['{'];
    StartDependsOnPrefix(document, updated, key, start);
    EndFromFindsObject(updated, start, start + |value|, start);
  }

  /**
   * Replacing is defined exactly when both documents hold an object for the key. Reading afterwards gives the
   * template's object, and every byte outside the bounds is kept.
   */
  lemma PutGet(document: string, template: string, key: string)
    ensures Put(document, template, key).Ok? <==> Get(document, key).Ok? && Get(template, key).Ok?
    ensures Put(document, template, key).Ok? ==>
              Get(Put(document, template, key).value, key) == Get(template, key) && BytesKept(document, template, key)
  {
    if Put(document, template, key).Ok? {
      ReadAfterReplacing(document, template, key);
    }
  }

  /** No byte of the document outside the bounds changes. */
  predicate BytesKept(document: string, template: string, key: string)
    requires Put(document, template, key).Ok?
  {
    var (updated, value, (start, end)) :=
        (Put(document, template, key).value, Get(template, key).value, Bounds(document, key).value);
    && start <= end <= |document| && start + |value| <= |updated|
    && updated[..start] == document[..start] && updated[start + |value|..] == document[end..]
  }

  lemma ReadAfterReplacing(document: string, template: string, key: string)
    requires Put(document, template, key).Ok?
    ensures var updated := Put(document, template, key).value;
            Get(updated, key) == Get(template, key)
    ensures BytesKept(document, template, key)
  {
    BoundsEncloseObject(template, key);
    var value := Get(template, key).value;
    SpliceIsFound(document, key, value);
    var (start, end) := Bounds(document, key).value;
    SpliceParts(document, start, end, value);
  }

  /** Replacing with a document's own object changes nothing. */
  lemma GetPut(document: string, key: string)
    requires Get(document, key).Ok?
    ensures Put(document, document, key) == Ok(document)
  {
    BoundsEncloseObject(document, key);
    var (start, end) := Bounds(document, key).value;
    assert document == document[..start] + document[start..end] + document[end..];
  }

  /** Replacing twice is replacing with the last template. */
  lemma PutPut(document: string, first: string, second: string, key: string)
    requires Put(document, first, key).Ok? && Get(second, key).Ok?
    ensures Put(Put(document, first, key).value, second, key) == Put(document, second, key)
  {
    BoundsEncloseObject(first, key);
    PutGet(document, first, key);
    var value := Get(first, key).value;
    SpliceIsFound(document, key, value);
    var (start, end) := Bounds(document, key).value;
    SpliceParts(document, start, end, value);
  }
}
