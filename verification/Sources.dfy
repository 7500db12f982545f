/** Host-read source windows: line arithmetic, source IDs and the caching reader (internal/findingverify/source.go). */
module Sources {
  import opened Prelude

  // ---- file text ----

  /** One decoded unit of file text: a character, or a byte that is not valid UTF-8. */
  datatype Unit = Rune(c: char) | Stray(b: nat)

  type Content = seq<Unit>

  const LF := Rune('\n')

  predicate Utf8(t: Content) {
    forall u :: u in t ==> u.Rune?
  }

  /** Writing text to JSON and reading it back turns each stray byte into U+FFFD. */
  function Clean(t: Content): (c: Content)
    ensures |c| == |t|
    ensures forall i :: 0 <= i < |t| ==> c[i] == if t[i].Rune? then t[i] else Rune('\U{FFFD}')
  {
    seq(|t|, i requires 0 <= i < |t| => if t[i].Rune? then t[i] else Rune('\U{FFFD}'))
  }

  /** The JSON spelling of text: all stray bytes share one escape, which no valid character is written as. */
  function Spelling(t: Content): (e: Content)
    ensures |e| == |t|
    ensures forall i :: 0 <= i < |t| ==> e[i] == if t[i].Rune? then t[i] else Stray(0)
  {
    seq(|t|, i requires 0 <= i < |t| => if t[i].Rune? then t[i] else Stray(0))
  }

  lemma {:induction false} CleanMeansUtf8(t: Content)
    ensures Utf8(t) <==> Clean(t) == t
    ensures Utf8(t) <==> Spelling(Clean(t)) == Spelling(t)
    ensures Clean(Clean(t)) == Clean(t)
  {
    if !Utf8(t) {
      var i :| 0 <= i < |t| && t[i].Stray?;
      assert Clean(t)[i] != t[i] && Spelling(Clean(t))[i] != Spelling(t)[i];
    } else {
      assert Clean(t) == t;
    }
    assert Clean(Clean(t)) == Clean(t);
  }

  function ByteLength(t: Content): nat {
    if t == [] then 0
    else
      (match t[0]
       case Stray(_) => 1
       case Rune(c) => if c < '\U{80}' then 1 else if c < '\U{800}' then 2 else if c < '\U{10000}' then 3 else 4)
      + ByteLength(t[1..])
  }

  /** The length of text is that of its UTF-8 encoding, section 3 of RFC 3629; a stray byte is one byte. */
  lemma {:induction false} ByteLengthMeans(t: Content, u: Unit)
    ensures ByteLength([]) == 0
    ensures ByteLength(t + [u]) == ByteLength(t)
            + match u
              case Stray(_) => 1
              case Rune(c) =>
                var n := c as int;
                if n <= 0x7F then 1 else if n <= 0x7FF then 2 else if n <= 0xFFFF then 3 else 4
  {
    if t != [] {
      ByteLengthMeans(t[1..], u);
      assert (t + [u])[1..] == t[1..] + [u];
    } else {
      assert [u][1..] == [];
    }
  }

  // ---- lines ----

  function TrimNewline(t: Content): Content {
    if t != [] && t[|t| - 1] == LF then t[..|t| - 1] else t
  }

  function Lines(t: Content): seq<Content> {
    SplitOn(TrimNewline(t), LF)
  }

  function LineCount(t: Content): nat {
    if t == [] then 0 else |Lines(t)|
  }

  /** Joining lines and closing with a line feed is undone by splitting, and by counting. */
  lemma {:induction false} LineCountOfJoined(lines: seq<Content>)
    requires |lines| >= 1 && forall k :: 0 <= k < |lines| ==> LF !in lines[k]
    ensures Lines(JoinWith(lines, LF) + [LF]) == lines && LineCount(JoinWith(lines, LF) + [LF]) == |lines|
    ensures LineCount([]) == 0
  {
    SplitUndoesJoin(lines, LF);
    assert TrimNewline(JoinWith(lines, LF) + [LF]) == JoinWith(lines, LF);
  }

  // ---- sources and requests ----

  datatype Side = Base | Head | OtherSide

  /** sourceID hashes the JSON of a source without its ID; the hash is taken to be injective. */
  datatype Id =
    | NoId
    | Hash(endOfFile: bool, path: string, side: Side, startLine: int, content: Content, unavailable: string)
    | Foreign(text: string)

  datatype Source = Source(endOfFile: bool, id: Id, path: string, side: Side, startLine: int, content: Content,
                           unavailable: string)

  datatype ReadRequest = ReadRequest(path: string, side: Side, startLine: int, endLine: int)

  function SourceId(s: Source): Id {
    Hash(s.endOfFile, s.path, s.side, s.startLine, Spelling(s.content), s.unavailable)
  }

  function CleanSource(s: Source): Source {
    s.(content := Clean(s.content))
  }

  /** The line is one of the source's own lines, and the source could be read. */
  predicate Holds(s: Source, line: int) {
    s.unavailable == "" && s.startLine <= line < s.startLine + LineCount(s.content)
  }

  predicate IsControl(c: char) {
    c < ' ' || '\U{7F}' <= c < '\U{A0}'
  }

  function Utf8Length(s: string): nat {
    ByteLength(seq(|s|, i requires 0 <= i < |s| => Rune(s[i])))
  }

  /**
   * A clean repository-relative path: path.Clean leaves it alone and it stays inside the repository
   * exactly when no segment is empty, a dot or two dots.
   */
  predicate ValidPath(p: string) {
    var segments := SplitOn(p, '/');
    && Utf8Length(p) <= 4096
    && (forall k :: 0 <= k < |segments| ==> segments[k] !in {"", ".", ".."})
    && segments[0] != ".git"
    && forall c :: c in p ==> c != '\\' && !IsControl(c)
  }

  predicate ValidRequest(r: ReadRequest) {
    ValidPath(r.path) && (r.side.Base? || r.side.Head?) && r.startLine >= 1 && r.endLine >= r.startLine
        && r.endLine - r.startLine < 200
  }

  /** The name of a file or directory: not empty, not a dot or two, no slashes, backslashes or control characters. */
  ghost predicate Name(s: string) {
    && s != "" && s != "." && s != ".."
    && forall c :: c in s ==> c != '/' && c != '\\' && c as int >= 0x20 && (c as int < 0x7F || c as int >= 0xA0)
  }

  ghost predicate Names(parts: seq<string>) {
    parts != [] && forall k :: 0 <= k < |parts| ==> Name(parts[k])
  }

  /** A path is accepted exactly when it is a list of names joined by slashes, not below .git and not too long. */
  lemma ValidPathIff(p: string)
    ensures ValidPath(p) <==>
              Utf8Length(p) <= 4096 && exists parts :: Names(parts) && JoinWith(parts, '/') == p && parts[0] != ".git"
  {
    hide Utf8Length, SplitOn, JoinWith;
    var parts := SplitOn(p, '/');
    JoinUndoesSplit(p, '/');
    SplitPiecesClean(p, '/');
    if ValidPath(p) {
      forall k | 0 <= k < |parts| ensures Name(parts[k]) { JoinedAll(parts, '/', k); }
      assert Names(parts);
    }
    if names :| Names(names) && JoinWith(names, '/') == p && names[0] != ".git" && Utf8Length(p) <= 4096 {
      SplitUndoesJoin(names, '/');
      forall c | c in p ensures c != '\\' && !IsControl(c) { JoinedOnly(names, '/', c); }
    }
  }

  lemma ValidRequestMeans(r: ReadRequest)
    ensures ValidRequest(r) <==>
              && ValidPath(r.path) && r.side in {Base, Head}
              && 1 <= r.startLine <= r.endLine && r.endLine <= r.startLine + 199
  {
    hide ValidPath;
  }

  /** One saved source answers the request in full. */
  predicate Covers(s: Source, r: ReadRequest) {
    && s.path == r.path && s.side == r.side && s.unavailable == ""
    && s.startLine <= r.startLine && (s.endOfFile || s.startLine + LineCount(s.content) > r.endLine)
  }

  predicate SavedRequest(sources: seq<Source>, r: ReadRequest) {
    exists k :: 0 <= k < |sources| && Covers(sources[k], r)
  }

  // ---- reading ----

  /** fileContent: text, or the reason there is none. */
  datatype File = File(text: Content, unavailable: string)

  type Key = (Side, string)

  const MAX_SOURCE_BYTES := 32 * 1024

  /** What Read answers when the file is `file`. */
  function Window(file: File, r: ReadRequest): Source
    requires ValidRequest(r)
  {
    var s := Source(false, NoId, r.path, r.side, r.startLine, [], "");
    var lines := Lines(file.text);
    var t :=
      if file.unavailable != "" then s.(unavailable := file.unavailable)
      else if file.text == [] || r.startLine > |lines| then s.(unavailable := "Requested lines are outside the file.")
      else
        var last := if r.endLine < |lines| then r.endLine else |lines|;
        var content := JoinWith(lines[r.startLine - 1..last], LF) + [LF];
        if ByteLength(content) > MAX_SOURCE_BYTES
        then s.(endOfFile := r.endLine >= |lines|, unavailable := "Requested source exceeds 32 KiB.")
        else s.(endOfFile := r.endLine >= |lines|, content := content);
    t.(id := SourceId(t))
  }

  function ReadSpec(view: Key -> File, r: ReadRequest): Source {
    if !ValidRequest(r) then
      var s := Source(false, NoId, r.path, r.side, if r.startLine < 1 then 1 else r.startLine, [],
                      "Invalid or over-budget source request.");
      s.(id := SourceId(s))
    else Window(view((r.side, r.path)), r)
  }

  /**
   * What replay relies on: the answer names the request, is identified by its content, and covers the request or is
   * unavailable.
   */
  ghost predicate Answers(s: Source, r: ReadRequest) {
    && s.path == r.path && s.side == r.side && s.startLine == r.startLine
    && s.id == SourceId(s)
    && (s.unavailable != "" || Covers(s, r))
  }

  lemma {:induction false} ReadAnswers(view: Key -> File, r: ReadRequest)
    requires ValidRequest(r)
    ensures Answers(ReadSpec(view, r), r)
  {
    hide ValidPath, SplitOn, JoinWith, ByteLength, Spelling;
    var file := view((r.side, r.path));
    var lines := Lines(file.text);
    if r.startLine <= |lines| {
      var last := if r.endLine < |lines| then r.endLine else |lines|;
      SplitPiecesClean(TrimNewline(file.text), LF);
      LineCountOfJoined(lines[r.startLine - 1..last]);
    }
  }

  /** Reading as one function of the request. */
  function Reads(view: Key -> File): ReadRequest -> Source {
    (r: ReadRequest) => ReadSpec(view, r)
  }

  /**
   * A line that a readable answer holds is that line of the file, and the answer says whether it reaches the end of the
   * file.
   */
  lemma {:induction false} AnswerShowsTheFile(view: Key -> File, r: ReadRequest, line: int)
    requires ValidRequest(r) && Holds(ReadSpec(view, r), line)
    ensures var (s, lines) := (ReadSpec(view, r), Lines(view((r.side, r.path)).text));
            && r.startLine <= line <= r.endLine && line <= |lines| && line - s.startLine < |Lines(s.content)|
            && Lines(s.content)[line - s.startLine] == lines[line - 1]
            && (s.endOfFile <==> s.startLine - 1 + LineCount(s.content) == |lines|)
  {
    hide ValidPath, SplitOn, JoinWith, ByteLength, Spelling;
    var lines := Lines(view((r.side, r.path)).text);
    if r.startLine <= |lines| {
      var last := if r.endLine < |lines| then r.endLine else |lines|;
      SplitPiecesClean(TrimNewline(view((r.side, r.path)).text), LF);
      LineCountOfJoined(lines[r.startLine - 1..last]);
    }
  }

  /** The lines from `first` to `last`, or to the end of the file, each closed with a line feed. */
  function Excerpt(lines: seq<Content>, first: nat, last: nat): Content
    requires 1 <= first <= |lines| && first <= last
  {
    JoinWith(lines[first - 1..if last < |lines| then last else |lines|], LF) + [LF]
  }

  /**
   * What a valid request is answered with: the requested lines as far as the file has them, unless the file cannot be
   * read, the range begins behind its end, or the lines take more than 32 KiB.
   */
  lemma ReadMeans(view: Key -> File, r: ReadRequest)
    requires ValidRequest(r)
    ensures var (s, file) := (ReadSpec(view, r), view((r.side, r.path)));
            var lines := Lines(file.text);
            && s.path == r.path && s.side == r.side && s.startLine == r.startLine && s.id == SourceId(s)
            && if file.unavailable != "" then s.unavailable == file.unavailable && s.content == [] && !s.endOfFile
               else if file.text == [] || |lines| < r.startLine then
                 s.unavailable == "Requested lines are outside the file." && s.content == [] && !s.endOfFile
               else
                 && (s.endOfFile <==> |lines| <= r.endLine)
                 && if ByteLength(Excerpt(lines, r.startLine, r.endLine)) > 32768 then
                      s.unavailable == "Requested source exceeds 32 KiB." && s.content == []
                    else s.unavailable == "" && s.content == Excerpt(lines, r.startLine, r.endLine)
  {
    hide ValidPath, SplitOn, JoinWith, ByteLength, Spelling;
  }

  /** A request that is not valid reads nothing. */
  lemma InvalidReadsNothing(view: Key -> File, r: ReadRequest)
    requires !ValidRequest(r)
    ensures var s := ReadSpec(view, r);
            && s.unavailable == "Invalid or over-budget source request." && s.content == [] && !s.endOfFile
            && s.path == r.path && s.side == r.side && s.startLine == (if r.startLine > 0 then r.startLine else 1)
            && s.id == SourceId(s)
  {
    hide ValidPath, Spelling;
  }

  /** The cache after reading through it: a miss loads the committed file. */
  function Loaded(files: map<Key, File>, repo: Key -> File, r: ReadRequest): map<Key, File> {
    var key := (r.side, r.path);
    if !ValidRequest(r) || key in files then files else files[key := repo(key)]
  }

  function CachedRead(files: map<Key, File>, repo: Key -> File, r: ReadRequest): Source {
    if !ValidRequest(r) then ReadSpec(repo, r) else Window(Loaded(files, repo, r)[(r.side, r.path)], r)
  }

  /** Every cached file is the one `view` shows; uncached files show as committed. */
  ghost predicate Consistent(files: map<Key, File>, repo: Key -> File, view: Key -> File) {
    forall k :: view(k) == if k in files then files[k] else repo(k)
  }

  /** Reads through a consistent cache answer as the view does, and leave it consistent: their order cannot matter. */
  lemma {:induction false} CachedReadIsView(files: map<Key, File>, repo: Key -> File, view: Key -> File, r: ReadRequest)
    requires Consistent(files, repo, view)
    ensures CachedRead(files, repo, r) == ReadSpec(view, r)
    ensures Consistent(Loaded(files, repo, r), repo, view)
  {
  }

  class Collector {
    var files: map<Key, File>
    const repo: Key -> File

    /** Worktree files are frozen into the cache before reviewers run; `committed` reads the pinned revisions. */
    constructor (frozen: map<Key, File>, committed: Key -> File)
      ensures files == frozen && repo == committed
    {
      files, repo := frozen, committed;
    }

    function View(): Key -> File
      reads this
    {
      var (f, c) := (files, repo);
      (k: Key) => if k in f then f[k] else c(k)
    }

    method Read(r: ReadRequest) returns (s: Source)
      modifies this
      ensures s == ReadSpec(old(View()), r)
      ensures files == Loaded(old(files), repo, r)
      ensures forall k :: View()(k) == old(View())(k)
    {
      if !ValidRequest(r) {
        s := Source(false, NoId, r.path, r.side, if r.startLine < 1 then 1 else r.startLine, [],
                    "Invalid or over-budget source request.");
        return s.(id := SourceId(s));
      }
      var key := (r.side, r.path);
      if key !in files {
        files := files[key := repo(key)];
      }
      s := Window(files[key], r);
    }
  }
}
