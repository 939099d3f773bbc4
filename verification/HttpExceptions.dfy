/** The streams on which an exception leaves `doRequest`. `std::stoi` throws for a Content-Length that
    is no `int`, `substr` for a header value that is blank, and the buffer of `readFixedContent` for
    a length that no vector can have: a negative Content-Length, or the size of a chunk. Nothing
    catches any of them. The condition is stated over the lines and the chunks of the stream. */
module HttpExceptions {
  import opened Machine
  import opened Wrappers
  import opened Numerals
  import opened Wire
  import opened HttpMessages

  /** The lines of a stream, each with its line end. */
  function Lines(s: string): (lines: seq<string>)
    ensures lines == [] <==> s == []
    decreases |s|
  {
    match ReadLineSpec(s)
    case None => []
    case Some((line, rest)) => [line] + Lines(rest)
  }

  /** What is left of a stream behind its first `n` lines. */
  function AfterLines(s: string, n: nat): string
    decreases n
  {
    if n == 0 || s == [] then s else AfterLines(ReadLineSpec(s).value.1, n - 1)
  }

  predicate EndsInCrLf(line: string) {
    |line| >= 2 && line[|line| - 2..] == CRLF
  }

  /** A header line with nothing but white space behind its first ':'. */
  ghost predicate BlankValued(line: string) {
    EndsInCrLf(line) && exists colon :: ColonThenBlanks(line, colon)
  }

  predicate ColonThenBlanks(line: string, colon: int) {
    && 0 <= colon < |line| && line[colon] == ':'
    && (forall k :: 0 <= k < colon ==> line[k] != ':')
    && (forall k :: colon < k < |line| ==> IsBlank(line[k]))
  }

  /** The header loop looks no further: the empty line, or a value that makes `substr` throw. */
  ghost predicate EndsBlock(line: string) {
    line == CRLF || BlankValued(line)
  }

  /** Where the header loop ends; the number of lines if it does not. */
  ghost function BlockEnd(lines: seq<string>): (n: nat)
    ensures n <= |lines| && (n < |lines| ==> EndsBlock(lines[n]))
    ensures forall k :: 0 <= k < n ==> !EndsBlock(lines[k])
  {
    if lines == [] || EndsBlock(lines[0]) then 0
    else
      var n := 1 + BlockEnd(lines[1..]);
      assert forall k :: 0 < k < n ==> lines[k] == lines[1..][k - 1];
      n
  }

  /** The headers in a list of lines; of two with the same key the later one counts. */
  function HeadersIn(lines: seq<string>, headers: HeaderMap): HeaderMap
    decreases |lines|
  {
    if lines == [] then headers else HeadersIn(lines[1..], WithHeader(lines[0], headers))
  }

  function WithHeader(line: string, headers: HeaderMap): HeaderMap {
    if EndsInCrLf(line) && ParseHeaderLine(line).Parsed?
    then headers[ParseHeaderLine(line).header.key := ParseHeaderLine(line).header.value]
    else headers
  }

  lemma {:induction false} TrimLeftAll(s: string)
    ensures TrimLeft(s) == [] <==> forall k :: 0 <= k < |s| ==> IsBlank(s[k])
  {
    if s != [] && IsBlank(s[0]) {
      TrimLeftAll(s[1..]);
      assert forall k :: 0 < k < |s| ==> s[k] == s[1..][k - 1];
    }
  }

  lemma {:induction false} TrimRightAll(s: string)
    requires TrimRight(s) == []
    ensures forall k :: 0 <= k < |s| ==> IsBlank(s[k])
  {
    if s != [] {
      TrimRightAll(s[..|s| - 1]);
    }
  }

  lemma TrimmedAway(s: string)
    ensures TrimRight(TrimLeft(s)) == [] <==> forall k :: 0 <= k < |s| ==> IsBlank(s[k])
  {
    TrimLeftAll(s);
    if TrimRight(TrimLeft(s)) == [] {
      TrimRightAll(TrimLeft(s));
    }
  }

  /** `substr` throws exactly for the lines with a blank value. */
  lemma SubstrThrows(line: string)
    requires EndsInCrLf(line)
    ensures ParseHeaderLine(line) == EmptyValue <==> BlankValued(line)
  {
    var n := FirstColon(line);
    if n < |line| {
      var value := line[n + 1..];
      assert forall k :: 0 <= k < |value| ==> value[k] == line[n + 1 + k];
      assert forall k :: n < k < |line| ==> line[k] == value[k - n - 1];
      TrimmedAway(value);
      hide TrimLeft, TrimRight;
      if ParseHeaderLine(line) == EmptyValue {
        assert ColonThenBlanks(line, n);
      }
    }
  }

  lemma LineKinds(line: string)
    ensures line == CRLF ==> EndsInCrLf(line) && |line| == 2 && !BlankValued(line)
    ensures EndsInCrLf(line) && |line| == 2 ==> line == CRLF
    ensures BlankValued(line) <==> EndsInCrLf(line) && ParseHeaderLine(line) == EmptyValue
  {
    if EndsInCrLf(line) {
      SubstrThrows(line);
    }
    hide ParseHeaderLine;
  }

  /** What the header loop does with one line. */
  lemma BlockStep(s: string, headers: HeaderMap)
    requires s != []
    ensures var (line, rest) := ReadLineSpec(s).value;
            ReadHeadersSpec(s, headers) == if BlankValued(line) then Threw
                                           else if line == CRLF then Read(headers, rest)
                                           else ReadHeadersSpec(rest, WithHeader(line, headers))
  {
    hide ReadLineSpec, BlankValued, ParseHeaderLine;
    LineKinds(ReadLineSpec(s).value.0);
  }

  lemma LinesStep(s: string)
    requires s != []
    ensures var (line, rest) := ReadLineSpec(s).value;
            Lines(s) == [line] + Lines(rest) && Lines(s)[1..] == Lines(rest)
  {
  }

  /** The header loop, by the lines of the stream: it throws at a blank value, ends at the empty
      line with the headers before it and what follows it unread, and fails when there is neither. */
  lemma {:induction false} BlockByLines(s: string, headers: HeaderMap)
    ensures var lines, block := Lines(s), ReadHeadersSpec(s, headers);
            var n := BlockEnd(lines);
            && (block.Cut? <==> n == |lines|)
            && (block.Threw? <==> n < |lines| && BlankValued(lines[n]))
            && (block.Read? ==> n < |lines| && block.headers == HeadersIn(lines[..n], headers))
    decreases |s|
  {
    hide BlankValued, WithHeader, Lines, ReadLineSpec;
    if s == [] {
      NoLines(headers);
    } else {
      hide ReadHeadersSpec;
      var (line, rest) := ReadLineSpec(s).value;
      LineKinds(line);
      BlockStep(s, headers);
      LinesStep(s);
      BlockByLines(rest, WithHeader(line, headers));
      FirstLine(line, Lines(rest), headers);
    }
  }

  /** The header loop leaves what is behind the empty line. */
  lemma {:induction false} BlockLeaves(s: string, headers: HeaderMap)
    requires ReadHeadersSpec(s, headers).Read?
    ensures ReadHeadersSpec(s, headers).rest == AfterLines(s, BlockEnd(Lines(s)) + 1)
    decreases |s|
  {
    hide BlankValued, WithHeader, Lines, ReadLineSpec, AfterLines, ReadHeadersSpec, HeadersIn, BlockEnd;
    if s == [] {
      NoLines(headers);
    } else {
      var (line, rest) := ReadLineSpec(s).value;
      LineKinds(line);
      BlockStep(s, headers);
      LinesStep(s);
      FirstLine(line, Lines(rest), headers);
      LeftBehind(s, BlockEnd(Lines(s)));
      if line != CRLF {
        BlockLeaves(rest, WithHeader(line, headers));
      }
    }
  }

  lemma LeftBehind(s: string, n: nat)
    requires s != []
    ensures var rest := ReadLineSpec(s).value.1;
            AfterLines(s, n + 1) == AfterLines(rest, n) && AfterLines(rest, 0) == rest
  {
  }

  lemma NoLines(headers: HeaderMap)
    ensures Lines([]) == [] && ReadHeadersSpec([], headers) == Cut
  {
  }

  lemma FirstLine(line: string, later: seq<string>, headers: HeaderMap)
    ensures var lines := [line] + later;
            var n := BlockEnd(lines);
            && n == (if EndsBlock(line) then 0 else 1 + BlockEnd(later))
            && HeadersIn(lines[..n], headers) ==
               if n == 0 then headers else HeadersIn(later[..n - 1], WithHeader(line, headers))
  {
    hide EndsBlock, WithHeader;
    var lines := [line] + later;
    var n := BlockEnd(lines);
    assert lines[1..] == later;
    if n > 0 {
      assert lines[..n][0] == line && lines[..n][1..] == later[..n - 1];
    }
  }

  /** The headers have a Content-Length that cannot be used, or announce chunks, and behind whole
      chunks comes the size line of a chunk that no vector can hold. */
  ghost predicate ContentEscapes(headers: HeaderMap, s: string) {
    BodyEscapes(headers) || (IsChunked(headers) && exists k: nat :: HugeChunkAt(s, k))
  }

  lemma ContentThrows(status: string, headers: HeaderMap, s: string)
    ensures BodySpec(status, headers, s) == Escaped <==> ContentEscapes(headers, s)
  {
    hide BodyEscapes, IsChunked, ReadChunkedSpec, HugeChunkAt, WantsClose;
    HugeChunkThrows(s);
  }

  /** The header loop ends at line `n`, at a header with a blank value, or at the empty line with
      headers before it and content behind it that throw. */
  ghost predicate EscapesWith(lines: seq<string>, n: nat, content: string) {
    && 1 <= n < |lines| && (forall k :: 1 <= k < n ==> !EndsBlock(lines[k]))
    && (BlankValued(lines[n]) || (lines[n] == CRLF && ContentEscapes(HeadersIn(lines[1..n], map[]), content)))
  }

  ghost predicate EscapesAt(s: string, n: nat) {
    EscapesWith(Lines(s), n, AfterLines(s, n + 1))
  }

  /** An exception leaves the reading of a response if and only if, behind the status line, a header
      with a blank value comes before any empty line; or the headers before the first empty line
      have a Content-Length that cannot be used; or they announce chunks, and behind whole chunks
      comes the size line of a chunk that no vector can hold. */
  lemma EscapesExactlyWhen(s: string)
    ensures ReadResponseSpec(s) == Escaped <==> exists n :: EscapesAt(s, n)
  {
    hide ReadLineSpec, EscapesWith, AfterStatusSpec, BlockEnd;
    if s != [] {
      LinesStep(s);
      var lines, later := Lines(s), Lines(s)[1..];
      EscapesAtEnd(s, 1 + BlockEnd(later));
      if n: nat :| EscapesAt(s, n) {
        BlockEndIsFirst(lines, later, n, AfterLines(s, n + 1));
      }
    } else {
      NothingEscapes();
    }
  }

  lemma NothingEscapes()
    ensures ReadResponseSpec([]) == Failed && forall n :: !EscapesAt([], n)
  {
  }

  /** The header loop ends at line `m`, so that is the line to look at. */
  lemma EscapesAtEnd(s: string, m: nat)
    requires s != [] && m == 1 + BlockEnd(Lines(s)[1..])
    ensures ReadResponseSpec(s) == Escaped <==> EscapesAt(s, m)
  {
    hide BlankValued, HeadersIn, ContentEscapes, BodySpec, ReadHeadersSpec;
    hide ReadLineSpec, Lines, EscapesWith, AfterLines;
    var (status, rest) := ReadLineSpec(s).value;
    LinesStep(s);
    BlockByLines(rest, map[]);
    LeftBehind(s, m);
    var block := ReadHeadersSpec(rest, map[]);
    if block.Read? {
      BlockLeaves(rest, map[]);
      ContentThrows(status, block.headers, block.rest);
    }
    EscapesBehindStatus(status, Lines(rest), AfterLines(rest, m));
  }

  lemma EscapesBehindStatus(status: string, later: seq<string>, content: string)
    ensures var lines, n := [status] + later, BlockEnd(later);
            EscapesWith(lines, n + 1, content) <==>
            n < |later| && (BlankValued(later[n]) || ContentEscapes(HeadersIn(later[..n], map[]), content))
  {
    hide EndsBlock, BlankValued, HeadersIn, ContentEscapes, BlockEnd;
    var lines, n := [status] + later, BlockEnd(later);
    Shifted(status, later);
    assert lines[1..n + 1] == later[..n];
    if n < |later| {
      assert lines[n + 1] == later[n];
      EndsAtHeader(later[n]);
    }
  }

  lemma Shifted(status: string, later: seq<string>)
    ensures forall k :: 1 <= k < |later| + 1 ==> ([status] + later)[k] == later[k - 1]
  {
  }

  lemma EndsAtHeader(line: string)
    requires EndsBlock(line)
    ensures line == CRLF || BlankValued(line)
  {
  }

  lemma BlockEndIsFirst(lines: seq<string>, later: seq<string>, n: nat, content: string)
    requires lines != [] && lines[1..] == later && EscapesWith(lines, n, content)
    ensures n == 1 + BlockEnd(later)
  {
    assert forall k :: 1 <= k < |lines| ==> lines[k] == later[k - 1];
    OnlyOneEnd(lines, 1 + BlockEnd(later), n, content);
  }

  lemma OnlyOneEnd(lines: seq<string>, m: nat, n: nat, content: string)
    requires 1 <= m <= |lines| && (forall k :: 1 <= k < m ==> !EndsBlock(lines[k]))
    requires m < |lines| ==> EndsBlock(lines[m])
    requires EscapesWith(lines, n, content)
    ensures m == n
  {
    hide BlankValued, HeadersIn, ContentEscapes;
  }

  // ----- Requests

  /** Behind the request line, line `n` is the first that is empty or has a blank value. */
  ghost predicate HeadersEndAt(s: string, n: nat) {
    var lines := Lines(s);
    1 <= n < |lines| && EndsBlock(lines[n]) && forall k :: 1 <= k < n ==> !EndsBlock(lines[k])
  }

  /** A Content-Length that is no `int`, or negative. */
  predicate Unusable(headers: HeaderMap) {
    "Content-Length" in headers &&
    (Stoi(headers["Content-Length"]) == None || Stoi(headers["Content-Length"]).value < 0)
  }

  lemma ContentCrashes(headers: HeaderMap, s: string)
    ensures ReadContentSpec(headers, s) == Crashed <==> Unusable(headers)
    ensures ReadContentSpec(headers, s) != Dropped
  {
    hide Stoi, WantsClose;
    StoiZero();
  }

  lemma EndOfHeaders(s: string, n: nat)
    requires HeadersEndAt(s, n)
    ensures s != [] && n == 1 + BlockEnd(Lines(s)[1..]) && n < |Lines(s)|
    ensures Lines(s)[1..] == Lines(ReadLineSpec(s).value.1) && Lines(s)[0] == ReadLineSpec(s).value.0
    ensures Lines(s)[n] == CRLF || BlankValued(Lines(s)[n])
    ensures Lines(s)[1..][n - 1] == Lines(s)[n] && Lines(s)[1..][..n - 1] == Lines(s)[1..n]
  {
    hide EndsBlock, ReadLineSpec;
    LinesStep(s);
    var later := Lines(s)[1..];
    assert forall k :: 1 <= k < |Lines(s)| ==> Lines(s)[k] == later[k - 1];
    EndsAtHeader(Lines(s)[n]);
  }

  /** A POST request whose headers end: the handler throws if they end at a header with a blank value,
      or at the empty line with a Content-Length before it that cannot be used; otherwise it goes on
      to the content behind the empty line. */
  lemma RequestByLines(s: string, n: nat)
    requires HeadersEndAt(s, n) && FirstToken(Lines(s)[0]) == "POST"
    ensures var headers := HeadersIn(Lines(s)[1..n], map[]);
            && (ReadRequestSpec(s) == Crashed <==> BlankValued(Lines(s)[n]) || Unusable(headers))
            && (!BlankValued(Lines(s)[n]) ==> ReadRequestSpec(s) == ReadContentSpec(headers, AfterLines(s, n + 1)))
  {
    hide BlankValued, HeadersIn, ReadHeadersSpec, ReadLineSpec, Lines, AfterLines, FirstToken;
    hide ReadContentSpec, Unusable, HeadersEndAt;
    EndOfHeaders(s, n);
    var rest := ReadLineSpec(s).value.1;
    BlockByLines(rest, map[]);
    LeftBehind(s, n);
    if ReadHeadersSpec(rest, map[]).Read? {
      BlockLeaves(rest, map[]);
    }
    ContentCrashes(HeadersIn(Lines(s)[1..n], map[]), AfterLines(s, n + 1));
  }

  /** Any other stream is dropped: it is empty, its first word is not POST, or its headers do not end. */
  lemma OtherwiseDropped(s: string)
    requires s == [] || FirstToken(Lines(s)[0]) != "POST" || forall n :: !HeadersEndAt(s, n)
    ensures ReadRequestSpec(s) == Dropped
  {
    hide BlankValued, HeadersIn, ReadHeadersSpec, ReadLineSpec, FirstToken, ReadContentSpec;
    if s != [] {
      var (line, rest) := ReadLineSpec(s).value;
      LinesStep(s);
      BlockByLines(rest, map[]);
      var later := Lines(s)[1..];
      assert forall k :: 1 <= k < |Lines(s)| ==> Lines(s)[k] == later[k - 1];
      if BlockEnd(later) < |later| {
        assert HeadersEndAt(s, 1 + BlockEnd(later));
      }
    }
  }

  // ----- Such streams

  /** A first header without a value is enough. */
  lemma BlankHeaderEscapes(status: string, key: string, rest: string)
    requires OneLine(status) && OneLine(key) && ':' !in key
    ensures ReadResponseSpec(status + CRLF + key + ":" + CRLF + rest) == Escaped
  {
    hide ReadLineSpec, ParseHeaderLine, ReadHeadersSpec, BodySpec;
    var text := key + ":";
    var tail := text + CRLF + rest;
    ReadLineCrLf(status, tail);
    ReadLineCrLf(text, rest);
    assert status + CRLF + key + ":" + CRLF + rest == status + CRLF + tail;
    KeyOnly(key);
    BlockStep(tail, map[]);
  }

  lemma KeyOnly(key: string)
    requires ':' !in key
    ensures BlankValued(key + ":" + CRLF)
  {
    assert ColonThenBlanks(key + ":" + CRLF, |key|);
  }

  /** A response with proper headers escapes exactly when its Content-Length cannot be used, or one of
      its chunks cannot be held. */
  lemma PrintedHeadersEscape(status: string, hs: seq<Header>, rest: string)
    requires OneLine(status) && forall k :: 0 <= k < |hs| ==> Printable(hs[k])
    ensures ReadResponseSpec(status + CRLF + PrintHeaders(hs) + CRLF + rest) == Escaped <==>
            ContentEscapes(AddAll(map[], hs), rest)
  {
    hide ReadLineSpec, ReadHeadersSpec, PrintHeaders, ContentEscapes, BodySpec, AddAll, Printable;
    ContentThrows(status + CRLF, AddAll(map[], hs), rest);
    var tail := PrintHeaders(hs) + CRLF + rest;
    ReadLineCrLf(status, tail);
    PrintedHeadersAreRead(hs, rest, map[]);
    assert status + CRLF + PrintHeaders(hs) + CRLF + rest == status + CRLF + tail;
  }

  /** A Content-Length that `stoi` cannot read throws even though the content is chunked and the
      length is never used. */
  lemma ChunkedEscapes(status: string, length: string, rest: string)
    requires OneLine(status) && Printable(Header("Content-Length", length)) && Stoi(length) == None
    ensures var hs := [Header("Transfer-Encoding", "chunked"), Header("Content-Length", length)];
            && IsChunked(AddAll(map[], hs))
            && ReadResponseSpec(status + CRLF + PrintHeaders(hs) + CRLF + rest) == Escaped
  {
    hide ReadResponseSpec, Stoi, PrintHeaders, Printable, AddAll;
    var hs := [Header("Transfer-Encoding", "chunked"), Header("Content-Length", length)];
    TwoHeaders(hs[0], hs[1]);
    ChunkedIsPrintable();
    PrintedHeadersEscape(status, hs, rest);
  }

  /** A chunk size that no vector can have throws, with nothing wrong in the headers: here in the first
      chunk. */
  lemma HugeSizeEscapes(status: string, size: string, rest: string)
    requires OneLine(status) && OneLine(size) && StrToULHex(size + CRLF) > VECTOR_MAX
    ensures var hs := [Header("Transfer-Encoding", "chunked")];
            && !BodyEscapes(AddAll(map[], hs))
            && ReadResponseSpec(status + CRLF + PrintHeaders(hs) + CRLF + (size + CRLF + rest)) == Escaped
  {
    hide ReadResponseSpec, Stoi, PrintHeaders, Printable, AddAll, ReadLineSpec, StrToULHex;
    var hs := [Header("Transfer-Encoding", "chunked")];
    OneHeader(hs[0]);
    ChunkedIsPrintable();
    StoiZero();
    ReadLineCrLf(size, rest);
    assert HugeChunkAt(size + CRLF + rest, 0);
    PrintedHeadersEscape(status, hs, size + CRLF + rest);
  }

  lemma OneHeader(h: Header)
    ensures AddAll(map[], [h]) == map[h.key := h.value]
  {
    assert [h][1..] == [];
  }

  /** Such a size is -1, which `strtoul` reads as the largest number there is. */
  lemma MinusOne()
    ensures OneLine("-1") && StrToULHex("-1" + CRLF) == SIZE_MAX
  {
    var u := "1" + CRLF;
    assert ("-1" + CRLF)[1..] == u && SkipSpace("-1" + CRLF) == "-1" + CRLF;
    OneIsRead(u);
    hide UnsignedHex;
  }

  lemma OneIsRead(u: string)
    requires u == "1" + CRLF
    ensures UnsignedHex(u) == 1
  {
    LeadingDigitsStop("1", CRLF, 16);
    UnprefixedHex(u, 1);
    assert u[..1] == "1" && "1"[..0] == "";
  }

  lemma TwoHeaders(first: Header, second: Header)
    ensures AddAll(map[], [first, second]) == map[first.key := first.value][second.key := second.value]
  {
    var headers: HeaderMap := map[first.key := first.value];
    assert [first, second][1..] == [second] && [second][1..] == [];
    assert AddAll(headers, [second]) == headers[second.key := second.value];
  }

  lemma ChunkedIsPrintable()
    ensures Printable(Header("Transfer-Encoding", "chunked"))
  {
  }

  /** For example this one. */
  lemma NoLength()
    ensures Printable(Header("Content-Length", "none")) && Stoi("none") == None
  {
    assert LeadingDigits("none", 10) == 0;
  }
}
