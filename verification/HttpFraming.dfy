/** What a message says, by its text: where its lines, headers, chunks and content begin and end,
    written out without the readers. */
module HttpFraming {
  import opened Machine
  import opened Wrappers
  import opened Numerals
  import opened Wire
  import opened HttpMessages

  // ----- Chunks

  predicate IsLine(line: string) {
    line != "" && line[|line| - 1] == '\n' && forall k :: 0 <= k < |line| - 1 ==> line[k] != '\n'
  }

  lemma LineIsRead(line: string, rest: string)
    requires IsLine(line)
    ensures ReadLineSpec(line + rest) == Some((line, rest))
  {
    ReadLineAt(line, rest);
  }

  /** What is read is a line, unless the stream ends with it. */
  lemma ReadsLine(s: string)
    requires s != ""
    ensures var (line, rest) := ReadLineSpec(s).value; s == line + rest && (rest != "" ==> IsLine(line))
  {
  }

  /** A size line, and as many bytes behind it as it says. */
  datatype Piece = Piece(line: string, data: string)

  predicate PieceOk(p: Piece) {
    IsLine(p.line) && 0 < |p.data| <= VECTOR_MAX && StrToULHex(p.line) == |p.data|
  }

  predicate LastOk(line: string) {
    IsLine(line) && StrToULHex(line) == 0
  }

  lemma PieceIsRead(p: Piece, rest: string)
    requires PieceOk(p)
    ensures ChunkRound(p.line + p.data + "\r\n" + rest) == More(p.data, rest)
  {
    hide StrToULHex, ReadLineSpec;
    var body := p.data + ("\r\n" + rest);
    assert p.line + p.data + "\r\n" + rest == p.line + body;
    LineIsRead(p.line, body);
    TakeDrop(p.data, "\r\n" + rest);
    LineIsRead("\r\n", rest);
  }

  lemma LastIsRead(line: string, rest: string)
    requires LastOk(line)
    ensures ChunkRound(line + "\r\n" + rest) == Last(rest)
  {
    hide StrToULHex, ReadLineSpec;
    var body := "\r\n" + rest;
    assert line + "\r\n" + rest == line + body;
    LineIsRead(line, body);
    ReadFixedNothing(body);
    LineIsRead("\r\n", rest);
  }

  lemma RoundParts(s: string)
    requires ChunkRound(s).More? || ChunkRound(s).Last?
    ensures exists line, data ::
              && IsLine(line) && StrToULHex(line) == |data| <= VECTOR_MAX
              && s == line + data + "\r\n" + ChunkRound(s).rest
              && (ChunkRound(s).More? ==> ChunkRound(s).chunk == data != "")
              && (ChunkRound(s).Last? ==> data == "")
  {
    hide StrToULHex, ReadLineSpec;
    var (line, s1) := ReadLineSpec(s).value;
    var (data, s2) := ReadFixedSpec(s1, StrToULHex(line)).value;
    ReadsLine(s);
    ReadsLine(s2);
    var end, s3 := ReadLineSpec(s2).value.0, ReadLineSpec(s2).value.1;
    assert s == line + data + "\r\n" + s3;
  }

  /** A round takes off a size line, as many bytes as it says, and an empty line, and nothing else is
      a round. */
  lemma RoundExactly(s: string, data: string, rest: string)
    ensures ChunkRound(s) == More(data, rest) <==>
            exists p :: PieceOk(p) && p.data == data && s == p.line + data + "\r\n" + rest
    ensures ChunkRound(s) == Last(rest) <==> exists line :: LastOk(line) && s == line + "\r\n" + rest
  {
    hide StrToULHex, ChunkRound;
    if ChunkRound(s) == More(data, rest) {
      RoundParts(s);
      var line, d :|
        IsLine(line) && StrToULHex(line) == |d| <= VECTOR_MAX && s == line + d + "\r\n" + rest && d == data;
      assert PieceOk(Piece(line, data));
    }
    if ChunkRound(s) == Last(rest) {
      RoundParts(s);
      var line, d :| IsLine(line) && StrToULHex(line) == |d| && s == line + d + "\r\n" + rest && d == "";
      assert line + "" + "\r\n" + rest == line + "\r\n" + rest;
      assert LastOk(line);
    }
    if p :| PieceOk(p) && p.data == data && s == p.line + data + "\r\n" + rest {
      PieceIsRead(p, rest);
    }
    if line :| LastOk(line) && s == line + "\r\n" + rest {
      LastIsRead(line, rest);
    }
  }

  function TextOf(ps: seq<Piece>): string {
    if ps == [] then "" else ps[0].line + ps[0].data + "\r\n" + TextOf(ps[1..])
  }

  function DataOf(ps: seq<Piece>): string {
    if ps == [] then "" else ps[0].data + DataOf(ps[1..])
  }

  /** The pieces and a last line of size 0, with an empty line behind it. */
  predicate ReadsAs(s: string, ps: seq<Piece>, last: string, data: string, rest: string) {
    && (forall k :: 0 <= k < |ps| ==> PieceOk(ps[k])) && LastOk(last)
    && s == TextOf(ps) + last + "\r\n" + rest && data == DataOf(ps)
  }

  lemma {:induction false} PiecesAreRead(ps: seq<Piece>, last: string, rest: string)
    requires (forall k :: 0 <= k < |ps| ==> PieceOk(ps[k])) && LastOk(last)
    ensures ReadChunkedSpec(TextOf(ps) + last + "\r\n" + rest) == Got(DataOf(ps), rest)
    decreases |ps|
  {
    hide PieceOk, LastOk, ChunkRound;
    if ps == [] {
      LastIsRead(last, rest);
      assert "" + last + "\r\n" + rest == last + "\r\n" + rest;
    } else {
      var later := TextOf(ps[1..]) + last + "\r\n" + rest;
      PieceIsRead(ps[0], later);
      assert TextOf(ps) + last + "\r\n" + rest == ps[0].line + ps[0].data + "\r\n" + later;
      PiecesAreRead(ps[1..], last, rest);
    }
  }

  lemma {:induction false} ReadAsPieces(s: string) returns (ps: seq<Piece>, last: string)
    requires ReadChunkedSpec(s).Got?
    ensures ReadsAs(s, ps, last, ReadChunkedSpec(s).data, ReadChunkedSpec(s).rest)
    decreases |s|
  {
    hide PieceOk, LastOk, ChunkRound;
    var round := ChunkRound(s);
    if round.Last? {
      RoundExactly(s, "", round.rest);
      ps := [];
      last :| LastOk(last) && s == last + "\r\n" + round.rest;
      assert "" + last + "\r\n" + round.rest == last + "\r\n" + round.rest;
    } else {
      RoundExactly(s, round.chunk, round.rest);
      var p :| PieceOk(p) && p.data == round.chunk && s == p.line + round.chunk + "\r\n" + round.rest;
      var later;
      later, last := ReadAsPieces(round.rest);
      ps := [p] + later;
      assert ps[1..] == later;
      var rest := ReadChunkedSpec(s).rest;
      assert s == p.line + p.data + "\r\n" + (TextOf(later) + last + "\r\n" + rest);
      assert TextOf(ps) + last + "\r\n" + rest == p.line + p.data + "\r\n" + (TextOf(later) + last + "\r\n" + rest);
    }
  }

  /** Chunked content is exactly: size lines, each with as many bytes as it says and an empty line
      behind them, up to a size line that says 0 and an empty line. Its data are those bytes. */
  lemma ChunkedExactly(s: string, data: string, rest: string)
    ensures ReadChunkedSpec(s) == Got(data, rest) <==> exists ps, last :: ReadsAs(s, ps, last, data, rest)
  {
    hide ReadChunkedSpec, TextOf, DataOf, LastOk, PieceOk;
    if ReadChunkedSpec(s) == Got(data, rest) {
      var ps, last := ReadAsPieces(s);
      assert ReadsAs(s, ps, last, data, rest);
    }
    if ps, last :| ReadsAs(s, ps, last, data, rest) {
      PiecesAreRead(ps, last, rest);
    }
  }

  // ----- Header lines

  const BLANKS: string := " \t\r\n"

  predicate AllBlanks(s: string) {
    forall k :: 0 <= k < |s| ==> s[k] in BLANKS
  }

  lemma BlankTable(c: char)
    ensures IsBlank(c) <==> c in BLANKS
  {
  }

  lemma {:induction false} LeftTrimmed(before: string, s: string)
    requires AllBlanks(before) && (s != "" ==> s[0] !in BLANKS)
    ensures TrimLeft(before + s) == s
    decreases |before|
  {
    if before == "" {
      assert before + s == s;
      if s != "" { BlankTable(s[0]); }
    } else {
      BlankTable(before[0]);
      assert (before + s)[1..] == before[1..] + s;
      LeftTrimmed(before[1..], s);
    }
  }

  lemma {:induction false} RightTrimmed(s: string, after: string)
    requires AllBlanks(after) && (s != "" ==> s[|s| - 1] !in BLANKS)
    ensures TrimRight(s + after) == s
    decreases |after|
  {
    if after == "" {
      assert s + after == s;
      if s != "" { BlankTable(s[|s| - 1]); }
    } else {
      var n := |after| - 1;
      BlankTable(after[n]);
      assert (s + after)[..|s| + n] == s + after[..n];
      RightTrimmed(s, after[..n]);
    }
  }

  /** A header line is its key, a colon, and its value between blanks; without a value it makes
      `substr` throw, and without a colon it is none. */
  lemma HeaderLineParts(key: string, before: string, value: string, after: string)
    requires ':' !in key && AllBlanks(before) && AllBlanks(after)
    requires value != "" ==> value[0] !in BLANKS && value[|value| - 1] !in BLANKS
    ensures ParseHeaderLine(key + ":" + before + value + after) ==
            if value == "" then EmptyValue else Parsed(Header(key, value))
    ensures ParseHeaderLine(key) == NoColon
  {
    hide AllBlanks, TrimLeft, TrimRight;
    NoColonAnywhere(key);
    var text := before + value + after;
    var line := key + ":" + text;
    assert key + ":" + before + value + after == line;
    FirstColonAt(key, text);
    assert line[..|key|] == key && line[|key| + 1..] == text;
    if value != "" {
      assert text == before + (value + after) && (value + after)[0] == value[0];
      LeftTrimmed(before, value + after);
      RightTrimmed(value, after);
    } else {
      OnlyBlanks(before, after);
      assert text == (before + after) + "";
      LeftTrimmed(before + after, "");
      RightTrimmed("", "");
      assert "" + "" == "";
    }
  }

  lemma OnlyBlanks(before: string, after: string)
    requires AllBlanks(before) && AllBlanks(after)
    ensures AllBlanks(before + after) && AllBlanks("")
  {
  }

  lemma NoColonAnywhere(s: string)
    requires ':' !in s
    ensures FirstColon(s) == |s|
  {
  }

  // ----- Printed messages

  function LengthText(content: string): string {
    if content == "" then "" else "Content-Length: " + Decimal(|content|) + "\r\n"
  }

  /** What `doRequest` prints, written out. */
  lemma RequestText(r: Request, host: string)
    ensures var headers := "Host: " + host + "\r\n" + PrintHeaders(r.headers) + LengthText(r.content);
            PrintRequest(r, host) == r.method_ + " " + r.path + " HTTP/1.1\r\n" + headers + "\r\n" + r.content
    ensures PrintHeaders([]) == ""
  {
    AllHeadersText(r, host);
    hide PrintHeaders, AllHeaders, LengthText;
    var start := r.method_ + " " + r.path;
    assert start + " HTTP/1.1" + CRLF == start + " HTTP/1.1\r\n";
  }

  lemma AllHeadersText(r: Request, host: string)
    ensures PrintHeaders(AllHeaders(r, host)) ==
            "Host: " + host + "\r\n" + PrintHeaders(r.headers) + LengthText(r.content)
    ensures PrintHeaders([]) == ""
  {
    NoHeadersText();
    hide Decimal, PrintHeaders;
    var first := [Header("Host", host)];
    var length := if r.content == "" then [] else [Header("Content-Length", Decimal(|r.content|))];
    PrintHeadersAppend(first + r.headers, length);
    PrintHeadersAppend(first, r.headers);
    PrintOneHeader(first[0]);
    if r.content != "" { PrintOneHeader(length[0]); }
  }

  lemma NoHeadersText()
    ensures PrintHeaders([]) == ""
  {
  }

  lemma HeadersText(hs: seq<Header>, h: Header)
    ensures PrintHeaders(hs + [h]) == PrintHeaders(hs) + h.key + ": " + h.value + "\r\n"
  {
    PrintHeadersAppend(hs, [h]);
    PrintOneHeader(h);
    hide PrintHeaders;
  }

  // ----- Responses

  ghost predicate Lists(hs: seq<Header>, key: string, value: string) {
    exists k :: 0 <= k < |hs| && hs[k] == Header(key, value)
  }

  /** The map holds exactly these headers. */
  predicate HoldsHeaders(headers: HeaderMap, hs: seq<Header>) {
    && (forall k :: 0 <= k < |hs| ==> hs[k].key in headers && headers[hs[k].key] == hs[k].value)
    && forall key :: key in headers ==> HasKey(hs, key)
  }

  /** The response with this status line and these headers. */
  ghost predicate Says(r: Response, status: string, hs: seq<Header>, content: string, chunked: bool) {
    && r.status == status + "\r\n" && HoldsHeaders(r.headers, hs) && r.content == content
    && r.chunked == chunked && (r.reconnect <==> Lists(hs, "Connection", "close"))
  }

  lemma ListedValue(headers: HeaderMap, hs: seq<Header>, key: string, value: string)
    requires HoldsHeaders(headers, hs)
    ensures Lists(hs, key, value) <==> key in headers && headers[key] == value
  {
    if key in headers && headers[key] == value {
      assert HasKey(hs, key);
      var k :| 0 <= k < |hs| && hs[k].key == key;
      assert hs[k] == Header(key, value);
    }
  }

  lemma HeadersHeld(hs: seq<Header>)
    requires DistinctKeys(hs)
    ensures HoldsHeaders(AddAll(map[], hs), hs)
  {
    AddAllLookup(map[], hs);
  }

  lemma Grouped(a: string, b: string, c: string, d: string)
    ensures a + b + c + d == a + (b + c + d)
  {
  }

  /** The head of a response leaves its body to be read by its headers. */
  lemma ResponseHead(status: string, hs: seq<Header>, body: string)
    requires OneLine(status) && DistinctKeys(hs) && forall k :: 0 <= k < |hs| ==> Printable(hs[k])
    ensures var headers := AddAll(map[], hs);
            && HoldsHeaders(headers, hs)
            && ReadResponseSpec(status + "\r\n" + PrintHeaders(hs) + "\r\n" + body) ==
               BodySpec(status + "\r\n", headers, body)
  {
    hide HoldsHeaders, ReadLineSpec, ReadHeadersSpec, BodySpec, AddAll, Printable, PrintHeaders;
    var tail := PrintHeaders(hs) + CRLF + body;
    ReadLineCrLf(status, tail);
    PrintedHeadersAreRead(hs, body, map[]);
    HeadersHeld(hs);
    Grouped(status + "\r\n", PrintHeaders(hs), "\r\n", body);
  }

  /** A Content-Length, and no chunks: so many bytes are the content, and the rest is left. */
  lemma FixedResponseIsRead(status: string, hs: seq<Header>, content: string, rest: string)
    requires OneLine(status) && DistinctKeys(hs) && forall k :: 0 <= k < |hs| ==> Printable(hs[k])
    requires Lists(hs, "Content-Length", Decimal(|content|)) && |content| <= INT_MAX
    requires !Lists(hs, "Transfer-Encoding", "chunked")
    ensures var reply := ReadResponseSpec(status + "\r\n" + PrintHeaders(hs) + "\r\n" + (content + rest));
            reply.Reply? && Says(reply.response, status, hs, content, false) && reply.rest == rest
  {
    hide HoldsHeaders, Lists, AddAll, Printable, PrintHeaders, ReadResponseSpec, Decimal, Stoi;
    ResponseHead(status, hs, content + rest);
    var headers := AddAll(map[], hs);
    ListedValue(headers, hs, "Content-Length", Decimal(|content|));
    ListedValue(headers, hs, "Transfer-Encoding", "chunked");
    ListedValue(headers, hs, "Connection", "close");
    StoiDecimal(|content|, "");
    assert Decimal(|content|) + "" == Decimal(|content|);
    TakeDrop(content, rest);
  }

  /** Chunks, with a readable Content-Length or none: the data of the chunks are the content. */
  lemma ChunkedResponseIsRead(status: string, hs: seq<Header>, s: string, ps: seq<Piece>, last: string,
                              content: string, rest: string, n: nat)
    requires OneLine(status) && DistinctKeys(hs) && forall k :: 0 <= k < |hs| ==> Printable(hs[k])
    requires Lists(hs, "Transfer-Encoding", "chunked")
    requires HasKey(hs, "Content-Length") ==> Lists(hs, "Content-Length", Decimal(n)) && n <= INT_MAX
    requires ReadsAs(s, ps, last, content, rest)
    ensures var reply := ReadResponseSpec(status + "\r\n" + PrintHeaders(hs) + "\r\n" + s);
            reply.Reply? && Says(reply.response, status, hs, content, true) && reply.rest == rest
  {
    hide HoldsHeaders, Lists, AddAll, Printable, PrintHeaders, ReadResponseSpec, Decimal, ReadsAs, HasKey, BodySpec;
    ResponseHead(status, hs, s);
    var headers := AddAll(map[], hs);
    ListedValue(headers, hs, "Content-Length", Decimal(n));
    ListedValue(headers, hs, "Transfer-Encoding", "chunked");
    ListedValue(headers, hs, "Connection", "close");
    ReadableLength(headers, hs, n);
    ChunkedExactly(s, content, rest);
    ChunkedBody(status + "\r\n", headers, s);
  }

  lemma ChunkedBody(status: string, headers: HeaderMap, s: string)
    requires "Transfer-Encoding" in headers && headers["Transfer-Encoding"] == "chunked"
    requires ContentLength(headers).Some? && ReadChunkedSpec(s).Got?
    ensures var reply := BodySpec(status, headers, s);
            && reply.Reply? && reply.rest == ReadChunkedSpec(s).rest
            && reply.response.content == ReadChunkedSpec(s).data
            && reply.response.status == status && reply.response.headers == headers && reply.response.chunked
            && (reply.response.reconnect <==> "Connection" in headers && headers["Connection"] == "close")
  {
    hide ContentLength, ReadChunkedSpec;
  }

  lemma ReadableLength(headers: HeaderMap, hs: seq<Header>, n: nat)
    requires HoldsHeaders(headers, hs)
    requires HasKey(hs, "Content-Length") ==>
               "Content-Length" in headers && headers["Content-Length"] == Decimal(n) && n <= INT_MAX
    ensures ContentLength(headers).Some?
  {
    hide Decimal, Stoi;
    StoiZero();
    if n <= INT_MAX {
      StoiDecimal(n, "");
      assert Decimal(n) + "" == Decimal(n);
    }
  }

  /** Neither: everything up to the end of the stream is the content. */
  lemma OpenResponseIsRead(status: string, hs: seq<Header>, content: string)
    requires OneLine(status) && DistinctKeys(hs) && forall k :: 0 <= k < |hs| ==> Printable(hs[k])
    requires !Lists(hs, "Transfer-Encoding", "chunked") && !HasKey(hs, "Content-Length")
    ensures var reply := ReadResponseSpec(status + "\r\n" + PrintHeaders(hs) + "\r\n" + content);
            reply.Reply? && Says(reply.response, status, hs, content, false) && reply.rest == ""
  {
    hide Lists, AddAll, Printable, PrintHeaders, ReadResponseSpec, Stoi, HasKey;
    ResponseHead(status, hs, content);
    var headers := AddAll(map[], hs);
    ListedValue(headers, hs, "Transfer-Encoding", "chunked");
    ListedValue(headers, hs, "Connection", "close");
    StoiZero();
  }

  /** A Content-Length beyond the end of the stream: the response is refused. */
  lemma CutResponseFails(status: string, hs: seq<Header>, content: string, n: nat)
    requires OneLine(status) && DistinctKeys(hs) && forall k :: 0 <= k < |hs| ==> Printable(hs[k])
    requires Lists(hs, "Content-Length", Decimal(n)) && |content| < n <= INT_MAX
    requires !Lists(hs, "Transfer-Encoding", "chunked")
    ensures ReadResponseSpec(status + "\r\n" + PrintHeaders(hs) + "\r\n" + content) == Failed
  {
    hide HoldsHeaders, Lists, AddAll, Printable, PrintHeaders, ReadResponseSpec, Decimal, Stoi;
    ResponseHead(status, hs, content);
    var headers := AddAll(map[], hs);
    ListedValue(headers, hs, "Content-Length", Decimal(n));
    ListedValue(headers, hs, "Transfer-Encoding", "chunked");
    StoiDecimal(n, "");
    assert Decimal(n) + "" == Decimal(n);
  }

  // ----- Requests that are not what they should be

  /** A request whose first word is not POST is dropped, whatever follows. */
  lemma OnlyPost(blanks: string, word: string, after: string)
    requires (forall k :: 0 <= k < |blanks| ==> IsSpace(blanks[k]))
    requires word != "" && forall k :: 0 <= k < |word| ==> !IsSpace(word[k])
    requires after != "" && IsSpace(after[0])
    ensures FirstToken(blanks + word + after) == word
  {
    hide IsSpace, SkipSpace, TokenLength;
    SpaceSkipped(blanks, word + after);
    assert blanks + word + after == blanks + (word + after);
    TokenLengthAt(word, after);
    assert (word + after)[..|word|] == word;
  }

  lemma {:induction false} SpaceSkipped(blanks: string, t: string)
    requires (forall k :: 0 <= k < |blanks| ==> IsSpace(blanks[k])) && t != "" && !IsSpace(t[0])
    ensures SkipSpace(blanks + t) == t
    decreases |blanks|
  {
    hide IsSpace;
    if blanks == "" {
      assert blanks + t == t;
    } else {
      assert (blanks + t)[1..] == blanks[1..] + t;
      SpaceSkipped(blanks[1..], t);
    }
  }

  lemma NotPostIsDropped(blanks: string, word: string, after: string, rest: string)
    requires (forall k :: 0 <= k < |blanks| ==> IsSpace(blanks[k]))
    requires word != "" && forall k :: 0 <= k < |word| ==> !IsSpace(word[k])
    requires after != "" && IsSpace(after[0]) && IsLine(blanks + word + after) && word != "POST"
    ensures ReadRequestSpec(blanks + word + after + rest) == Dropped
  {
    hide IsLine, IsSpace, FirstToken, ReadLineSpec, ReadHeadersSpec;
    OnlyPost(blanks, word, after);
    LineIsRead(blanks + word + after, rest);
  }

  /** The text of a request in front of its content. */
  function HeadText(r: Request, host: string): string {
    r.method_ + " " + r.path + " HTTP/1.1\r\n" +
    ("Host: " + host + "\r\n" + PrintHeaders(r.headers) + LengthText(r.content)) + "\r\n"
  }

  lemma HeadIsRead(r: Request, host: string, body: string)
    requires RequestWellFormed(r, host)
    ensures var headers := AddAll(map[], AllHeaders(r, host));
            ReadRequestSpec(HeadText(r, host) + body) == ReadContentSpec(headers, body)
  {
    hide ReadLineSpec, ReadHeadersSpec, FirstToken, AddAll, Printable, HasKey, ReadContentSpec;
    var hs := AllHeaders(r, host);
    var line := r.method_ + " " + r.path + " HTTP/1.1" + CRLF;
    var tail := PrintHeaders(hs) + CRLF + body;
    RequestLineIsRead(r, tail);
    AllHeadersAreWellFormed(r, host);
    PrintedHeadersAreRead(hs, body, map[]);
    AllHeadersText(r, host);
    hide AllHeaders, PrintHeaders, LengthText;
    assert line == r.method_ + " " + r.path + " HTTP/1.1\r\n";
    Grouped(line, PrintHeaders(hs), CRLF, body);
  }

  /** A request whose body is cut short by the end of the stream is accepted with no content at all,
      and nothing is left. */
  lemma ShortRequestIsAccepted(r: Request, host: string, body: string)
    requires RequestWellFormed(r, host) && |body| < |r.content|
    ensures var incoming := ReadRequestSpec(HeadText(r, host) + body);
            && incoming.Accepted? && incoming.method_ == "POST" && incoming.content == "" && incoming.rest == ""
            && HeadersMatch(incoming.headers, r, host)
    ensures PrintRequest(r, host) == HeadText(r, host) + r.content
  {
    hide HeadersMatch, AllHeaders, HeadText, HasKey, Printable, AddAll, ContentLength, WantsClose;
    HeadIsRead(r, host, body);
    HeadersOfRequest(r, host);
    ContentLengthIsRead(r, host, AddAll(map[], AllHeaders(r, host)));
    PrintedHead(r, host);
  }

  lemma PrintedHead(r: Request, host: string)
    ensures PrintRequest(r, host) == HeadText(r, host) + r.content
  {
    hide PrintRequest, PrintHeaders, LengthText;
    RequestText(r, host);
  }
}
