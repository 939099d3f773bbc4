/** HTTP/1.1 messages: how `doRequest` prints a request, how `clientHandler` reads one back, and
    how `doRequest` frames a response. Everything here is a function of the byte stream. */
module HttpMessages {
  import opened Machine
  import opened Wrappers
  import opened Numerals
  import opened Wire

  // ----- Header lines

  type HeaderMap = map<string, string>

  datatype Header = Header(key: string, value: string)

  predicate IsBlank(c: char) {
    c == ' ' || c == '\t' || c == '\r' || c == '\n'
  }

  /** The index of the first ':' of `s`, or its length. */
  function FirstColon(s: string): (n: nat)
    ensures n <= |s|
    ensures n < |s| ==> s[n] == ':'
    ensures forall k :: 0 <= k < n ==> s[k] != ':'
  {
    if s == [] || s[0] == ':' then 0 else 1 + FirstColon(s[1..])
  }

  function TrimLeft(s: string): (r: string)
    ensures |r| <= |s| && (r != [] ==> !IsBlank(r[0]))
  {
    if s != [] && IsBlank(s[0]) then TrimLeft(s[1..]) else s
  }

  function TrimRight(s: string): (r: string)
    ensures r <= s && (r != [] ==> !IsBlank(r[|r| - 1]))
  {
    if s != [] && IsBlank(s[|s| - 1]) then TrimRight(s[..|s| - 1]) else s
  }

  /** `parseHeaderLine`: a line without ':' is skipped; a value that is all white space makes
      `substr` throw; otherwise the trimmed value is stored under the text before the ':'. */
  datatype HeaderLine = NoColon | EmptyValue | Parsed(header: Header)

  function ParseHeaderLine(line: string): HeaderLine {
    var n := FirstColon(line);
    if n == |line| then NoColon
    else
      var value := TrimRight(TrimLeft(line[n + 1..]));
      if value == [] then EmptyValue else Parsed(Header(line[..n], value))
  }

  function GetHeaderValue(headers: HeaderMap, key: string, defaultValue: string): string {
    if key in headers then headers[key] else defaultValue
  }

  /** A header that survives being printed on a line and parsed back. */
  predicate Printable(h: Header) {
    && OneLine(h.key) && ':' !in h.key
    && OneLine(h.value) && h.value != []
    && !IsBlank(h.value[0]) && !IsBlank(h.value[|h.value| - 1])
  }

  function PrintHeader(h: Header): string {
    h.key + ": " + h.value
  }

  lemma {:induction false} FirstColonAt(key: string, rest: string)
    requires ':' !in key
    ensures FirstColon(key + ":" + rest) == |key|
  {
    if key != [] {
      assert (key + ":" + rest)[1..] == key[1..] + ":" + rest;
      FirstColonAt(key[1..], rest);
    }
  }

  lemma TrimCrLf(value: string)
    requires value != [] && !IsBlank(value[|value| - 1])
    ensures TrimRight(value + CRLF) == value
  {
    var s := value + CRLF;
    var t := value + "\r";
    assert s[..|s| - 1] == t;
    assert t[..|t| - 1] == value;
    assert TrimRight(t) == value;
  }

  /** A printed header line is parsed back to its key and value. */
  lemma HeaderLineRoundTrip(h: Header)
    requires Printable(h)
    ensures ParseHeaderLine(PrintHeader(h) + CRLF) == Parsed(h)
  {
    var line := PrintHeader(h) + CRLF;
    var after := " " + (h.value + CRLF);
    FirstColonAt(h.key, after);
    assert line == h.key + ":" + after;
    assert line[|h.key| + 1..] == after && line[..|h.key|] == h.key;
    assert after[1..] == h.value + CRLF;
    assert (h.value + CRLF)[0] == h.value[0];
    assert TrimLeft(after) == h.value + CRLF;
    TrimCrLf(h.value);
  }

  // ----- Header blocks

  /** The outcome of the header loop: the map and the unread bytes, or the stream ended first
      (`readLine` returned false), or an exception left the function. */
  datatype Block = Read(headers: HeaderMap, rest: string) | Cut | Threw

  function ReadHeadersSpec(s: string, headers: HeaderMap): (b: Block)
    ensures b.Read? ==> |b.rest| < |s|
    decreases |s|
  {
    match ReadLineSpec(s)
    case None => Cut
    case Some((line, rest)) =>
      if |line| < 2 || line[|line| - 2..] != CRLF then ReadHeadersSpec(rest, headers)
      else if |line| == 2 then Read(headers, rest)
      else
        match ParseHeaderLine(line)
        case NoColon => ReadHeadersSpec(rest, headers)
        case EmptyValue => Threw
        case Parsed(h) => ReadHeadersSpec(rest, headers[h.key := h.value])
  }

  /** The header loop shared by `doRequest` and `clientHandler`. */
  method ReadHeaders(s: Socket) returns (ok: bool, thrown: bool, headers: HeaderMap)
    requires s.live
    modifies s`unread
    ensures ok ==> ReadHeadersSpec(old(s.unread), map[]) == Read(headers, s.unread)
    ensures thrown ==> ReadHeadersSpec(old(s.unread), map[]) == Threw
    ensures !(ok && thrown)
    ensures !ok && !thrown && s.reliable ==> ReadHeadersSpec(old(s.unread), map[]) == Cut
  {
    hide ReadLineSpec, ParseHeaderLine;
    headers := map[];
    ghost var all := s.unread;
    while true
      invariant s.live
      invariant ReadHeadersSpec(all, map[]) == ReadHeadersSpec(s.unread, headers)
      decreases |s.unread|
    {
      var got, line := ReadLine(s);
      if !got { return false, false, headers; }
      var len := |line|;
      if len < 2 || line[len - 2..] != CRLF { continue; }
      if len == 2 { return true, false, headers; }
      match ParseHeaderLine(line) {
        case NoColon => continue;
        case EmptyValue => return false, true, headers;
        case Parsed(h) => headers := headers[h.key := h.value];
      }
    }
  }

  function PrintHeaders(hs: seq<Header>): string {
    if hs == [] then "" else PrintHeader(hs[0]) + CRLF + PrintHeaders(hs[1..])
  }

  /** The map a block of headers leaves behind when it is read into `headers`. */
  function AddAll(headers: HeaderMap, hs: seq<Header>): HeaderMap
    decreases |hs|
  {
    if hs == [] then headers else AddAll(headers[hs[0].key := hs[0].value], hs[1..])
  }

  lemma Regroup(start: string, headers: string, body: string, rest: string)
    ensures start + headers + CRLF + body + rest == start + (headers + CRLF + (body + rest))
  {
  }

  lemma EmptyLineIsRead(rest: string, headers: HeaderMap)
    ensures ReadHeadersSpec(CRLF + rest, headers) == Read(headers, rest)
  {
    ReadLineCrLf("", rest);
    assert "" + CRLF == CRLF;
  }

  lemma PrintedHeaderIsRead(h: Header, tail: string, headers: HeaderMap)
    requires Printable(h)
    ensures ReadHeadersSpec(PrintHeader(h) + CRLF + tail, headers) == ReadHeadersSpec(tail, headers[h.key := h.value])
  {
    var text := PrintHeader(h);
    assert OneLine(text) && |text| > 0;
    HeaderLineRoundTrip(h);
    hide Printable, PrintHeader, ReadLineSpec, ParseHeaderLine;
    ReadLineCrLf(text, tail);
    assert (text + CRLF)[|text|..] == CRLF;
  }

  lemma {:induction false} PrintedHeadersAreRead(hs: seq<Header>, rest: string, headers: HeaderMap)
    requires forall k :: 0 <= k < |hs| ==> Printable(hs[k])
    ensures ReadHeadersSpec(PrintHeaders(hs) + CRLF + rest, headers) == Read(AddAll(headers, hs), rest)
    decreases |hs|
  {
    hide Printable, ReadHeadersSpec;
    if hs == [] {
      EmptyLineIsRead(rest, headers);
      assert PrintHeaders(hs) + CRLF + rest == CRLF + rest;
    } else {
      var tail := PrintHeaders(hs[1..]) + CRLF + rest;
      PrintedHeaderIsRead(hs[0], tail, headers);
      assert PrintHeaders(hs) + CRLF + rest == PrintHeader(hs[0]) + CRLF + tail;
      PrintedHeadersAreRead(hs[1..], rest, headers[hs[0].key := hs[0].value]);
    }
  }

  /** A complete header block is recognised without looking past its empty line. */
  lemma {:induction false} HeadersExtend(s: string, headers: HeaderMap, more: string)
    requires ReadHeadersSpec(s, headers).Read?
    ensures var b := ReadHeadersSpec(s, headers);
            ReadHeadersSpec(s + more, headers) == Read(b.headers, b.rest + more)
    decreases |s|
  {
    hide ParseHeaderLine;
    var (line, rest) := ReadLineSpec(s).value;
    if rest != [] {
      LineBeforeMore(s, line, rest);
    }
    if |line| == 2 && line == CRLF {
      ReadLineExtends(s, line, rest, more);
    } else {
      var next := if |line| < 2 || line[|line| - 2..] != CRLF || ParseHeaderLine(line).NoColon?
                  then headers
                  else headers[ParseHeaderLine(line).header.key := ParseHeaderLine(line).header.value];
      assert ReadHeadersSpec(s, headers) == ReadHeadersSpec(rest, next);
      ReadLineExtends(s, line, rest, more);
      HeadersExtend(rest, next, more);
    }
  }

  predicate DistinctKeys(hs: seq<Header>) {
    forall i, j :: 0 <= i < j < |hs| ==> hs[i].key != hs[j].key
  }

  predicate HasKey(hs: seq<Header>, key: string) {
    exists k :: 0 <= k < |hs| && hs[k].key == key
  }

  /** With distinct keys, adding headers to a map makes each of them present with its own value,
      and touches no other key. */
  lemma {:induction false} AddAllLookup(headers: HeaderMap, hs: seq<Header>)
    requires DistinctKeys(hs)
    ensures forall k :: 0 <= k < |hs| ==>
              hs[k].key in AddAll(headers, hs) && AddAll(headers, hs)[hs[k].key] == hs[k].value
    ensures forall key :: key in AddAll(headers, hs) <==> key in headers || HasKey(hs, key)
    ensures forall key :: key in headers && !HasKey(hs, key) ==> AddAll(headers, hs)[key] == headers[key]
    decreases |hs|
  {
    if hs != [] {
      var tail := hs[1..];
      assert forall k :: 0 <= k < |tail| ==> tail[k] == hs[k + 1];
      forall key
        ensures HasKey(hs, key) <==> hs[0].key == key || HasKey(tail, key)
      {
        if HasKey(hs, key) && hs[0].key != key {
          var k :| 0 <= k < |hs| && hs[k].key == key;
          assert tail[k - 1].key == key;
        }
      }
      AddAllLookup(headers[hs[0].key := hs[0].value], tail);
      forall k | 0 <= k < |hs|
        ensures hs[k].key in AddAll(headers, hs) && AddAll(headers, hs)[hs[k].key] == hs[k].value
      {
        if k > 0 {
          assert hs[k] == tail[k - 1];
        } else {
          assert !HasKey(tail, hs[0].key);
        }
      }
    }
  }

  // ----- Requests

  /** What the caller of `doRequest` supplies. The headers are listed in the order in which the
      map is iterated, which does not matter here; a map has no key twice. */
  datatype Request = Request(method_: string, path: string, headers: seq<Header>, content: string)

  /** All headers of the printed request: the host, the caller's, and the length of the content
      when there is any. */
  function AllHeaders(r: Request, host: string): seq<Header> {
    [Header("Host", host)] + r.headers +
    (if r.content == "" then [] else [Header("Content-Length", Decimal(|r.content|))])
  }

  function PrintRequest(r: Request, host: string): string {
    r.method_ + " " + r.path + " HTTP/1.1" + CRLF + PrintHeaders(AllHeaders(r, host)) + CRLF + r.content
  }

  /** Several requests on one connection, one after the other. */
  function PrintRequests(rs: seq<Request>, host: string): string {
    if rs == [] then "" else PrintRequest(rs[0], host) + PrintRequests(rs[1..], host)
  }

  lemma {:induction false} PrintHeadersAppend(a: seq<Header>, b: seq<Header>)
    ensures PrintHeaders(a + b) == PrintHeaders(a) + PrintHeaders(b)
    decreases |a|
  {
    if a == [] {
      assert a + b == b;
    } else {
      assert (a + b)[1..] == a[1..] + b;
      PrintHeadersAppend(a[1..], b);
    }
  }

  lemma PrintOneHeader(h: Header)
    ensures PrintHeaders([h]) == h.key + ": " + h.value + CRLF
  {
    assert [h][1..] == [];
    assert PrintHeaders([h]) == PrintHeader(h) + CRLF + "";
  }

  /** The text `doRequest` accumulates in `data`, one piece at a time. */
  method FormatRequest(r: Request, host: string) returns (data: string)
    ensures data == PrintRequest(r, host)
  {
    hide PrintHeaders, Decimal;
    data := r.method_ + " " + r.path + " HTTP/1.1" + CRLF;
    ghost var start := data;
    data := data + "Host: " + host + CRLF;
    ghost var first := [Header("Host", host)];
    PrintOneHeader(first[0]);
    assert data == start + PrintHeaders(first);
    assert first + r.headers[..0] == first;
    for i := 0 to |r.headers|
      invariant data == start + PrintHeaders(first + r.headers[..i])
    {
      var el := r.headers[i];
      PrintHeadersAppend(first + r.headers[..i], [el]);
      assert first + r.headers[..i] + [el] == first + r.headers[..i + 1];
      PrintOneHeader(el);
      data := data + el.key + ": " + el.value + CRLF;
    }
    assert r.headers[..|r.headers|] == r.headers;
    if r.content != "" {
      ghost var h := Header("Content-Length", Decimal(|r.content|));
      PrintHeadersAppend(first + r.headers, [h]);
      PrintOneHeader(h);
      data := data + "Content-Length: " + Decimal(|r.content|) + CRLF;
    }
    assert AllHeaders(r, host) == first + r.headers +
           if r.content == "" then [] else [Header("Content-Length", Decimal(|r.content|))];
    assert first + r.headers + [] == first + r.headers;
    assert data == start + PrintHeaders(AllHeaders(r, host));
    data := data + CRLF + r.content;
  }

  /** The first token of a line, as `sscanf("%s")` stores it. */
  function FirstToken(s: string): string {
    var t := SkipSpace(s);
    t[..TokenLength(t)]
  }

  function TokenLength(s: string): (n: nat)
    ensures n <= |s|
  {
    if s == [] || IsSpace(s[0]) then 0 else 1 + TokenLength(s[1..])
  }

  lemma {:induction false} TokenLengthAt(token: string, rest: string)
    requires forall k :: 0 <= k < |token| ==> !IsSpace(token[k])
    requires rest != [] && IsSpace(rest[0])
    ensures TokenLength(token + rest) == |token|
  {
    if token == [] {
      assert token + rest == rest;
    } else {
      assert (token + rest)[1..] == token[1..] + rest;
      TokenLengthAt(token[1..], rest);
    }
  }

  /** What `clientHandler` makes of the bytes of one request. `Dropped` is a stream that ends
      before the headers do, or a method other than POST: the handler destroys the socket.
      `Crashed` is an exception nothing catches. A body that is cut short is not reported: the
      content stays empty and the stream is used up. */
  datatype Incoming = Accepted(method_: string, headers: HeaderMap, content: string, close: bool, rest: string)
                    | Dropped
                    | Crashed

  function ContentLength(headers: HeaderMap): (r: Option<int>)
    ensures r.Some? ==> INT_MIN <= r.value <= INT_MAX
  {
    Stoi(GetHeaderValue(headers, "Content-Length", "0"))
  }

  /** The length assumed without a Content-Length header. */
  lemma StoiZero()
    ensures Stoi("0") == Some(0)
  {
    StoiDecimal(0, "");
    assert Decimal(0) + "" == "0";
  }

  predicate WantsClose(headers: HeaderMap) {
    GetHeaderValue(headers, "Connection", "") == "close"
  }

  function ReadRequestSpec(s: string): (r: Incoming)
    ensures r.Accepted? ==> |r.rest| < |s|
  {
    match ReadLineSpec(s)
    case None => Dropped
    case Some((requestLine, s1)) =>
      if FirstToken(requestLine) != "POST" then Dropped
      else
        match ReadHeadersSpec(s1, map[])
        case Cut => Dropped
        case Threw => Crashed
        case Read(headers, s2) => ReadContentSpec(headers, s2)
  }

  function ReadContentSpec(headers: HeaderMap, s: string): (r: Incoming)
    ensures r.Accepted? ==> |r.rest| <= |s|
  {
    var length := ContentLength(headers);
    if length == None || length.value < 0 then Crashed
    else
      match ReadFixedSpec(s, length.value)
      case None => Accepted("POST", headers, "", WantsClose(headers), "")
      case Some((content, rest)) => Accepted("POST", headers, content, WantsClose(headers), rest)
  }

  /** The requests the round trip is promised for. */
  predicate RequestWellFormed(r: Request, host: string) {
    && r.method_ == "POST"
    && OneLine(r.path)
    && (forall k :: 0 <= k < |r.headers| ==> Printable(r.headers[k]))
    && DistinctKeys(r.headers)
    && !HasKey(r.headers, "Host") && !HasKey(r.headers, "Content-Length")
    && Printable(Header("Host", host))
    && |r.content| <= INT_MAX
  }

  lemma RequestLineIsRead(r: Request, tail: string)
    requires r.method_ == "POST" && OneLine(r.path)
    ensures var line := r.method_ + " " + r.path + " HTTP/1.1" + CRLF;
            ReadLineSpec(line + tail) == Some((line, tail)) && FirstToken(line) == "POST"
  {
    var text := r.method_ + " " + r.path + " HTTP/1.1";
    assert OneLine(text);
    ReadLineCrLf(text, tail);
    var line := text + CRLF;
    assert line[0] == 'P';
    var after := " " + r.path + " HTTP/1.1" + CRLF;
    assert line == "POST" + after;
    TokenLengthAt("POST", after);
  }

  lemma PrintableLength(n: nat)
    ensures Printable(Header("Content-Length", Decimal(n)))
  {
    var length := Decimal(n);
    assert forall k :: 0 <= k < |length| ==> IsDigit(length[k], 10);
  }

  lemma NotAKey(hs: seq<Header>, key: string)
    requires !HasKey(hs, key)
    ensures forall k :: 0 <= k < |hs| ==> hs[k].key != key
  {
  }

  lemma AllHeadersAreWellFormed(r: Request, host: string)
    requires RequestWellFormed(r, host)
    ensures var hs := AllHeaders(r, host);
            DistinctKeys(hs) && forall k :: 0 <= k < |hs| ==> Printable(hs[k])
  {
    hide HasKey, Printable, DistinctKeys;
    PrintableLength(|r.content|);
    AllHeadersAreDistinct(r, host);
  }

  lemma AllHeadersAreDistinct(r: Request, host: string)
    requires DistinctKeys(r.headers) && !HasKey(r.headers, "Host") && !HasKey(r.headers, "Content-Length")
    ensures DistinctKeys(AllHeaders(r, host))
  {
    hide HasKey, Decimal;
    NotAKey(r.headers, "Host");
    NotAKey(r.headers, "Content-Length");
    var hs := AllHeaders(r, host);
    var n := |r.headers|;
    assert hs[0].key == "Host";
    assert forall k :: 0 <= k < n ==> hs[k + 1] == r.headers[k];
    forall i, j | 0 <= i < j < |hs|
      ensures hs[i].key != hs[j].key
    {
      if j <= n { assert hs[j] == r.headers[j - 1]; }
      if 0 < i { assert hs[i] == r.headers[i - 1]; }
    }
  }

  /** The map the parser builds holds exactly the headers of the printed request. */
  ghost predicate HeadersMatch(headers: HeaderMap, r: Request, host: string) {
    && (forall k :: 0 <= k < |r.headers| ==>
          r.headers[k].key in headers && headers[r.headers[k].key] == r.headers[k].value)
    && "Host" in headers && headers["Host"] == host
    && ("Content-Length" in headers ==> headers["Content-Length"] == Decimal(|r.content|))
    && (forall key :: key in headers <==>
          || HasKey(r.headers, key) || key == "Host" || (key == "Content-Length" && r.content != ""))
  }

  lemma AllKeys(r: Request, host: string, key: string)
    ensures HasKey(AllHeaders(r, host), key) <==>
            || HasKey(r.headers, key) || key == "Host" || (key == "Content-Length" && r.content != "")
  {
    var hs := AllHeaders(r, host);
    assert hs[0].key == "Host";
    assert forall k :: 0 <= k < |r.headers| ==> hs[k + 1] == r.headers[k];
    assert r.content != "" ==> hs[|hs| - 1].key == "Content-Length";
    if HasKey(r.headers, key) {
      var k :| 0 <= k < |r.headers| && r.headers[k].key == key;
      assert hs[k + 1].key == key;
    }
    if HasKey(hs, key) {
      var k :| 0 <= k < |hs| && hs[k].key == key;
      assert 0 < k <= |r.headers| ==> r.headers[k - 1].key == key;
    }
  }

  lemma AllHeadersAt(r: Request, host: string)
    ensures var hs := AllHeaders(r, host);
            && |hs| > |r.headers| && hs[0] == Header("Host", host)
            && (forall k :: 0 <= k < |r.headers| ==> hs[k + 1] == r.headers[k])
            && (r.content != "" ==> hs[|hs| - 1] == Header("Content-Length", Decimal(|r.content|)))
  {
  }

  lemma HeadersOfRequest(r: Request, host: string)
    requires RequestWellFormed(r, host)
    ensures HeadersMatch(AddAll(map[], AllHeaders(r, host)), r, host)
  {
    hide Printable, AllHeaders, AddAll, Decimal, HasKey;
    var hs := AllHeaders(r, host);
    var headers := AddAll(map[], hs);
    AllHeadersAt(r, host);
    AllHeadersAreWellFormed(r, host);
    AddAllLookup(map[], hs);
    AllKeys(r, host, "Content-Length");
    forall k | 0 <= k < |r.headers|
      ensures r.headers[k].key in headers && headers[r.headers[k].key] == r.headers[k].value
    {
      assert hs[k + 1] == r.headers[k];
    }
    forall key
      ensures key in headers <==>
              HasKey(r.headers, key) || key == "Host" || (key == "Content-Length" && r.content != "")
    {
      AllKeys(r, host, key);
    }
  }

  lemma ContentLengthIsRead(r: Request, host: string, headers: HeaderMap)
    requires |r.content| <= INT_MAX && !HasKey(r.headers, "Content-Length")
    requires HeadersMatch(headers, r, host)
    ensures ContentLength(headers) == Some(|r.content|)
  {
    hide Stoi;
    StoiDecimal(|r.content|, "");
    assert Decimal(|r.content|) + "" == Decimal(|r.content|);
    if r.content == "" {
      assert Decimal(0) == "0";
    }
  }

  /** The request line and the headers are read, and the body is left. */
  lemma RequestHeadIsRead(r: Request, host: string, rest: string)
    requires RequestWellFormed(r, host)
    ensures var headers := AddAll(map[], AllHeaders(r, host));
            exists line, tail ::
              && ReadLineSpec(PrintRequest(r, host) + rest) == Some((line, tail)) && FirstToken(line) == "POST"
              && ReadHeadersSpec(tail, map[]) == Read(headers, r.content + rest)
  {
    hide ReadLineSpec, ReadHeadersSpec, FirstToken, AddAll, Printable, HasKey;
    var hs := AllHeaders(r, host);
    var line := r.method_ + " " + r.path + " HTTP/1.1" + CRLF;
    var body := r.content + rest;
    var tail := PrintHeaders(hs) + CRLF + body;
    RequestLineIsRead(r, tail);
    AllHeadersAreWellFormed(r, host);
    PrintedHeadersAreRead(hs, body, map[]);
    hide AllHeaders, PrintHeaders;
    Regroup(line, PrintHeaders(hs), r.content, rest);
  }

  /** Printer and parser: the bytes `doRequest` prints for a POST request are read by
      `clientHandler` as the same method, headers and content, with the host and the content
      length added, and exactly those bytes are consumed. */
  lemma RequestRoundTrip(r: Request, host: string, rest: string)
    requires RequestWellFormed(r, host)
    ensures var headers := AddAll(map[], AllHeaders(r, host));
            && ReadRequestSpec(PrintRequest(r, host) + rest) ==
               Accepted(r.method_, headers, r.content, WantsClose(headers), rest)
            && HeadersMatch(headers, r, host)
  {
    hide ReadLineSpec, ReadHeadersSpec, FirstToken, ContentLength, WantsClose, AddAll, Printable, HasKey;
    hide HeadersMatch, AllHeaders, PrintRequest;
    RequestHeadIsRead(r, host, rest);
    HeadersOfRequest(r, host);
    ContentLengthIsRead(r, host, AddAll(map[], AllHeaders(r, host)));
    TakeDrop(r.content, rest);
  }

  // ----- Responses

  datatype Response = Response(status: string, headers: HeaderMap, content: string, reconnect: bool, chunked: bool)

  /** What the response part of `doRequest` makes of a stream: a response and the bytes left
      unread, a failed read, or an exception from `std::stoi`, `substr` or the buffer size. */
  datatype Reply = Reply(response: Response, rest: string) | Failed | Escaped

  predicate IsChunked(headers: HeaderMap) {
    GetHeaderValue(headers, "Transfer-Encoding", "") == "chunked"
  }

  /** The content of a response whose headers are `headers`: chunked if they say so, else up to
      the end of the stream without a Content-Length, else that many bytes. */
  function ReadBodySpec(headers: HeaderMap, s: string): (r: Content)
    ensures r.Got? ==> |r.rest| <= |s|
  {
    if IsChunked(headers) then ReadChunkedSpec(s)
    else if "Content-Length" !in headers then Got(s, "")
    else if ContentLength(headers).Some? && 0 <= ContentLength(headers).value <= |s| then
      Got(s[..ContentLength(headers).value], s[ContentLength(headers).value..])
    else Broken
  }

  /** The headers for which an exception leaves `doRequest`: a Content-Length that is no `int`,
      even when the content is chunked, or a negative one that is used as a size. */
  predicate BodyEscapes(headers: HeaderMap) {
    || ContentLength(headers) == None
    || (!IsChunked(headers) && ContentLength(headers).value < 0)
  }

  function ReadResponseSpec(s: string): (r: Reply)
    ensures r.Reply? ==> |r.rest| < |s|
  {
    match ReadLineSpec(s)
    case None => Failed
    case Some((status, s1)) => AfterStatusSpec(status, s1)
  }

  /** What follows the status line. */
  function AfterStatusSpec(status: string, s: string): (r: Reply)
    ensures r.Reply? ==> |r.rest| <= |s|
  {
    match ReadHeadersSpec(s, map[])
    case Cut => Failed
    case Threw => Escaped
    case Read(headers, rest) => BodySpec(status, headers, rest)
  }

  function BodySpec(status: string, headers: HeaderMap, s: string): (r: Reply)
    ensures r.Reply? ==> |r.rest| <= |s|
  {
    if BodyEscapes(headers) then Escaped
    else
      match ReadBodySpec(headers, s)
      case Broken => Failed
      case Oversized => Escaped
      case Got(content, rest) =>
        Reply(Response(status, headers, content, WantsClose(headers), IsChunked(headers)), rest)
  }

  /** A response whose end can be told from its own bytes (section 6.3 of RFC 9112). */
  predicate SelfDelimited(r: Response) {
    r.chunked || "Content-Length" in r.headers
  }

  lemma BodyExtends(headers: HeaderMap, s: string, more: string)
    requires !BodyEscapes(headers) && ReadBodySpec(headers, s).Got?
    requires IsChunked(headers) || "Content-Length" in headers
    ensures ReadBodySpec(headers, s + more) ==
            Got(ReadBodySpec(headers, s).data, ReadBodySpec(headers, s).rest + more)
  {
    if IsChunked(headers) {
      ChunkedIsSelfDelimiting(s, more);
    } else {
      ReadFixedExtends(s, ContentLength(headers).value, more);
    }
  }

  /** Reading a self-delimited response never depends on a byte behind it. */
  lemma ResponseExtends(s: string, r: Response, rest: string, more: string)
    requires ReadResponseSpec(s) == Reply(r, rest) && SelfDelimited(r)
    ensures ReadResponseSpec(s + more) == Reply(r, rest + more)
  {
    hide ContentLength, ReadBodySpec, BodyEscapes;
    var (status, s1) := ReadLineSpec(s).value;
    LineBeforeMore(s, status, s1);
    ReadLineExtends(s, status, s1, more);
    HeadersExtend(s1, map[], more);
    var block := ReadHeadersSpec(s1, map[]);
    BodyExtends(block.headers, block.rest, more);
  }

  /** `w` is one complete response on its own: it reads as `r` with nothing left over, its end
      can be told from its bytes, and it does not ask to close the connection. */
  predicate CompleteResponse(w: string, r: Response) {
    ReadResponseSpec(w) == Reply(r, "") && SelfDelimited(r) && !r.reconnect
  }

  function Concat(ws: seq<string>): string {
    if ws == [] then "" else ws[0] + Concat(ws[1..])
  }

  /** The stream that is left after reading `k` responses, if all of them can be read. */
  function AfterResponses(s: string, k: nat): Option<string>
    decreases k
  {
    hide ReadResponseSpec;
    if k == 0 then Some(s)
    else
      match ReadResponseSpec(s)
      case Reply(_, rest) => AfterResponses(rest, k - 1)
      case _ => None
  }

  /** Persistent connections: on a concatenation of complete responses, the k-th read starts
      exactly at the k-th response and returns what that response says on its own. */
  lemma {:induction false} PersistentConnection(ws: seq<string>, rs: seq<Response>, rest: string, k: nat)
    requires |ws| == |rs| && forall i :: 0 <= i < |ws| ==> CompleteResponse(ws[i], rs[i])
    requires k < |ws|
    ensures AfterResponses(Concat(ws) + rest, k) == Some(Concat(ws[k..]) + rest)
    ensures ReadResponseSpec(Concat(ws[k..]) + rest) == Reply(rs[k], Concat(ws[k + 1..]) + rest)
    decreases k
  {
    hide ReadResponseSpec, CompleteResponse;
    FirstResponse(ws[k..], rs[k], rest);
    assert ws[k..][1..] == ws[k + 1..];
    if k == 0 {
      assert ws[0..] == ws;
    } else {
      FirstResponse(ws, rs[0], rest);
      PersistentConnection(ws[1..], rs[1..], rest, k - 1);
      assert ws[1..][k - 1..] == ws[k..];
    }
  }

  lemma FirstResponse(ws: seq<string>, r: Response, rest: string)
    requires ws != [] && CompleteResponse(ws[0], r)
    ensures ReadResponseSpec(Concat(ws) + rest) == Reply(r, Concat(ws[1..]) + rest)
  {
    hide ReadResponseSpec;
    var more := Concat(ws[1..]) + rest;
    ResponseExtends(ws[0], r, "", more);
    assert "" + more == more;
    assert Concat(ws) + rest == ws[0] + more;
  }

  // ----- Encoding responses

  datatype Body = Fixed(data: string) | Chunks(chunks: seq<Chunk>, last: Chunk)

  function BodyData(b: Body): string {
    match b
    case Fixed(data) => data
    case Chunks(chunks, _) => ChunkData(chunks)
  }

  function EncodeBody(b: Body): string {
    match b
    case Fixed(data) => data
    case Chunks(chunks, last) => EncodeChunked(chunks, last)
  }

  /** Which headers go with which body: chunked takes priority over any Content-Length, but even
      then a Content-Length that is present must be readable as an `int`. */
  predicate FramedBy(headers: HeaderMap, b: Body) {
    match b
    case Fixed(data) =>
      && !("Transfer-Encoding" in headers && headers["Transfer-Encoding"] == "chunked")
      && "Content-Length" in headers && ContentLength(headers) == Some(|data|)
    case Chunks(chunks, last) =>
      && "Transfer-Encoding" in headers && headers["Transfer-Encoding"] == "chunked" && ContentLength(headers).Some?
      && (forall k :: 0 <= k < |chunks| ==> ChunkWellFormed(chunks[k]))
      && SizeLine(last.size, last.extension, 0)
  }

  function EncodeResponse(status: string, hs: seq<Header>, b: Body): string {
    status + CRLF + PrintHeaders(hs) + CRLF + EncodeBody(b)
  }

  lemma EncodedBodyIsRead(headers: HeaderMap, b: Body, rest: string)
    requires FramedBy(headers, b)
    ensures !BodyEscapes(headers)
    ensures ReadBodySpec(headers, EncodeBody(b) + rest) == Got(BodyData(b), rest)
  {
    hide ContentLength, ReadChunkedSpec;
    match b {
      case Fixed(data) => TakeDrop(data, rest);
      case Chunks(chunks, last) => ChunkedRoundTrip(chunks, last, rest);
    }
  }

  /** Any response encoded with either framing is read back with its body, and is complete in
      the sense above unless it asks to close the connection. */
  lemma ResponseRoundTrip(status: string, hs: seq<Header>, b: Body, rest: string)
    requires OneLine(status)
    requires forall k :: 0 <= k < |hs| ==> Printable(hs[k])
    requires FramedBy(AddAll(map[], hs), b)
    ensures var headers := AddAll(map[], hs);
            ReadResponseSpec(EncodeResponse(status, hs, b) + rest) ==
            Reply(Response(status + CRLF, headers, BodyData(b), WantsClose(headers), IsChunked(headers)), rest)
  {
    hide ReadBodySpec, BodyEscapes, FramedBy, ReadLineSpec, ReadHeadersSpec, WantsClose, IsChunked, AddAll,
      Printable, PrintHeaders, BodyData, EncodeBody;
    var headers := AddAll(map[], hs);
    var body := EncodeBody(b) + rest;
    var tail := PrintHeaders(hs) + CRLF + body;
    ReadLineCrLf(status, tail);
    PrintedHeadersAreRead(hs, body, map[]);
    EncodedBodyIsRead(headers, b, rest);
    Regroup(status + CRLF, PrintHeaders(hs), EncodeBody(b), rest);
  }

  /** So encoded responses are complete responses, as `PersistentConnection` needs them. */
  lemma EncodedResponseIsComplete(status: string, hs: seq<Header>, b: Body)
    requires OneLine(status)
    requires forall k :: 0 <= k < |hs| ==> Printable(hs[k])
    requires FramedBy(AddAll(map[], hs), b)
    requires !WantsClose(AddAll(map[], hs))
    ensures var headers := AddAll(map[], hs);
            CompleteResponse(EncodeResponse(status, hs, b),
                             Response(status + CRLF, headers, BodyData(b), false, IsChunked(headers)))
  {
    hide ReadResponseSpec, WantsClose, AddAll, Printable, PrintHeaders, BodyData, EncodeBody, EncodeResponse;
    ResponseRoundTrip(status, hs, b, "");
    assert EncodeResponse(status, hs, b) + "" == EncodeResponse(status, hs, b);
  }
}
