/** Byte streams and the readers and writer of HTTPCommon.cpp.

    A socket is a finite stream of bytes still to be received and a record of the bytes sent.
    `Recv` and `Send` move an arbitrary positive number of bytes, or fail. Each reader is a loop
    over `Recv`, proved against a function of the unread bytes that does not mention how the
    bytes were split; the properties of the formats are lemmas about those functions. */
module Wire {
  import opened Machine
  import opened Wrappers
  import opened Numerals

  const CRLF: string := "\r\n"

  // ----- Sockets

  class Socket {
    // everything the peer ever sends, and the part of it that has not been received yet
    ghost const stream: string
    var unread: string
    var sent: string
    var live: bool
    ghost var destroyed: nat
    // a reliable socket reports no errors: reading stops only at the end of the stream
    const reliable: bool

    constructor (stream: string, reliable: bool)
      ensures this.stream == unread == stream && sent == "" && live && destroyed == 0 && this.reliable == reliable
    {
      this.stream, unread, sent, live, destroyed := stream, stream, "", true, 0;
      this.reliable := reliable;
    }

    /** One `recv` call: negative on error, 0 at the end of the stream. */
    method Recv(n: nat) returns (received: int, data: string)
      requires live && n > 0
      modifies this`unread
      ensures received < 0 ==> !reliable && unread == old(unread)
      ensures received == 0 ==> old(unread) == "" && unread == ""
      ensures received > 0 ==> |data| == received <= n && old(unread) == data + unread
    {
      received, data := 0, "";
      var fails: bool := *;
      if !reliable && fails {
        received := -1;
      } else if unread != "" {
        var k: nat :| 1 <= k <= n && k <= |unread|;
        received, data := k, unread[..k];
        unread := unread[k..];
      }
    }

    /** One `send` call: negative on error. */
    method Send(data: string) returns (written: int)
      requires live && data != ""
      modifies this`sent
      ensures written < 0 ==> !reliable && sent == old(sent)
      ensures written >= 0 ==> 0 < written <= |data| && sent == old(sent) + data[..written]
    {
      var fails: bool := *;
      if !reliable && fails {
        written := -1;
      } else {
        var k: nat :| 1 <= k <= |data|;
        written := k;
        sent := sent + data[..k];
      }
    }

    /** Destroying a descriptor is allowed only while it is live, so it happens at most once. */
    method Destroy()
      requires live
      modifies this`live, this`destroyed
      ensures !live && destroyed == old(destroyed) + 1
    {
      live, destroyed := false, destroyed + 1;
    }
  }

  // ----- Lines

  /** The length of the first line of `s`, its '\n' included; all of `s` when it has none. */
  function LineLength(s: string): (n: nat)
    ensures n <= |s|
    ensures s != [] ==> 0 < n
    ensures forall k :: 0 <= k < n - 1 ==> s[k] != '\n'
    ensures 0 < n < |s| ==> s[n - 1] == '\n'
  {
    if s == [] then 0
    else if s[0] == '\n' then 1
    else 1 + LineLength(s[1..])
  }

  /** What `readLine` does to a stream: the line it returns and the bytes it leaves unread. */
  function ReadLineSpec(s: string): (r: Option<(string, string)>)
    ensures r.Some? <==> s != []
    ensures r.Some? ==> s == r.value.0 + r.value.1 && |r.value.1| < |s|
  {
    if s == [] then None else Some((s[..LineLength(s)], s[LineLength(s)..]))
  }

  lemma {:induction false} LineLengthAt(line: string, rest: string)
    requires line != [] && line[|line| - 1] == '\n'
    requires forall k :: 0 <= k < |line| - 1 ==> line[k] != '\n'
    ensures LineLength(line + rest) == |line|
  {
    if line[0] != '\n' {
      assert (line + rest)[1..] == line[1..] + rest;
      LineLengthAt(line[1..], rest);
    } else {
      assert |line| == 1;
    }
  }

  predicate OneLine(s: string) {
    forall k :: 0 <= k < |s| ==> s[k] != '\n'
  }

  lemma TakeDrop(a: string, b: string)
    ensures (a + b)[..|a|] == a && (a + b)[|a|..] == b
  {
  }

  lemma ReadLineAt(line: string, rest: string)
    requires line != [] && line[|line| - 1] == '\n' && OneLine(line[..|line| - 1])
    ensures ReadLineSpec(line + rest) == Some((line, rest))
  {
    assert forall k :: 0 <= k < |line| - 1 ==> line[..|line| - 1][k] == line[k];
    LineLengthAt(line, rest);
    TakeDrop(line, rest);
  }

  /** A text without '\n', followed by CR LF, is read back as exactly that line. */
  lemma ReadLineCrLf(text: string, rest: string)
    requires OneLine(text)
    ensures ReadLineSpec(text + CRLF + rest) == Some((text + CRLF, rest))
  {
    ReadLineAt(text + CRLF, rest);
  }

  /** A line that ends in '\n' is read the same whatever follows it. */
  lemma ReadLineExtends(s: string, line: string, rest: string, more: string)
    requires ReadLineSpec(s) == Some((line, rest)) && line[|line| - 1] == '\n'
    ensures ReadLineSpec(s + more) == Some((line, rest + more))
  {
    assert s + more == line + (rest + more);
    ReadLineAt(line, rest + more);
  }

  /** `readLine`: byte by byte up to '\n' or the end of the stream. */
  method ReadLine(s: Socket) returns (ok: bool, line: string)
    requires s.live
    modifies s`unread
    ensures ok ==> ReadLineSpec(old(s.unread)) == Some((line, s.unread))
    ensures !ok && s.reliable ==> ReadLineSpec(old(s.unread)) == None
  {
    line := "";
    ghost var all := s.unread;
    while true
      invariant s.live
      invariant all == line + s.unread
      invariant OneLine(line)
      decreases |s.unread|
    {
      var n, b := s.Recv(1);
      if n < 0 {
        return false, line;
      } else if n == 0 {
        assert all == line;
        if line != "" {
          LineWithoutBreak(line);
        }
        return line != "", line;
      } else {
        ghost var before := line;
        line := line + b;
        assert b == [b[0]];
        assert all == line + s.unread;
        if b[0] == '\n' {
          LineLengthAt(line, s.unread);
          assert all[..|line|] == line && all[|line|..] == s.unread;
          return true, line;
        }
      }
    }
  }

  lemma {:induction false} LineWithoutBreak(s: string)
    requires OneLine(s)
    ensures LineLength(s) == |s|
  {
    if s != [] {
      assert OneLine(s[1..]);
      LineWithoutBreak(s[1..]);
    }
  }

  /** Only the last line of a stream can lack its '\n'. */
  lemma LineBeforeMore(s: string, line: string, rest: string)
    requires ReadLineSpec(s) == Some((line, rest)) && rest != []
    ensures line[|line| - 1] == '\n'
  {
  }

  // ----- Content of known or unknown length

  /** `readFixedContent` on a stream. */
  function ReadFixedSpec(s: string, length: nat): (r: Option<(string, string)>)
    ensures r.Some? <==> length <= |s|
    ensures r.Some? ==> s == r.value.0 + r.value.1 && |r.value.0| == length
  {
    if length <= |s| then Some((s[..length], s[length..])) else None
  }

  lemma ReadFixedNothing(s: string)
    ensures ReadFixedSpec(s, 0) == Some(("", s))
  {
  }

  lemma ReadFixedExtends(s: string, length: nat, more: string)
    requires length <= |s|
    ensures ReadFixedSpec(s + more, length) == Some((s[..length], s[length..] + more))
  {
    assert (s + more)[..length] == s[..length];
    assert (s + more)[length..] == s[length..] + more;
  }

  /** What is left of a stream behind its first `n` bytes. */
  predicate Behind(s: string, n: nat, rest: string) {
    n <= |s| && s[n..] == rest
  }

  /** `readFixedContent`: a pointer `p` moves through a buffer of `length` bytes; the content is
      appended to only when the buffer is full. A length that no vector can have throws before
      anything is read. */
  method ReadFixedContent(s: Socket, content: string, length: nat)
    returns (ok: bool, thrown: bool, appended: string, ghost data: string)
    requires s.live
    modifies s`unread
    ensures thrown <==> length > VECTOR_MAX
    ensures thrown ==> !ok && s.unread == old(s.unread)
    ensures ok ==> ReadFixedSpec(old(s.unread), length) == Some((data, s.unread))
    ensures ok ==> appended == content + data
    ensures !ok ==> appended == content
    ensures !ok && !thrown && s.reliable ==> ReadFixedSpec(old(s.unread), length) == None && s.unread == ""
    ensures !ok && !thrown ==> exists lost: nat :: lost < length && Behind(old(s.unread), lost, s.unread)
  {
    if length > VECTOR_MAX {
      return false, true, content, "";
    }
    var buf := new char[length](_ => '\0');
    var p: nat, bufSize: nat := 0, length;
    ghost var all := s.unread;
    while bufSize != 0
      invariant s.live
      invariant p + bufSize == length == buf.Length
      invariant all == buf[..p] + s.unread
      decreases bufSize
    {
      var received, bytes := s.Recv(bufSize);
      if received <= 0 {
        assert received == 0 ==> all == buf[..p];
        assert Behind(all, p, s.unread);
        return false, false, content, "";
      }
      ghost var done, left := buf[..p], s.unread;
      forall k | 0 <= k < received {
        buf[p + k] := bytes[k];
      }
      assert buf[..p + received] == done + bytes;
      assert all == (done + bytes) + left;
      p, bufSize := p + received, bufSize - received;
    }
    assert buf[..p] == buf[..] && all == buf[..] + s.unread;
    assert all[..length] == buf[..] && all[length..] == s.unread;
    return true, false, content + buf[..], buf[..];
  }

  /** `readIndefiniteContent`: everything up to the end of the stream. */
  method ReadIndefiniteContent(s: Socket, content: string) returns (ok: bool, appended: string)
    requires s.live
    modifies s`unread
    ensures ok ==> appended == content + old(s.unread) && s.unread == ""
    ensures s.reliable ==> ok
  {
    appended := content;
    ghost var all := s.unread;
    while true
      invariant s.live
      invariant appended + s.unread == content + all
      decreases |s.unread|
    {
      var received, buf := s.Recv(4096);
      if received < 0 {
        return false, appended;
      } else if received == 0 {
        assert appended == content + all;
        return true, appended;
      } else {
        ghost var before, left := appended, s.unread;
        appended := appended + buf;
        assert before + (buf + left) == appended + left;
      }
    }
  }

  /** `write`: sends until nothing remains. */
  method Write(s: Socket, data: string) returns (ok: bool)
    requires s.live
    modifies s`sent
    ensures ok ==> s.sent == old(s.sent) + data
    ensures old(s.sent) <= s.sent <= old(s.sent) + data
    ensures s.reliable ==> ok
  {
    var p: nat, remaining: nat := 0, |data|;
    while remaining != 0
      invariant s.live
      invariant p + remaining == |data|
      invariant s.sent == old(s.sent) + data[..p]
      decreases remaining
    {
      var written := s.Send(data[p..]);
      if written < 0 {
        return false;
      }
      assert data[..p] + data[p..][..written] == data[..p + written];
      remaining := remaining - written;
      p := p + written;
    }
    assert data[..p] == data;
    return true;
  }

  // ----- Chunked content

  /** What one round finds: a chunk, the last chunk, a size no vector can have, or none of these. */
  datatype Round = Bad | More(chunk: string, rest: string) | Last(rest: string) | Huge

  /** One round of `readChunkedContent`: the size line, the data and the line end behind it. */
  function ChunkRound(s: string): (r: Round)
    ensures r.More? || r.Last? ==> |r.rest| < |s|
  {
    match ReadLineSpec(s)
    case None => Bad
    case Some((lengthLine, s1)) =>
      var length := StrToULHex(lengthLine);
      if length > VECTOR_MAX then Huge else
      match ReadFixedSpec(s1, length)
      case None => Bad
      case Some((chunk, s2)) =>
        match ReadLineSpec(s2)
        case None => Bad
        case Some((line, s3)) =>
          if line != CRLF then Bad
          else if length == 0 then Last(s3)
          else More(chunk, s3)
  }

  /** The outcome of reading the content of a message: the data and the bytes left unread, a
      failure, or an exception. */
  datatype Content = Got(data: string, rest: string) | Broken | Oversized

  /** `readChunkedContent` on a stream. */
  function ReadChunkedSpec(s: string): (r: Content)
    ensures r.Got? ==> |r.rest| < |s|
    decreases |s|
  {
    match ChunkRound(s)
    case Bad => Broken
    case Huge => Oversized
    case Last(rest) => Got("", rest)
    case More(chunk, rest) => Prepend(chunk, ReadChunkedSpec(rest))
  }

  function Prepend(chunk: string, later: Content): (r: Content)
    ensures r.Got? <==> later.Got?
  {
    if later.Got? then Got(chunk + later.data, later.rest) else later
  }

  lemma PrependNothing(later: Content)
    ensures Prepend("", later) == later
  {
    if later.Got? {
      assert "" + later.data == later.data;
    }
  }

  lemma PrependTwice(a: string, b: string, later: Content)
    ensures Prepend(a, Prepend(b, later)) == Prepend(a + b, later)
  {
    if later.Got? {
      assert a + (b + later.data) == (a + b) + later.data;
    }
  }

  lemma RoundAdvances(s: string, data: string)
    ensures var round := ChunkRound(s);
            Prepend(data, ReadChunkedSpec(s)) ==
            match round
            case Bad => Broken
            case Huge => Oversized
            case Last(rest) => Got(data, rest)
            case More(chunk, rest) => Prepend(data + chunk, ReadChunkedSpec(rest))
  {
    var round := ChunkRound(s);
    if round.More? {
      PrependTwice(data, round.chunk, ReadChunkedSpec(round.rest));
    } else if round.Last? {
      assert data + "" == data;
    }
  }

  /** `readChunkedContent`. Terminates on every finite stream: each round reads a line. */
  method ReadChunkedContent(s: Socket, content: string)
    returns (ok: bool, thrown: bool, appended: string, ghost data: string)
    requires s.live
    modifies s`unread
    ensures !(ok && thrown)
    ensures ok ==> ReadChunkedSpec(old(s.unread)) == Got(data, s.unread)
    ensures ok ==> appended == content + data
    ensures thrown ==> ReadChunkedSpec(old(s.unread)) == Oversized
    ensures !ok && !thrown && s.reliable ==> ReadChunkedSpec(old(s.unread)) == Broken
  {
    hide ReadChunkedSpec, ChunkRound, Prepend;
    appended, data := content, "";
    ghost var all := s.unread;
    PrependNothing(ReadChunkedSpec(all));
    while true
      invariant s.live
      invariant appended == content + data
      invariant ReadChunkedSpec(all) == Prepend(data, ReadChunkedSpec(s.unread))
      decreases |s.unread|
    {
      RoundAdvances(s.unread, data);
      var got, tooLong, length, chunk := ReadChunk(s);
      if !got { return false, tooLong, appended, data; }
      if length == 0 {
        return true, false, appended, data;
      }
      assert appended + chunk == content + (data + chunk);
      appended, data := appended + chunk, data + chunk;
    }
  }

  /** The body of the loop of `readChunkedContent`. */
  method ReadChunk(s: Socket) returns (ok: bool, thrown: bool, length: nat, chunk: string)
    requires s.live
    modifies s`unread
    ensures ok ==> ChunkRound(old(s.unread)) == if length == 0 then Last(s.unread) else More(chunk, s.unread)
    ensures ok && length == 0 ==> chunk == ""
    ensures thrown ==> !ok && ChunkRound(old(s.unread)) == Huge
    ensures !ok && !thrown && s.reliable ==> ChunkRound(old(s.unread)) == Bad
  {
    hide StrToULHex, ReadLineSpec, ReadFixedSpec;
    ok, thrown, length, chunk := false, false, 0, "";
    var got, lengthLine := ReadLine(s);
    if !got { return; }
    length := StrToULHex(lengthLine);
    ReadFixedNothing(s.unread);
    if length != 0 {
      ghost var data;
      got, thrown, chunk, data := ReadFixedContent(s, "", length);
      if !got { return; }
    }
    var line;
    got, line := ReadLine(s);
    ok := got && line == CRLF;
  }

  // ----- Chunk sizes that throw

  /** What is left of a stream after `k` whole chunks. */
  function AfterChunks(s: string, k: nat): (r: Option<string>)
    decreases k
  {
    if k == 0 then Some(s)
    else
      match ChunkRound(s)
      case More(_, rest) => AfterChunks(rest, k - 1)
      case _ => None
  }

  /** Behind `k` whole chunks comes the size line of a chunk that no vector can hold. */
  predicate HugeChunkAt(s: string, k: nat) {
    && AfterChunks(s, k).Some?
    && var rest := AfterChunks(s, k).value;
       rest != "" && StrToULHex(ReadLineSpec(rest).value.0) > VECTOR_MAX
  }

  lemma HugeNow(s: string)
    ensures ChunkRound(s).Huge? <==> HugeChunkAt(s, 0)
  {
    hide StrToULHex;
  }

  lemma HugeLater(s: string, k: nat)
    ensures HugeChunkAt(s, k + 1) <==> ChunkRound(s).More? && HugeChunkAt(ChunkRound(s).rest, k)
  {
    hide StrToULHex, ChunkRound, ReadLineSpec;
  }

  /** Chunked decoding throws exactly when behind whole chunks there is such a size line. */
  lemma {:induction false} HugeChunkThrows(s: string)
    ensures ReadChunkedSpec(s).Oversized? <==> exists k: nat :: HugeChunkAt(s, k)
    decreases |s|
  {
    hide HugeChunkAt, ChunkRound;
    HugeNow(s);
    var round := ChunkRound(s);
    if round.More? {
      HugeChunkThrows(round.rest);
      if k: nat :| HugeChunkAt(round.rest, k) {
        HugeLater(s, k);
      }
    }
    if k: nat :| HugeChunkAt(s, k) {
      if k > 0 { HugeLater(s, k - 1); }
    }
  }

  // ----- Chunked encoding

  /** One chunk on the wire: its data, the spelling of its size in hex digits, and an optional
      extension starting with ';' (section 7.1 of RFC 9112). */
  datatype Chunk = Chunk(data: string, size: string, extension: string)

  predicate SizeLine(size: string, extension: string, length: nat) {
    && size != [] && AllDigits(size, 16) && Value(size, 16) == length
    && OneLine(extension) && (extension != [] ==> extension[0] == ';')
  }

  predicate ChunkWellFormed(c: Chunk) {
    0 < |c.data| <= VECTOR_MAX && SizeLine(c.size, c.extension, |c.data|)
  }

  function EncodeChunk(c: Chunk): string {
    c.size + c.extension + CRLF + c.data + CRLF
  }

  /** The plainest way to put data in a chunk. */
  function PlainChunk(data: string): Chunk {
    Chunk(data, Hex(|data|), "")
  }

  /** Every data that is not empty, and fits a vector, has a chunk. */
  lemma PlainChunkIsWellFormed(data: string)
    requires 0 < |data| <= VECTOR_MAX
    ensures ChunkWellFormed(PlainChunk(data)) && PlainChunk(data).data == data
  {
    HexValue(|data|);
  }

  /** Chunked encoding without a trailer section: the chunks, then the last chunk, which has
      size 0, then an empty line. */
  function EncodeChunked(chunks: seq<Chunk>, last: Chunk): string {
    if chunks == [] then last.size + last.extension + CRLF + CRLF
    else EncodeChunk(chunks[0]) + EncodeChunked(chunks[1..], last)
  }

  function ChunkData(chunks: seq<Chunk>): string {
    if chunks == [] then "" else chunks[0].data + ChunkData(chunks[1..])
  }

  lemma SizeLineIsRead(size: string, extension: string, length: nat, rest: string)
    requires SizeLine(size, extension, length) && length <= SIZE_MAX
    ensures ReadLineSpec(size + extension + CRLF + rest) == Some((size + extension + CRLF, rest))
    ensures StrToULHex(size + extension + CRLF) == length
  {
    hide Value, StrToULHex;
    assert forall k :: 0 <= k < |size| ==> IsDigit(size[k], 16) && size[k] != '\n';
    ReadLineCrLf(size + extension, rest);
    var after := extension + CRLF;
    assert after[0] == if extension != [] then ';' else '\r';
    StrToULHexDigits(size, after);
    assert size + after == size + extension + CRLF;
  }

  lemma EndOfChunkIsRead(rest: string)
    ensures ReadLineSpec(CRLF + rest) == Some((CRLF, rest))
  {
    ReadLineCrLf("", rest);
    assert "" + CRLF == CRLF;
  }

  lemma ChunkIsRead(c: Chunk, tail: string)
    requires ChunkWellFormed(c)
    ensures ChunkRound(EncodeChunk(c) + tail) == More(c.data, tail)
  {
    hide StrToULHex, ReadLineSpec;
    var body := c.data + CRLF + tail;
    SizeLineIsRead(c.size, c.extension, |c.data|, body);
    assert EncodeChunk(c) + tail == c.size + c.extension + CRLF + body;
    TakeDrop(c.data, CRLF + tail);
    assert body == c.data + (CRLF + tail);
    EndOfChunkIsRead(tail);
  }

  lemma LastChunkIsRead(last: Chunk, rest: string)
    requires SizeLine(last.size, last.extension, 0)
    ensures ChunkRound(last.size + last.extension + CRLF + CRLF + rest) == Last(rest)
  {
    hide StrToULHex, ReadLineSpec, SizeLine;
    var body := CRLF + rest;
    SizeLineIsRead(last.size, last.extension, 0, body);
    assert last.size + last.extension + CRLF + CRLF + rest == last.size + last.extension + CRLF + body;
    TakeDrop("", body);
    assert "" + body == body;
    EndOfChunkIsRead(rest);
  }

  /** Chunked decoding inverts chunked encoding, and leaves what follows the body unread. */
  lemma {:induction false} ChunkedRoundTrip(chunks: seq<Chunk>, last: Chunk, rest: string)
    requires forall k :: 0 <= k < |chunks| ==> ChunkWellFormed(chunks[k])
    requires SizeLine(last.size, last.extension, 0)
    ensures ReadChunkedSpec(EncodeChunked(chunks, last) + rest) == Got(ChunkData(chunks), rest)
    decreases |chunks|
  {
    hide ChunkRound, ChunkWellFormed, SizeLine, EncodeChunk;
    if chunks == [] {
      LastChunkIsRead(last, rest);
    } else {
      var later := EncodeChunked(chunks[1..], last);
      ChunkIsRead(chunks[0], later + rest);
      assert EncodeChunked(chunks, last) + rest == EncodeChunk(chunks[0]) + (later + rest);
      ChunkedRoundTrip(chunks[1..], last, rest);
    }
  }

  lemma RoundExtends(s: string, more: string)
    requires ChunkRound(s).More? || ChunkRound(s).Last?
    ensures ChunkRound(s + more) == ChunkRound(s).(rest := ChunkRound(s).rest + more)
  {
    hide StrToULHex, ReadLineSpec;
    var (lengthLine, s1) := ReadLineSpec(s).value;
    var length := StrToULHex(lengthLine);
    var (chunk, s2) := ReadFixedSpec(s1, length).value;
    var (line, s3) := ReadLineSpec(s2).value;
    LineBeforeMore(s, lengthLine, s1);
    ReadLineExtends(s, lengthLine, s1, more);
    ReadFixedExtends(s1, length, more);
    ReadLineExtends(s2, CRLF, s3, more);
  }

  /** A complete chunked body is recognised without looking past its end: appending bytes to the
      stream appends them to what is left unread, and changes nothing else. */
  lemma {:induction false} ChunkedIsSelfDelimiting(s: string, more: string)
    requires ReadChunkedSpec(s).Got?
    ensures ReadChunkedSpec(s + more) == Got(ReadChunkedSpec(s).data, ReadChunkedSpec(s).rest + more)
    decreases |s|
  {
    RoundExtends(s, more);
    var round := ChunkRound(s);
    if round.More? {
      ChunkedIsSelfDelimiting(round.rest, more);
    }
  }
}
