/** Two implementations of a byte queue with a maximum size: asio's `basic_streambuf`, which keeps
    get and put offsets into one array that it shifts and regrows, and `dynamic_string_buffer`,
    which keeps the readable size of a string. Both are proved against the plain sequence of
    readable bytes. */
module StreamBuffers {
  import opened Machine
  import opened Wrappers

  const BUFFER_DELTA: nat := 128

  /** `static_cast<int>` of a size. */
  function ToInt(n: nat): int {
    var low := n % 0x1_0000_0000;
    if low <= INT_MAX then low else low - 0x1_0000_0000
  }

  lemma ToIntExact(n: nat)
    ensures ToInt(n) == n <==> n <= INT_MAX
  {
  }

  /** The contents of a vector or string after `resize`. */
  function Resized(s: seq<Byte>, n: nat): (r: seq<Byte>)
    ensures |r| == n && forall k :: 0 <= k < n && k < |s| ==> r[k] == s[k]
  {
    if n <= |s| then s[..n] else s + seq(n - |s|, _ => 0)
  }

  // ----- basic_streambuf

  class StreamBuf {
    const maxSize: nat
    var buffer: array<Byte>
    var gptr: int
    var egptr: int
    var pptr: int
    var epptr: int

    /** The offsets are ordered and inside the buffer, and the put area ends below the maximum. */
    ghost predicate Valid()
      reads this
    {
      && 0 <= gptr <= egptr <= pptr <= epptr <= maxSize
      && buffer.Length == Max(epptr, 1)
    }

    /** The input sequence: the bytes that can be read. */
    ghost function Contents(): (s: seq<Byte>)
      requires Valid()
      reads this, buffer
      ensures |s| <= maxSize
    {
      buffer[gptr..pptr]
    }

    /** The output sequence: the bytes that `prepare` has handed out. */
    ghost function PutArea(): (s: seq<Byte>)
      requires Valid()
      reads this, buffer
      ensures |s| == epptr - pptr
    {
      buffer[pptr..epptr]
    }

    constructor (maxSize: nat)
      ensures Valid() && this.maxSize == maxSize && Contents() == [] && fresh(buffer)
    {
      var pend := Min(maxSize, BUFFER_DELTA);
      this.maxSize := maxSize;
      buffer := new Byte[Max(pend, 1)](_ => 0);
      gptr, egptr, pptr, epptr := 0, 0, 0, pend;
    }

    method Size() returns (n: nat)
      requires Valid()
      ensures n == |Contents()|
    {
      n := pptr - gptr;
    }

    /** `reserve`: shifts the readable bytes to the front and regrows the buffer if that is not
        enough. It fails exactly when the maximum would be exceeded, and then the bytes have been
        shifted already while the offsets still say where they were. */
    method Reserve(n: nat) returns (ok: bool)
      requires Valid()
      modifies this, buffer
      ensures Valid() && (buffer == old(buffer) || fresh(buffer))
      ensures ok <==> old(|Contents()|) + n <= maxSize
      ensures ok ==> Contents() == old(Contents()) && n <= epptr - pptr
      ensures !ok ==>
        && gptr == old(gptr) && egptr == old(egptr) && pptr == old(pptr) && epptr == old(epptr) && buffer == old(buffer)
        && buffer[..] == old(Contents()) + old(buffer[pptr - gptr..])
    {
      var gnext, pnext, pend := gptr, pptr, epptr;
      if n <= pend - pnext {
        return true;
      }
      ghost var contents := Contents();
      if gnext > 0 {
        pnext := pnext - gnext;
        MoveToFront(gnext, pnext);
      }
      assert buffer[..] == contents + old(buffer[pptr - gptr..]);
      assert buffer[..pnext] == buffer[..][..pnext] == contents;
      if n > pend - pnext {
        if n <= maxSize && pnext <= maxSize - n {
          pend := pnext + n;
          Resize(Max(pend, 1));
          assert buffer[..pnext] == contents;
        } else {
          return false;
        }
      }
      gptr, egptr, pptr, epptr := 0, pnext, pnext, pend;
      return true;
    }

    /** The `memmove` of `reserve`. */
    method MoveToFront(from: nat, n: nat)
      requires from + n <= buffer.Length
      modifies buffer
      ensures buffer[..] == old(buffer[from..from + n]) + old(buffer[n..])
    {
      forall k | 0 <= k < n {
        buffer[k] := buffer[from + k];
      }
    }

    /** `buffer_.resize`. */
    method Resize(size: nat)
      modifies this`buffer
      ensures fresh(buffer) && buffer[..] == Resized(old(buffer[..]), size)
    {
      var before := buffer[..];
      buffer := new Byte[size](k requires 0 <= k < size => Resized(before, size)[k]);
    }

    /** `prepare`. */
    method Prepare(n: nat) returns (ok: bool)
      requires Valid()
      modifies this, buffer
      ensures Valid() && (buffer == old(buffer) || fresh(buffer))
      ensures ok <==> old(|Contents()|) + n <= maxSize
      ensures ok ==> Contents() == old(Contents()) && n <= |PutArea()|
      ensures !ok ==> Contents() == AfterFailure(old(Contents()), old(gptr))
    {
      ok := Reserve(n);
      if !ok {
        ShiftedBytes(old(buffer[..]), gptr, pptr);
        assert buffer[..] == old(buffer[..])[gptr..pptr] + old(buffer[..])[pptr - gptr..];
        assert buffer[gptr..pptr] == buffer[..][gptr..pptr];
      }
    }

    /** The caller writes through the buffer that `prepare` returned. */
    method Fill(data: seq<Byte>)
      requires Valid() && |data| <= |PutArea()|
      modifies buffer
      ensures Contents() == old(Contents())
      ensures PutArea() == data + old(PutArea())[|data|..]
    {
      forall k | 0 <= k < |data| {
        buffer[pptr + k] := data[k];
      }
      assert buffer[pptr..epptr] == data + old(buffer[pptr + |data|..epptr]);
      assert old(buffer[pptr + |data|..epptr]) == old(buffer[pptr..epptr])[|data|..];
    }

    /** `commit`. The number of bytes is narrowed to `int`, so the put pointer goes where it should
        exactly when they are at most 2^31 - 1. */
    method Commit(n: nat)
      requires Valid()
      modifies this`pptr, this`egptr
      ensures var m := Min(n, old(|PutArea()|));
              && (pptr == old(pptr) + m <==> m <= INT_MAX)
              && (m <= INT_MAX ==> Valid() && Contents() == old(Contents()) + old(PutArea())[..m])
    {
      var m := Min(n, epptr - pptr);
      ToIntExact(m);
      assert buffer[gptr..pptr + m] == buffer[gptr..pptr] + buffer[pptr..epptr][..m];
      pptr := pptr + ToInt(m);
      egptr := pptr;
    }

    /** `consume`, with the same narrowing. */
    method Consume(n: nat)
      requires Valid()
      modifies this`gptr, this`egptr
      ensures var m := Min(n, old(|Contents()|));
              && (gptr == old(gptr) + m <==> m <= INT_MAX)
              && (m <= INT_MAX ==> Valid() && Contents() == old(Contents())[m..])
    {
      if egptr < pptr {
        egptr := pptr;
      }
      var m := n;
      if gptr + m > pptr {
        m := pptr - gptr;
      }
      ToIntExact(m);
      gptr := gptr + ToInt(m);
    }

    /** `underflow`: the next byte without removing it, or nothing at the end. */
    method Underflow() returns (some: bool, next: Byte)
      requires Valid()
      modifies this
      ensures Valid() && buffer == old(buffer) && Contents() == old(Contents())
      ensures some <==> Contents() != []
      ensures some ==> next == Contents()[0] && gptr < egptr
    {
      some, next := false, 0;
      if gptr < pptr {
        egptr := pptr;
        some, next := true, buffer[gptr];
      }
    }

    /** `overflow`: appends a byte, after making room for up to 128 bytes if the put area is used up.
        It fails exactly when there is a byte and the queue is full, and then nothing is lost. The
        end-of-file value, None, changes nothing. */
    method Overflow(c: Option<Byte>) returns (ok: bool)
      requires Valid()
      modifies this, buffer
      ensures Valid() && (buffer == old(buffer) || fresh(buffer))
      ensures ok <==> c == None || old(|Contents()|) < maxSize
      ensures Contents() == if c.Some? && ok then old(Contents()) + [c.value] else old(Contents())
      ensures c == None ==> unchanged(this) && unchanged(buffer)
    {
      if c == None {
        return true;
      }
      if pptr == epptr {
        ok := MakeRoom();
        if !ok { return; }
      }
      ghost var contents := Contents();
      buffer[pptr] := c.value;
      assert buffer[gptr..pptr] == contents;
      pptr := pptr + 1;
      return true;
    }

    /** The branch of `overflow` for a put area that is used up. */
    method MakeRoom() returns (ok: bool)
      requires Valid() && pptr == epptr
      modifies this, buffer
      ensures Valid() && (buffer == old(buffer) || fresh(buffer))
      ensures ok <==> old(|Contents()|) < maxSize
      ensures Contents() == old(Contents())
      ensures ok ==> pptr < epptr
    {
      var bufferSize := pptr - gptr;
      if bufferSize < maxSize && maxSize - bufferSize < BUFFER_DELTA {
        ok := Reserve(maxSize - bufferSize);
      } else {
        ok := Reserve(BUFFER_DELTA);
      }
      if !ok {
        // the queue is full, so nothing has been consumed from the buffer and nothing was shifted
        assert gptr == 0;
        assert buffer[..][..pptr] == old(Contents());
      }
    }
  }

  /** The readable bytes after a failed `prepare`, if `g` bytes had been consumed: byte `g + k` is
      read where byte `k` was, as far as there is one. */
  function AfterFailure(contents: seq<Byte>, g: nat): (s: seq<Byte>)
    ensures |s| == |contents|
  {
    seq(|contents|, k requires 0 <= k < |contents| => if g + k < |contents| then contents[g + k] else contents[k])
  }

  lemma ShiftedBytes(before: seq<Byte>, g: nat, p: nat)
    requires g <= p <= |before|
    ensures var all := before[g..p] + before[p - g..];
            |all| == |before| && all[g..p] == AfterFailure(before[g..p], g)
  {
  }

  /** A failed `prepare` keeps the readable bytes, whatever they are, exactly when nothing has been
      consumed since the last shift or at least as much has been consumed as is left. */
  lemma FailureKeepsContents(g: nat, size: nat)
    ensures (forall contents: seq<Byte> :: |contents| == size ==> AfterFailure(contents, g) == contents)
            <==> g == 0 || g >= size
  {
    if 0 < g < size {
      var contents: seq<Byte> := seq(size, k => if k == g then 1 else 0);
      assert AfterFailure(contents, g)[0] == 1 && contents[0] == 0;
    } else {
      forall contents: seq<Byte> | |contents| == size
        ensures AfterFailure(contents, g) == contents
      {
      }
    }
  }

  // ----- dynamic_string_buffer

  class StringBuffer {
    const maxSize: nat
    var str: seq<Byte>
    // the largest size_t means that `prepare` has not been called yet
    var size: nat

    ghost predicate Valid()
      reads this
    {
      |str| < SIZE_MAX && (size != SIZE_MAX ==> size <= |str|)
    }

    /** The readable bytes: all of the string until `prepare` has been called. */
    ghost function Contents(): seq<Byte>
      requires Valid()
      reads this
    {
      if size == SIZE_MAX then str else str[..size]
    }

    ghost function PutArea(): seq<Byte>
      requires Valid()
      reads this
    {
      if size == SIZE_MAX then [] else str[size..]
    }

    /** What `size` says. */
    ghost function Reported(): nat
      reads this
    {
      if size != SIZE_MAX then size else Min(|str|, maxSize)
    }

    /** The string that is wrapped may be longer than the maximum. */
    constructor (str: seq<Byte>, maxSize: nat)
      requires |str| < SIZE_MAX
      ensures Valid() && this.maxSize == maxSize && Contents() == str
    {
      this.str, size, this.maxSize := str, SIZE_MAX, maxSize;
    }

    /** `size` is the number of readable bytes unless a longer string has not been prepared yet. */
    method Size() returns (n: nat)
      requires Valid()
      ensures n == Reported()
      ensures n == |Contents()| <==> size != SIZE_MAX || |str| <= maxSize
    {
      if size != SIZE_MAX {
        return size;
      }
      return Min(|str|, maxSize);
    }

    /** `prepare`. It fails exactly when size() + n > max_size(), and then changes nothing. So on a
        string longer than the maximum a call that asks for nothing succeeds, and leaves more bytes
        readable than the maximum. */
    method Prepare(n: nat) returns (ok: bool)
      requires Valid() && (maxSize < SIZE_MAX || |Contents()| + n < SIZE_MAX)
      modifies this
      ensures Valid()
      ensures ok <==> old(Reported()) + n <= maxSize
      ensures ok ==> Contents() == old(Contents()) && |PutArea()| == n && size != SIZE_MAX
      ensures ok && |Contents()| > maxSize ==> n == 0
      ensures !ok ==> unchanged(this)
    {
      var now := Size();
      if now > maxSize || maxSize - now < n {
        return false;
      }
      if size == SIZE_MAX {
        size := |str|;
      }
      str := Resized(str, size + n);
      return true;
    }

    method Fill(data: seq<Byte>)
      requires Valid() && size != SIZE_MAX && |data| <= |PutArea()|
      modifies this
      ensures Valid() && size == old(size) && Contents() == old(Contents())
      ensures PutArea() == data + old(PutArea())[|data|..]
    {
      str := str[..size] + data + str[size + |data|..];
    }

    /** `commit`, behind a `prepare`. What is left of the output sequence is discarded. */
    method Commit(n: nat)
      requires Valid() && size != SIZE_MAX
      modifies this
      ensures Valid() && size != SIZE_MAX
      ensures Contents() == old(Contents()) + old(PutArea())[..Min(n, old(|PutArea()|))]
    {
      ghost var m := Min(n, |str| - size);
      assert str[..size + m] == str[..size] + str[size..][..m];
      size := size + Min(n, |str| - size);
      str := Resized(str, size);
      assert str[..size] == str;
    }

    method Consume(n: nat)
      requires Valid()
      modifies this
      ensures Valid() && (old(size) == SIZE_MAX <==> size == SIZE_MAX)
      ensures Contents() == old(Contents())[Min(n, old(|Contents()|))..]
    {
      if size != SIZE_MAX {
        var consumeLength := Min(n, size);
        assert str[consumeLength..][..size - consumeLength] == str[..size][consumeLength..];
        str := str[consumeLength..];
        size := size - consumeLength;
        return;
      }
      str := str[Min(n, |str|)..];
    }
  }

  // ----- The queue both of them are

  /** One use: make room for `|data|` bytes, write them and commit the first `m`; consume `n` bytes;
      append one byte; or look at the next byte and take it. */
  datatype Use = Append(data: seq<Byte>, m: nat) | Remove(n: nat) | Put(c: Byte) | Take

  /** What is asked of the user: no more is committed than was prepared, and not more at a time than
      an `int` can count. */
  predicate Sound(use: Use) {
    match use
    case Append(data, m) => m <= |data| && m <= INT_MAX
    case Remove(n) => n <= INT_MAX
    case _ => true
  }

  predicate Disciplined(uses: seq<Use>) {
    forall k :: 0 <= k < |uses| ==> Sound(uses[k])
  }

  /** The room a use asks for. */
  function Room(use: Use): nat {
    match use
    case Append(data, _) => |data|
    case Put(_) => 1
    case _ => 0
  }

  /** The bytes a use adds at the end, and the bytes it takes off the front. */
  function Added(use: Use): seq<Byte>
    requires Sound(use)
  {
    match use
    case Append(data, m) => data[..m]
    case Put(c) => [c]
    case _ => []
  }

  function Taken(bytes: seq<Byte>, use: Use): seq<Byte> {
    match use
    case Remove(n) => bytes[..Min(n, |bytes|)]
    case Take => bytes[..Min(1, |bytes|)]
    case _ => []
  }

  datatype Queue = Bytes(bytes: seq<Byte>) | TooLong

  /** One use of a queue. */
  function Apply(bytes: seq<Byte>, use: Use, maxSize: nat): (q: Queue)
    requires Sound(use)
    ensures q.Bytes? && |bytes| <= maxSize ==> |q.bytes| <= maxSize
  {
    match use
    case Append(data, m) => if |bytes| + |data| <= maxSize then Bytes(bytes + data[..m]) else TooLong
    case Remove(n) => Bytes(bytes[Min(n, |bytes|)..])
    case Put(c) => if |bytes| + 1 <= maxSize then Bytes(bytes + [c]) else TooLong
    case Take => Bytes(bytes[Min(1, |bytes|)..])
  }

  /** The queue as a sequence of bytes, until an append fails. */
  function Used(uses: seq<Use>, maxSize: nat): (q: Queue)
    requires Disciplined(uses)
    ensures q.Bytes? ==> |q.bytes| <= maxSize
  {
    if uses == [] then Bytes([])
    else
      match Used(uses[..|uses| - 1], maxSize)
      case TooLong => TooLong
      case Bytes(bytes) => Apply(bytes, uses[|uses| - 1], maxSize)
  }

  /** All bytes that were put in. */
  function PutIn(uses: seq<Use>): seq<Byte>
    requires Disciplined(uses)
  {
    if uses == [] then [] else PutIn(uses[..|uses| - 1]) + Added(uses[|uses| - 1])
  }

  /** All bytes that were taken out. */
  function TakenOut(uses: seq<Use>, maxSize: nat): seq<Byte>
    requires Disciplined(uses) && Used(uses, maxSize).Bytes?
  {
    if uses == [] then []
    else
      var front := uses[..|uses| - 1];
      TakenOut(front, maxSize) + Taken(Used(front, maxSize).bytes, uses[|uses| - 1])
  }

  /** First in, first out, and nothing lost: what was put in is what was taken out followed by what
      can still be read. */
  lemma {:induction false} FirstInFirstOut(uses: seq<Use>, maxSize: nat)
    requires Disciplined(uses) && Used(uses, maxSize).Bytes?
    ensures PutIn(uses) == TakenOut(uses, maxSize) + Used(uses, maxSize).bytes
    decreases |uses|
  {
    if uses != [] {
      var front, last := uses[..|uses| - 1], uses[|uses| - 1];
      FirstInFirstOut(front, maxSize);
      OneUse(TakenOut(front, maxSize), Used(front, maxSize).bytes, last, maxSize);
    }
  }

  /** What a use takes off the front and leaves is what was there with what it adds at the end. */
  lemma OneUse(out: seq<Byte>, bytes: seq<Byte>, use: Use, maxSize: nat)
    requires Sound(use) && Apply(bytes, use, maxSize).Bytes?
    ensures out + bytes + Added(use) == out + Taken(bytes, use) + Apply(bytes, use, maxSize).bytes
  {
    var rest := Apply(bytes, use, maxSize).bytes;
    assert bytes + Added(use) == Taken(bytes, use) + rest;
    assert out + (bytes + Added(use)) == out + (Taken(bytes, use) + rest);
  }

  /** One use of a `StreamBuf` is one use of the queue; `next` is the byte that is taken. */
  method UseStreamBuf(b: StreamBuf, use: Use) returns (ok: bool, next: Option<Byte>)
    requires b.Valid() && Sound(use)
    modifies b, b.buffer
    ensures b.Valid() && (b.buffer == old(b.buffer) || fresh(b.buffer))
    ensures ok <==> Apply(old(b.Contents()), use, b.maxSize).Bytes?
    ensures ok ==> Bytes(b.Contents()) == Apply(old(b.Contents()), use, b.maxSize)
    ensures use.Take? ==> Taken(old(b.Contents()), use) == if next.Some? then [next.value] else []
  {
    ok, next := true, None;
    match use {
      case Append(data, m) => ok := AppendToStream(b, data, m);
      case Remove(n) => b.Consume(n);
      case Put(c) => ok := b.Overflow(Some(c));
      case Take =>
        var some, c := b.Underflow();
        if some {
          next := Some(c);
          b.Consume(1);
        }
    }
  }

  method AppendToStream(b: StreamBuf, data: seq<Byte>, m: nat) returns (ok: bool)
    requires b.Valid() && m <= |data| && m <= INT_MAX
    modifies b, b.buffer
    ensures b.Valid() && (b.buffer == old(b.buffer) || fresh(b.buffer))
    ensures ok <==> old(|b.Contents()|) + |data| <= b.maxSize
    ensures ok ==> b.Contents() == old(b.Contents()) + data[..m]
  {
    ok := b.Prepare(|data|);
    if ok {
      b.Fill(data);
      assert b.PutArea()[..m] == data[..m];
      b.Commit(m);
    }
  }

  /** One use of a `StringBuffer` is one use of the queue; a single byte is prepared and committed. */
  method UseStringBuffer(b: StringBuffer, use: Use) returns (ok: bool)
    requires b.Valid() && Sound(use) && |b.Contents()| <= b.maxSize
    requires b.maxSize < SIZE_MAX || |b.Contents()| + Room(use) < SIZE_MAX
    modifies b
    ensures b.Valid()
    ensures ok <==> Apply(old(b.Contents()), use, b.maxSize).Bytes?
    ensures ok ==> Bytes(b.Contents()) == Apply(old(b.Contents()), use, b.maxSize)
  {
    ok := true;
    match use {
      case Append(data, m) => ok := AppendTo(b, data, m);
      case Remove(n) => b.Consume(n);
      case Put(c) => ok := AppendTo(b, [c], 1);
      case Take => b.Consume(1);
    }
  }

  method AppendTo(b: StringBuffer, data: seq<Byte>, m: nat) returns (ok: bool)
    requires b.Valid() && m <= |data| && |b.Contents()| <= b.maxSize
    requires b.maxSize < SIZE_MAX || |b.Contents()| + |data| < SIZE_MAX
    modifies b
    ensures b.Valid()
    ensures ok <==> old(|b.Contents()|) + |data| <= b.maxSize
    ensures ok ==> b.Contents() == old(b.Contents()) + data[..m]
  {
    ok := b.Prepare(|data|);
    if ok {
      b.Fill(data);
      assert b.PutArea()[..m] == data[..m];
      b.Commit(m);
    }
  }

  /** The same use of both, when they hold the same bytes and have the same maximum. */
  method UseBoth(a: StreamBuf, b: StringBuffer, use: Use) returns (ok: bool, next: Option<Byte>)
    requires a.Valid() && b.Valid() && Sound(use) && a.maxSize == b.maxSize
    requires b.maxSize < SIZE_MAX || |b.Contents()| + Room(use) < SIZE_MAX
    requires a.Contents() == b.Contents()
    modifies a, a.buffer, b
    ensures a.Valid() && b.Valid() && (a.buffer == old(a.buffer) || fresh(a.buffer))
    ensures ok <==> Apply(old(a.Contents()), use, a.maxSize).Bytes?
    ensures ok ==> a.Contents() == b.Contents() && Bytes(a.Contents()) == Apply(old(a.Contents()), use, a.maxSize)
    ensures use.Take? ==> Taken(old(a.Contents()), use) == if next.Some? then [next.value] else []
  {
    hide Apply;
    ok, next := UseStreamBuf(a, use);
    var same := UseStringBuffer(b, use);
    assert same == ok;
  }

  lemma UsedStep(uses: seq<Use>, k: nat, maxSize: nat)
    requires Disciplined(uses) && k < |uses| && Used(uses[..k], maxSize).Bytes?
    ensures Used(uses[..k + 1], maxSize) == Apply(Used(uses[..k], maxSize).bytes, uses[k], maxSize)
  {
    assert uses[..k + 1][..k] == uses[..k];
  }

  /** The room all uses ask for together. */
  function Rooms(uses: seq<Use>): nat {
    if uses == [] then 0 else Rooms(uses[..|uses| - 1]) + Room(uses[|uses| - 1])
  }

  lemma {:induction false} RoomsBound(uses: seq<Use>, k: nat, maxSize: nat)
    requires Disciplined(uses) && k <= |uses| && Used(uses[..k], maxSize).Bytes?
    ensures k == |uses| ==> |Used(uses[..k], maxSize).bytes| <= Rooms(uses)
    ensures k < |uses| ==> |Used(uses[..k], maxSize).bytes| + Room(uses[k]) <= Rooms(uses)
    decreases |uses|
  {
    hide Apply;
    if uses != [] {
      var front := uses[..|uses| - 1];
      assert k < |uses| ==> front[..k] == uses[..k];
      if k < |uses| {
        RoomsBound(front, k, maxSize);
      } else {
        assert uses[..k] == uses && front[..k - 1] == front;
        RoomsBound(front, k - 1, maxSize);
        Grows(Used(front, maxSize).bytes, uses[k - 1], maxSize);
      }
    }
  }

  lemma Grows(bytes: seq<Byte>, use: Use, maxSize: nat)
    requires Sound(use) && Apply(bytes, use, maxSize).Bytes?
    ensures |Apply(bytes, use, maxSize).bytes| <= |bytes| + Room(use)
  {
  }

  /** Side by side, from empty and with the same maximum, both buffers hold the bytes of the queue
      after every use, and both fail at the same use, the first that would exceed the maximum.
      `trace` is what they hold after each use. With the largest `size_t` as the maximum, which is
      the default, what is asked for has to stay below it. */
  method SideBySide(uses: seq<Use>, maxSize: nat) returns (done: nat, ghost trace: seq<seq<Byte>>)
    requires Disciplined(uses) && (maxSize < SIZE_MAX || Rooms(uses) < SIZE_MAX)
    ensures done <= |uses| && |trace| == done
    ensures forall k :: 0 <= k < done ==> Used(uses[..k + 1], maxSize) == Bytes(trace[k])
    ensures done < |uses| ==> Used(uses[..done + 1], maxSize) == TooLong
  {
    hide Used, Apply;
    var a := new StreamBuf(maxSize);
    var b := new StringBuffer([], maxSize);
    done, trace := 0, [];
    NothingUsed(maxSize);
    assert uses[..0] == [];
    while done < |uses|
      invariant done <= |uses| && |trace| == done
      invariant forall k :: 0 <= k < done ==> Used(uses[..k + 1], maxSize) == Bytes(trace[k])
      invariant a.Valid() && fresh(a) && fresh(a.buffer) && a.maxSize == maxSize
      invariant b.Valid() && fresh(b) && b.maxSize == maxSize
      invariant a.Contents() == b.Contents() && Used(uses[..done], maxSize) == Bytes(a.Contents())
    {
      UsedStep(uses, done, maxSize);
      RoomsBound(uses, done, maxSize);
      var ok, next := UseBoth(a, b, uses[done]);
      if !ok {
        return;
      }
      trace := trace + [a.Contents()];
      done := done + 1;
    }
  }

  lemma NothingUsed(maxSize: nat)
    ensures Used([], maxSize) == Bytes([])
  {
  }
}
