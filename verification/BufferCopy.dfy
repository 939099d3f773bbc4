/** asio's `buffer_copy` in its six forms. Memory is one array; a buffer is a range of it, and a
    buffer sequence a list of ranges, empty ones included. As `memcpy` demands, no byte is both
    written and read, and the target ranges do not overlap each other; source ranges may. */
module BufferCopy {
  import opened Machine

  datatype Buffer = Buffer(data: nat, size: nat)

  /** `operator+`: moves the start by at most the size. */
  function Skip(b: Buffer, n: nat): Buffer {
    var offset := Min(n, b.size);
    Buffer(b.data + offset, b.size - offset)
  }

  /** `buffer(b, n)`: at most the first `n` bytes. */
  function Limit(b: Buffer, n: nat): Buffer {
    Buffer(b.data, Min(b.size, n))
  }

  function Total(bs: seq<Buffer>): nat {
    if bs == [] then 0 else Total(bs[..|bs| - 1]) + bs[|bs| - 1].size
  }

  /** The address of byte `k` of the flattened sequence. */
  function Address(bs: seq<Buffer>, k: nat): nat
    requires k < Total(bs)
  {
    var last := |bs| - 1;
    if k < Total(bs[..last]) then Address(bs[..last], k) else bs[last].data + (k - Total(bs[..last]))
  }

  predicate InMemory(bs: seq<Buffer>, size: nat) {
    forall i :: 0 <= i < |bs| ==> bs[i].data + bs[i].size <= size
  }

  predicate Covers(b: Buffer, address: nat) {
    b.data <= address < b.data + b.size
  }

  predicate Disjoint(a: Buffer, b: Buffer) {
    forall address: nat | a.data <= address < a.data + a.size :: !Covers(b, address)
  }

  /** What `memcpy` and the flat reading of the result need of the ranges. */
  predicate Copyable(target: seq<Buffer>, source: seq<Buffer>, size: nat) {
    && InMemory(target, size) && InMemory(source, size)
    && (forall i, j :: 0 <= i < |target| && 0 <= j < |source| ==> Disjoint(target[i], source[j]))
    && (forall i, j :: 0 <= i < |target| && 0 <= j < |target| && i != j ==> Disjoint(target[i], target[j]))
  }

  /** All bytes of a buffer sequence, one after the other. */
  function Flat(mem: seq<Byte>, bs: seq<Buffer>): (s: seq<Byte>)
    requires InMemory(bs, |mem|)
    ensures |s| == Total(bs)
  {
    if bs == [] then []
    else
      var last := |bs| - 1;
      assert bs[last].data + bs[last].size <= |mem|;
      Flat(mem, bs[..last]) + mem[bs[last].data..bs[last].data + bs[last].size]
  }

  // ----- Addresses

  lemma {:induction false} TotalTake(bs: seq<Buffer>, i: nat)
    requires i <= |bs|
    ensures Total(bs[..i]) <= Total(bs)
    ensures i < |bs| ==> Total(bs[..i]) + bs[i].size == Total(bs[..i + 1]) <= Total(bs)
    decreases |bs|
  {
    if i < |bs| {
      assert bs[..i + 1][..i] == bs[..i];
      if i + 1 < |bs| {
        var front := bs[..|bs| - 1];
        TotalTake(front, i);
        assert front[..i] == bs[..i] && front[..i + 1] == bs[..i + 1];
      } else {
        assert bs[..i + 1] == bs;
      }
    } else {
      assert bs[..i] == bs;
    }
  }

  /** The flattened address of byte `offset` of buffer `i`. */
  lemma {:induction false} AddressAt(bs: seq<Buffer>, i: nat, offset: nat)
    requires i < |bs| && offset < bs[i].size
    ensures Total(bs[..i]) + offset < Total(bs)
    ensures Address(bs, Total(bs[..i]) + offset) == bs[i].data + offset
    decreases |bs|
  {
    TotalTake(bs, i);
    var front := bs[..|bs| - 1];
    if i + 1 < |bs| {
      AddressAt(front, i, offset);
      assert front[..i] == bs[..i];
    }
  }

  /** Every flattened position lies in some buffer. */
  lemma {:induction false} AddressIn(bs: seq<Buffer>, k: nat) returns (i: nat, offset: nat)
    requires k < Total(bs)
    ensures i < |bs| && offset < bs[i].size
    ensures k == Total(bs[..i]) + offset && Address(bs, k) == bs[i].data + offset
    decreases |bs|
  {
    var last := |bs| - 1;
    if k < Total(bs[..last]) {
      i, offset := AddressIn(bs[..last], k);
      assert bs[..last][..i] == bs[..i];
    } else {
      i, offset := last, k - Total(bs[..last]);
    }
  }

  lemma AddressInMemory(bs: seq<Buffer>, size: nat, k: nat)
    requires InMemory(bs, size) && k < Total(bs)
    ensures Address(bs, k) < size
  {
    var i, offset := AddressIn(bs, k);
  }

  lemma TargetInjective(target: seq<Buffer>, j: nat, k: nat)
    requires forall i, j :: 0 <= i < |target| && 0 <= j < |target| && i != j ==> Disjoint(target[i], target[j])
    requires j < Total(target) && k < Total(target) && Address(target, j) == Address(target, k)
    ensures j == k
  {
    var a, p := AddressIn(target, j);
    var b, q := AddressIn(target, k);
    assert Covers(target[b], Address(target, j));
    assert a == b;
  }

  lemma TargetIsNotSource(target: seq<Buffer>, source: seq<Buffer>, size: nat, j: nat, k: nat)
    requires Copyable(target, source, size) && j < Total(target) && k < Total(source)
    ensures Address(target, j) != Address(source, k)
  {
    var a, p := AddressIn(target, j);
    var b, q := AddressIn(source, k);
    assert Covers(source[b], Address(source, k));
  }

  lemma {:induction false} FlatAt(mem: seq<Byte>, bs: seq<Buffer>, k: nat)
    requires InMemory(bs, |mem|) && k < Total(bs)
    ensures Address(bs, k) < |mem| && Flat(mem, bs)[k] == mem[Address(bs, k)]
    decreases |bs|
  {
    AddressInMemory(bs, |mem|, k);
    var last := |bs| - 1;
    if k < Total(bs[..last]) {
      FlatAt(mem, bs[..last], k);
    }
  }

  // ----- The specification

  /** The first `n` bytes of the flattened target are those of the flattened source, and no other
      byte of memory has changed. */
  ghost predicate Copied(before: seq<Byte>, after: seq<Byte>, target: seq<Buffer>, source: seq<Buffer>, n: nat)
    requires n <= Total(target) && n <= Total(source)
    requires InMemory(target, |before|) && InMemory(source, |before|)
  {
    && |after| == |before|
    && (forall k :: 0 <= k < n ==> ByteCopied(before, after, target, source, k))
    && (forall a :: 0 <= a < |before| && !Written(target, n, a) ==> after[a] == before[a])
  }

  ghost predicate ByteCopied(before: seq<Byte>, after: seq<Byte>, target: seq<Buffer>, source: seq<Buffer>, k: nat)
    requires k < Total(target) && k < Total(source)
    requires InMemory(target, |before|) && InMemory(source, |before|) && |after| == |before|
  {
    AddressInMemory(target, |before|, k);
    AddressInMemory(source, |before|, k);
    after[Address(target, k)] == before[Address(source, k)]
  }

  /** `a` is the address of one of the first `n` bytes of the target. */
  ghost predicate Written(target: seq<Buffer>, n: nat, a: nat)
    requires n <= Total(target)
  {
    exists k: nat :: k < n && Address(target, k) == a
  }

  /** What `Copied` means for the flat sequences: the target now starts with the first `n` bytes of
      the source and goes on as before, the source reads as before, and no byte outside of the
      target has changed. */
  lemma CopiedFlat(before: seq<Byte>, after: seq<Byte>, target: seq<Buffer>, source: seq<Buffer>, n: nat)
    requires n <= Total(target) && n <= Total(source) && Copyable(target, source, |before|)
    requires Copied(before, after, target, source, n)
    ensures Flat(after, target) == Flat(before, source)[..n] + Flat(before, target)[n..]
    ensures Flat(after, source) == Flat(before, source)
    ensures forall a :: 0 <= a < |before| && (forall i :: 0 <= i < |target| ==> !Covers(target[i], a)) ==>
              after[a] == before[a]
  {
    assert |after| == |before| && InMemory(target, |after|) && InMemory(source, |after|);
    hide Copied, Copyable, InMemory, Flat, Covers, Total;
    forall k | 0 <= k < Total(target)
      ensures Flat(after, target)[k] == (Flat(before, source)[..n] + Flat(before, target)[n..])[k]
    {
      TargetByte(before, after, target, source, n, k);
    }
    forall k | 0 <= k < Total(source)
      ensures Flat(after, source)[k] == Flat(before, source)[k]
    {
      SourceByte(before, after, target, source, n, k);
    }
    forall a | 0 <= a < |before| && (forall i :: 0 <= i < |target| ==> !Covers(target[i], a))
      ensures after[a] == before[a]
    {
      OtherByte(before, after, target, source, n, a);
    }
  }

  lemma TargetByte(before: seq<Byte>, after: seq<Byte>, target: seq<Buffer>, source: seq<Buffer>, n: nat, k: nat)
    requires n <= Total(target) && n <= Total(source) && Copyable(target, source, |before|) && k < Total(target)
    requires Copied(before, after, target, source, n)
    ensures Flat(after, target)[k] == if k < n then Flat(before, source)[k] else Flat(before, target)[k]
  {
    FlatAt(after, target, k);
    FlatAt(before, target, k);
    if k < n {
      FlatAt(before, source, k);
      assert ByteCopied(before, after, target, source, k);
    } else if Written(target, n, Address(target, k)) {
      var j: nat :| j < n && Address(target, j) == Address(target, k);
      TargetInjective(target, j, k);
    }
  }

  lemma SourceByte(before: seq<Byte>, after: seq<Byte>, target: seq<Buffer>, source: seq<Buffer>, n: nat, k: nat)
    requires n <= Total(target) && n <= Total(source) && Copyable(target, source, |before|) && k < Total(source)
    requires Copied(before, after, target, source, n)
    ensures Flat(after, source)[k] == Flat(before, source)[k]
  {
    FlatAt(after, source, k);
    FlatAt(before, source, k);
    if Written(target, n, Address(source, k)) {
      var j: nat :| j < n && Address(target, j) == Address(source, k);
      TargetIsNotSource(target, source, |before|, j, k);
    }
  }

  lemma OtherByte(before: seq<Byte>, after: seq<Byte>, target: seq<Buffer>, source: seq<Buffer>, n: nat, a: nat)
    requires n <= Total(target) && n <= Total(source) && Copyable(target, source, |before|)
    requires Copied(before, after, target, source, n)
    requires a < |before| && forall i :: 0 <= i < |target| ==> !Covers(target[i], a)
    ensures after[a] == before[a]
  {
    if Written(target, n, a) {
      var j: nat :| j < n && Address(target, j) == a;
      var i, offset := AddressIn(target, j);
      assert Covers(target[i], a);
    }
  }

  // ----- The copies

  /** `to` bytes into target buffer `i` and `so` bytes into source buffer `j` the same number `n`
      of bytes lies behind on both sides. */
  predicate Aligned(target: seq<Buffer>, i: nat, to: nat, source: seq<Buffer>, j: nat, so: nat, n: nat) {
    && i < |target| && j < |source|
    && n == Total(target[..i]) + to == Total(source[..j]) + so
  }

  /** `after` is `before` with `m` bytes moved from address `src` to address `dst`. */
  predicate Moved(before: seq<Byte>, after: seq<Byte>, dst: nat, src: nat, m: nat)
    requires dst + m <= |before| && src + m <= |before|
  {
    && |after| == |before|
    && (forall k :: dst <= k < dst + m ==> after[k] == before[src + (k - dst)])
    && (forall a :: 0 <= a < |before| && !(dst <= a < dst + m) ==> after[a] == before[a])
  }

  /** Copying `m` more bytes between aligned buffers extends the copied prefix by `m`. */
  lemma CopyStep(before: seq<Byte>, now: seq<Byte>, after: seq<Byte>, target: seq<Buffer>, source: seq<Buffer>,
                 n: nat, i: nat, to: nat, j: nat, so: nat, m: nat)
    requires Copyable(target, source, |before|) && Aligned(target, i, to, source, j, so, n)
    requires to + m <= target[i].size && so + m <= source[j].size
    requires n <= Total(target) && n <= Total(source) && Copied(before, now, target, source, n)
    requires Moved(now, after, target[i].data + to, source[j].data + so, m)
    ensures n + m <= Total(target) && n + m <= Total(source)
    ensures Copied(before, after, target, source, n + m)
  {
    var dst, src := target[i].data + to, source[j].data + so;
    RunOfAligned(target, i, to, source, j, so, n, m);
    hide Total, Address, Aligned, ByteCopied, Disjoint;
    forall k: nat | k < n + m
      ensures ByteCopied(before, after, target, source, k)
    {
      StepByte(before, now, after, target, source, n, dst, src, m, k);
    }
    forall a: nat | a < |before| && !Written(target, n + m, a)
      ensures after[a] == before[a]
    {
      StepOutside(before, now, after, target, source, n, dst, src, m, a);
    }
    hide Written, Run, Moved;
  }

  lemma StepOutside(before: seq<Byte>, now: seq<Byte>, after: seq<Byte>, target: seq<Buffer>, source: seq<Buffer>,
                    n: nat, dst: nat, src: nat, m: nat, a: nat)
    requires Copyable(target, source, |before|) && Run(target, source, n, dst, src, m)
    requires Copied(before, now, target, source, n)
    requires dst + m <= |before| && src + m <= |before| && Moved(now, after, dst, src, m)
    requires a < |before| && !Written(target, n + m, a)
    ensures after[a] == before[a]
  {
    if Written(target, n, a) || dst <= a < dst + m {
      WrittenGrows(target, source, n, dst, src, m, a);
    }
    hide Written, Run, Total, Address;
  }

  /** Consecutive positions of target and source from `n` on have consecutive addresses. */
  predicate Run(target: seq<Buffer>, source: seq<Buffer>, n: nat, dst: nat, src: nat, m: nat) {
    && n + m <= Total(target) && n + m <= Total(source)
    && forall k: nat :: n <= k < n + m ==> Address(target, k) == dst + (k - n) && Address(source, k) == src + (k - n)
  }

  lemma RunOfAligned(target: seq<Buffer>, i: nat, to: nat, source: seq<Buffer>, j: nat, so: nat, n: nat, m: nat)
    requires Aligned(target, i, to, source, j, so, n)
    requires to + m <= target[i].size && so + m <= source[j].size
    ensures Run(target, source, n, target[i].data + to, source[j].data + so, m)
  {
    TotalTake(target, i);
    TotalTake(source, j);
    forall k: nat | n <= k < n + m
      ensures Address(target, k) == target[i].data + to + (k - n) && Address(source, k) == source[j].data + so + (k - n)
    {
      AddressAt(target, i, to + (k - n));
      AddressAt(source, j, so + (k - n));
    }
  }

  lemma WrittenGrows(target: seq<Buffer>, source: seq<Buffer>, n: nat, dst: nat, src: nat, m: nat, a: nat)
    requires Run(target, source, n, dst, src, m)
    requires Written(target, n, a) || dst <= a < dst + m
    ensures Written(target, n + m, a)
  {
    hide Address, Total;
    if dst <= a < dst + m {
      assert Address(target, n + (a - dst)) == a;
    } else {
      var k: nat :| k < n && Address(target, k) == a;
      assert k < n + m;
    }
  }

  lemma StepByte(before: seq<Byte>, now: seq<Byte>, after: seq<Byte>, target: seq<Buffer>, source: seq<Buffer>,
                 n: nat, dst: nat, src: nat, m: nat, k: nat)
    requires Copyable(target, source, |before|) && Run(target, source, n, dst, src, m) && k < n + m
    requires Copied(before, now, target, source, n)
    requires dst + m <= |before| && src + m <= |before| && Moved(now, after, dst, src, m)
    ensures ByteCopied(before, after, target, source, k)
  {
    hide Address, Total;
    AddressInMemory(target, |before|, k);
    AddressInMemory(source, |before|, k);
    var a := Address(target, k);
    if k < n {
      if dst <= a < dst + m {
        assert Address(target, n + (a - dst)) == a;
        TargetInjective(target, k, n + (a - dst));
      }
      assert ByteCopied(before, now, target, source, k);
    } else if Written(target, n, src + (k - n)) {
      var j: nat :| j < n && Address(target, j) == src + (k - n);
      TargetIsNotSource(target, source, |before|, j, k);
    }
  }

  lemma NothingCopied(mem: seq<Byte>, target: seq<Buffer>, source: seq<Buffer>)
    requires Copyable(target, source, |mem|)
    ensures Copied(mem, mem, target, source, 0)
  {
  }

  /** `buffer_copy_1`: one `memcpy` of the smaller of the two sizes. */
  method CopyOne(mem: array<Byte>, target: Buffer, source: Buffer) returns (n: nat)
    requires target.data + target.size <= mem.Length && source.data + source.size <= mem.Length
    requires Disjoint(target, source)
    modifies mem
    ensures n == Min(target.size, source.size)
    ensures Moved(old(mem[..]), mem[..], target.data, source.data, n)
  {
    n := Min(target.size, source.size);
    if n > 0 {
      forall k | 0 <= k < n {
        mem[target.data + k] := mem[source.data + k];
      }
    }
  }

  lemma SingleBuffer(b: Buffer)
    ensures Total([b]) == b.size && Total([b][..0]) == 0
  {
    assert [b][..0] == [];
  }

  lemma PartsDisjoint(target: seq<Buffer>, source: seq<Buffer>, size: nat, i: nat, t: Buffer, j: nat, s: Buffer)
    requires Copyable(target, source, size) && i < |target| && j < |source|
    requires target[i].data <= t.data && t.data + t.size <= target[i].data + target[i].size
    requires source[j].data <= s.data && s.data + s.size <= source[j].data + source[j].size
    ensures Disjoint(t, s) && t.data + t.size <= size && s.data + s.size <= size
  {
    forall address: nat | t.data <= address < t.data + t.size
      ensures !Covers(s, address)
    {
      assert !Covers(source[j], address);
    }
  }

  /** `offset` bytes into buffer `i`, or at the end, `n` bytes lie behind. */
  predicate AtPlace(bs: seq<Buffer>, i: nat, offset: nat, n: nat) {
    && i <= |bs| && n == Total(bs[..i]) + offset
    && (i < |bs| ==> offset <= bs[i].size) && (i == |bs| ==> offset == 0)
  }

  lemma NextPlace(bs: seq<Buffer>, i: nat, offset: nat, n: nat, copied: nat)
    requires i < |bs| && AtPlace(bs, i, offset, n) && offset + copied <= bs[i].size
    ensures offset + copied == bs[i].size ==> AtPlace(bs, i + 1, 0, n + copied)
    ensures offset + copied < bs[i].size ==> AtPlace(bs, i, offset + copied, n + copied)
  {
    TotalTake(bs, i);
  }

  /** One `buffer_copy_1` on parts of aligned buffers, and where it leaves both sides. */
  method CopyPart(mem: array<Byte>, t: Buffer, s: Buffer, ghost before: seq<Byte>,
                  ghost target: seq<Buffer>, ghost i: nat, ghost to: nat,
                  ghost source: seq<Buffer>, ghost j: nat, ghost so: nat, ghost n: nat)
    returns (copied: nat)
    requires |before| == mem.Length && Copyable(target, source, |before|)
    requires i < |target| && AtPlace(target, i, to, n) && j < |source| && AtPlace(source, j, so, n)
    requires t.data == target[i].data + to && to + t.size <= target[i].size
    requires s.data == source[j].data + so && so + s.size <= source[j].size
    requires n <= Total(target) && n <= Total(source) && Copied(before, mem[..], target, source, n)
    modifies mem
    ensures copied == Min(t.size, s.size)
    ensures n + copied <= Total(target) && n + copied <= Total(source)
    ensures Copied(before, mem[..], target, source, n + copied)
    ensures to + copied == target[i].size ==> AtPlace(target, i + 1, 0, n + copied)
    ensures to + copied < target[i].size ==> AtPlace(target, i, to + copied, n + copied)
    ensures so + copied == source[j].size ==> AtPlace(source, j + 1, 0, n + copied)
    ensures so + copied < source[j].size ==> AtPlace(source, j, so + copied, n + copied)
  {
    PartsDisjoint(target, source, mem.Length, i, t, j, s);
    ghost var now := mem[..];
    copied := CopyOne(mem, t, s);
    hide Copied, Copyable, Moved, Total;
    CopyStep(before, now, mem[..], target, source, n, i, to, j, so, copied);
    NextPlace(target, i, to, n, copied);
    NextPlace(source, j, so, n, copied);
  }

  lemma AtStart(bs: seq<Buffer>)
    ensures AtPlace(bs, 0, 0, 0)
  {
    assert bs[..0] == [];
  }

  lemma AtEnd(bs: seq<Buffer>, n: nat)
    requires AtPlace(bs, |bs|, 0, n)
    ensures n == Total(bs)
  {
    assert bs[..|bs|] == bs;
  }

  /** One buffer to one buffer. */
  method OneToOne(mem: array<Byte>, target: Buffer, source: Buffer) returns (n: nat)
    requires Copyable([target], [source], mem.Length)
    modifies mem
    ensures n == Min(Total([target]), Total([source]))
    ensures Copied(old(mem[..]), mem[..], [target], [source], n)
  {
    hide Copied, Disjoint;
    SingleBuffer(target);
    SingleBuffer(source);
    AtStart([target]);
    AtStart([source]);
    NothingCopied(mem[..], [target], [source]);
    n := CopyPart(mem, target, source, mem[..], [target], 0, 0, [source], 0, 0, 0);
  }

  method OneToOneLimited(mem: array<Byte>, target: Buffer, source: Buffer, maxBytes: nat) returns (n: nat)
    requires Copyable([target], [source], mem.Length)
    modifies mem
    ensures n == Min(Min(Total([target]), Total([source])), maxBytes)
    ensures Copied(old(mem[..]), mem[..], [target], [source], n)
  {
    hide Copied, Disjoint;
    SingleBuffer(target);
    SingleBuffer(source);
    AtStart([target]);
    AtStart([source]);
    NothingCopied(mem[..], [target], [source]);
    n := CopyPart(mem, target, Limit(source, maxBytes), mem[..], [target], 0, 0, [source], 0, 0, 0);
  }

  /** One buffer from many. The default limit is the largest `size_t`. */
  method OneToMany(mem: array<Byte>, target: Buffer, source: seq<Buffer>, maxBytes: nat) returns (n: nat)
    requires Copyable([target], source, mem.Length)
    modifies mem
    ensures n == Min(Min(Total([target]), Total(source)), maxBytes)
    ensures Copied(old(mem[..]), mem[..], [target], source, n)
  {
    hide Copied, Disjoint;
    SingleBuffer(target);
    AtStart([target]);
    AtStart(source);
    NothingCopied(mem[..], [target], source);
    n := 0;
    var iter := 0;
    var left := Limit(target, maxBytes);
    while left.size != 0 && iter != |source|
      invariant 0 <= iter <= |source| && n <= Total([target]) && n <= Total(source) && n <= maxBytes
      invariant left.data == target.data + n && left.size + n == Min(target.size, maxBytes)
      invariant left.size != 0 ==> AtPlace(source, iter, 0, n)
      invariant Copied(old(mem[..]), mem[..], [target], source, n)
      decreases |source| - iter
    {
      AtOffset(target, n);
      var copied := CopyPart(mem, left, source[iter], old(mem[..]), [target], 0, n, source, iter, 0, n);
      n := n + copied;
      left := Skip(left, copied);
      iter := iter + 1;
    }
    if left.size != 0 {
      AtEnd(source, n);
    }
  }

  /** Many buffers from one. */
  method ManyToOne(mem: array<Byte>, target: seq<Buffer>, source: Buffer, maxBytes: nat) returns (n: nat)
    requires Copyable(target, [source], mem.Length)
    modifies mem
    ensures n == Min(Min(Total(target), Total([source])), maxBytes)
    ensures Copied(old(mem[..]), mem[..], target, [source], n)
  {
    hide Copied, Disjoint;
    SingleBuffer(source);
    AtStart(target);
    AtStart([source]);
    NothingCopied(mem[..], target, [source]);
    n := 0;
    var iter := 0;
    var left := Limit(source, maxBytes);
    while left.size != 0 && iter != |target|
      invariant 0 <= iter <= |target| && n <= Total(target) && n <= Total([source]) && n <= maxBytes
      invariant left.data == source.data + n && left.size + n == Min(source.size, maxBytes)
      invariant left.size != 0 ==> AtPlace(target, iter, 0, n)
      invariant Copied(old(mem[..]), mem[..], target, [source], n)
      decreases |target| - iter
    {
      AtOffset(source, n);
      var copied := CopyPart(mem, target[iter], left, old(mem[..]), target, iter, 0, [source], 0, n, n);
      n := n + copied;
      left := Skip(left, copied);
      iter := iter + 1;
    }
    if left.size != 0 {
      AtEnd(target, n);
    }
  }

  lemma AtOffset(b: Buffer, n: nat)
    requires n <= b.size
    ensures AtPlace([b], 0, n, n)
  {
    SingleBuffer(b);
  }

  /** Many buffers from many: both offsets move, and every round leaves at least one buffer. */
  method ManyToMany(mem: array<Byte>, target: seq<Buffer>, source: seq<Buffer>) returns (n: nat)
    requires Copyable(target, source, mem.Length)
    modifies mem
    ensures n == Min(Total(target), Total(source))
    ensures Copied(old(mem[..]), mem[..], target, source, n)
  {
    hide Copied, Disjoint, Total;
    NothingCopied(mem[..], target, source);
    AtStart(target);
    AtStart(source);
    n := 0;
    var ti: nat, to: nat, si: nat, so: nat := 0, 0, 0, 0;
    while ti != |target| && si != |source|
      invariant AtPlace(target, ti, to, n) && AtPlace(source, si, so, n)
      invariant n <= Total(target) && n <= Total(source) && Copied(old(mem[..]), mem[..], target, source, n)
      decreases |target| - ti + |source| - si
    {
      var targetBuffer, sourceBuffer := Skip(target[ti], to), Skip(source[si], so);
      var copied := CopyPart(mem, targetBuffer, sourceBuffer, old(mem[..]), target, ti, to, source, si, so, n);
      n := n + copied;
      if copied == targetBuffer.size { ti, to := ti + 1, 0; } else { to := to + copied; }
      if copied == sourceBuffer.size { si, so := si + 1, 0; } else { so := so + copied; }
    }
    if ti == |target| { AtEnd(target, n); }
    if si == |source| { AtEnd(source, n); }
  }

  /** The same with a limit, which ends the loop when it is reached. */
  method ManyToManyLimited(mem: array<Byte>, target: seq<Buffer>, source: seq<Buffer>, maxBytes: nat) returns (n: nat)
    requires Copyable(target, source, mem.Length)
    modifies mem
    ensures n == Min(Min(Total(target), Total(source)), maxBytes)
    ensures Copied(old(mem[..]), mem[..], target, source, n)
  {
    hide Copied, Disjoint, Total;
    NothingCopied(mem[..], target, source);
    AtStart(target);
    AtStart(source);
    n := 0;
    var ti: nat, to: nat, si: nat, so: nat := 0, 0, 0, 0;
    while n != maxBytes && ti != |target| && si != |source|
      invariant AtPlace(target, ti, to, n) && AtPlace(source, si, so, n) && n <= maxBytes
      invariant n <= Total(target) && n <= Total(source) && Copied(old(mem[..]), mem[..], target, source, n)
      decreases |target| - ti + |source| - si + if n != maxBytes then 1 else 0
    {
      var targetBuffer, sourceBuffer := Skip(target[ti], to), Skip(source[si], so);
      var copied := CopyPart(mem, targetBuffer, Limit(sourceBuffer, maxBytes - n), old(mem[..]),
                             target, ti, to, source, si, so, n);
      n := n + copied;
      if copied == targetBuffer.size { ti, to := ti + 1, 0; } else { to := to + copied; }
      if copied == sourceBuffer.size { si, so := si + 1, 0; } else { so := so + copied; }
    }
    if ti == |target| { AtEnd(target, n); }
    if si == |source| { AtEnd(source, n); }
  }

  /** `buffer_copy` with a limit: the overload for the two sequences is called, and whichever it is,
      the flattened target starts with the flattened source, as far as the sizes and the limit let
      it, and goes on as before. */
  method CopyFlat(mem: array<Byte>, target: seq<Buffer>, source: seq<Buffer>, maxBytes: nat) returns (n: nat)
    requires Copyable(target, source, mem.Length)
    modifies mem
    ensures n == Min(Min(Total(target), Total(source)), maxBytes)
    ensures Flat(mem[..], target) == old(Flat(mem[..], source))[..n] + old(Flat(mem[..], target))[n..]
    ensures Flat(mem[..], source) == old(Flat(mem[..], source))
  {
    ghost var before := mem[..];
    if |target| == 1 && |source| == 1 {
      assert target == [target[0]] && source == [source[0]];
      n := OneToOneLimited(mem, target[0], source[0], maxBytes);
    } else if |target| == 1 {
      assert target == [target[0]];
      n := OneToMany(mem, target[0], source, maxBytes);
    } else if |source| == 1 {
      assert source == [source[0]];
      n := ManyToOne(mem, target, source[0], maxBytes);
    } else {
      n := ManyToManyLimited(mem, target, source, maxBytes);
    }
    CopiedFlat(before, mem[..], target, source, n);
  }
}
