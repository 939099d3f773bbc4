/** asio::buffers_iterator: a random access iterator over the bytes of a sequence of buffers, some
    of which may be empty. The iterator keeps a copy of the current buffer, an offset in it and the
    position in the flat concatenation; increment, decrement and advance move through the
    buffers one by one. Assertions of the source ("iterator out of bounds") are preconditions. */
module BuffersIterator {
  import opened Machine

  type Buffers = seq<seq<Byte>>

  /** The total size of the first `k` buffers. */
  function Before(buffers: Buffers, k: nat): (n: nat)
    requires k <= |buffers|
  {
    if k == 0 then 0 else Before(buffers, k - 1) + |buffers[k - 1]|
  }

  function Total(buffers: Buffers): nat {
    Before(buffers, |buffers|)
  }

  /** All bytes of the first `k` buffers. */
  function Flat(buffers: Buffers, k: nat): (s: seq<Byte>)
    requires k <= |buffers|
    ensures |s| == Before(buffers, k)
  {
    if k == 0 then [] else Flat(buffers, k - 1) + buffers[k - 1]
  }

  lemma {:induction false} BeforeMonotone(buffers: Buffers, j: nat, k: nat)
    requires j <= k <= |buffers|
    ensures Before(buffers, j) <= Before(buffers, k)
    ensures (forall i :: j <= i < k ==> buffers[i] == []) ==> Before(buffers, j) == Before(buffers, k)
    decreases k - j
  {
    if j < k {
      BeforeMonotone(buffers, j, k - 1);
    }
  }

  /** Byte `offset` of buffer `k` is the byte of the concatenation at the size of the earlier
      buffers plus `offset`. */
  lemma {:induction false} FlatAt(buffers: Buffers, k: nat, offset: nat, n: nat)
    requires k < n <= |buffers| && offset < |buffers[k]|
    ensures Before(buffers, k) + offset < Before(buffers, n)
    ensures Flat(buffers, n)[Before(buffers, k) + offset] == buffers[k][offset]
    decreases n
  {
    BeforeMonotone(buffers, k + 1, n);
    if k < n - 1 {
      FlatAt(buffers, k, offset, n - 1);
    }
  }

  /** Where an iterator stands: inside a buffer, so never in an empty one, or at the end. */
  predicate Stands(buffers: Buffers, current: nat, offset: nat, position: nat) {
    && current <= |buffers|
    && (current < |buffers| ==> offset < |buffers[current]|)
    && (current == |buffers| ==> offset == 0)
    && position == Before(buffers, current) + offset
  }

  /** The position determines buffer and offset, so iterators at the same position are the same
      whichever way they came. */
  lemma StandsUnique(buffers: Buffers, c1: nat, o1: nat, c2: nat, o2: nat, position: nat)
    requires Stands(buffers, c1, o1, position) && Stands(buffers, c2, o2, position)
    ensures c1 == c2 && o1 == o2
  {
    if c1 < c2 {
      BeforeMonotone(buffers, c1 + 1, c2);
    } else if c2 < c1 {
      BeforeMonotone(buffers, c2 + 1, c1);
    }
  }

  /** Every position up to the end is one an iterator can stand at. */
  lemma {:induction false} StandsExists(buffers: Buffers, k: nat, position: nat) returns (current: nat, offset: nat)
    requires k <= |buffers| && Before(buffers, k) <= position <= Total(buffers)
    ensures Stands(buffers, current, offset, position)
    decreases |buffers| - k
  {
    if k == |buffers| {
      current, offset := k, 0;
    } else if position < Before(buffers, k + 1) {
      current, offset := k, position - Before(buffers, k);
    } else {
      current, offset := StandsExists(buffers, k + 1, position);
    }
  }

  class Iterator {
    const buffers: Buffers
    var currentBuffer: seq<Byte>
    var currentBufferPosition: nat
    var current: nat
    var position: nat

    ghost predicate Valid()
      reads this
    {
      && Stands(buffers, current, currentBufferPosition, position)
      && (current < |buffers| ==> currentBuffer == buffers[current])
    }

    /** `begin`: the first non-empty buffer. */
    constructor Begin(buffers: Buffers)
      ensures Valid() && this.buffers == buffers && position == 0
    {
      this.buffers := buffers;
      currentBuffer, currentBufferPosition, current, position := [], 0, 0, 0;
      new;
      FindNext();
    }

    /** `end`: behind the last buffer, with the sizes of all of them added up. */
    constructor End(buffers: Buffers)
      ensures Valid() && this.buffers == buffers && position == Total(buffers)
    {
      this.buffers := buffers;
      currentBuffer, currentBufferPosition, current, position := [], 0, 0, 0;
      new;
      while current != |this.buffers|
        invariant 0 <= current <= |this.buffers| && currentBufferPosition == 0
        invariant position == Before(this.buffers, current)
      {
        position := position + |this.buffers[current]|;
        current := current + 1;
      }
    }

    /** The loop that `begin` and `increment` share: on to the next buffer that is not empty. */
    method FindNext()
      requires current <= |buffers| && currentBufferPosition == 0 && position == Before(buffers, current)
      modifies this
      ensures Valid() && position == old(position)
    {
      while current != |buffers|
        invariant current <= |buffers| && currentBufferPosition == 0
        invariant position == Before(buffers, current) == old(position)
      {
        currentBuffer := buffers[current];
        if |currentBuffer| > 0 {
          return;
        }
        current := current + 1;
      }
    }

    /** `dereference` reads the concatenation at the iterator's position. */
    method Dereference() returns (b: Byte)
      requires Valid() && current != |buffers|
      ensures position < Total(buffers)
      ensures b == Flat(buffers, |buffers|)[position]
    {
      FlatAt(buffers, current, currentBufferPosition, |buffers|);
      b := currentBuffer[currentBufferPosition];
    }

    method Increment()
      requires Valid() && current != |buffers|
      modifies this
      ensures Valid() && position == old(position) + 1
    {
      position := position + 1;
      currentBufferPosition := currentBufferPosition + 1;
      if currentBufferPosition != |currentBuffer| {
        return;
      }
      current := current + 1;
      currentBufferPosition := 0;
      FindNext();
    }

    method Decrement()
      requires Valid() && position > 0
      modifies this
      ensures Valid() && position == old(position) - 1
    {
      position := position - 1;
      if currentBufferPosition != 0 {
        currentBufferPosition := currentBufferPosition - 1;
        return;
      }
      var iter := current;
      while iter != 0
        invariant 0 <= iter <= current
        invariant forall k :: iter <= k < current ==> buffers[k] == []
      {
        iter := iter - 1;
        var buffer := buffers[iter];
        if |buffer| > 0 {
          BeforeMonotone(buffers, iter + 1, current);
          current, currentBuffer, currentBufferPosition := iter, buffer, |buffer| - 1;
          return;
        }
      }
      // unreachable: all earlier buffers would be empty, but the position was positive
      BeforeMonotone(buffers, 0, current);
      assert false;
    }

    /** `advance`. The bound for a forward move is the end; for a backward move the start. */
    method Advance(n: int)
      requires Valid()
      requires n > 0 ==> current != |buffers| && position + n <= Total(buffers)
      requires n < 0 ==> position + n >= 0
      modifies this
      ensures Valid() && position == old(position) + n
    {
      if n > 0 {
        AdvanceForward(n);
      } else if n < 0 {
        AdvanceBackward(-n);
      }
    }

    method AdvanceForward(distance: nat)
      requires Valid() && current != |buffers| && position + distance <= Total(buffers)
      modifies this
      ensures Valid() && position == old(position) + distance
    {
      var n := distance;
      while true
        invariant 0 <= n && current < |buffers| && currentBuffer == buffers[current]
        invariant currentBufferPosition <= |currentBuffer|
        invariant position == Before(buffers, current) + currentBufferPosition
        invariant position + n == old(position) + distance
        decreases |buffers| - current
      {
        var currentBufferBalance := |currentBuffer| - currentBufferPosition;
        if currentBufferBalance > n {
          position, currentBufferPosition := position + n, currentBufferPosition + n;
          return;
        }
        n := n - currentBufferBalance;
        position := position + currentBufferBalance;
        current := current + 1;
        if current == |buffers| {
          // the assertion of the source
          assert n == 0;
          currentBuffer, currentBufferPosition := [], 0;
          return;
        }
        currentBuffer, currentBufferPosition := buffers[current], 0;
      }
    }

    /** The search for an earlier buffer with bytes in it always succeeds, because as long as there
        is a distance left to go the position is positive; so the outer loop terminates. */
    method AdvanceBackward(distance: nat)
      requires Valid() && 0 < distance <= position
      modifies this
      ensures Valid() && position == old(position) - distance
    {
      var absN := distance;
      while true
        invariant 0 < absN && current <= |buffers|
        invariant current < |buffers| ==> currentBuffer == buffers[current] && currentBufferPosition <= |currentBuffer|
        invariant current == |buffers| ==> currentBufferPosition == 0
        invariant position == Before(buffers, current) + currentBufferPosition
        invariant position - absN == old(position) - distance >= 0
        decreases current
      {
        if currentBufferPosition >= absN {
          position, currentBufferPosition := position - absN, currentBufferPosition - absN;
          return;
        }
        absN := absN - currentBufferPosition;
        position := position - currentBufferPosition;
        // the assertion of the source: at the beginning no distance would be left, but some is
        if current == 0 {
          assert false;
        }
        SomeBytesBefore(buffers, current);
        var iter := current;
        while iter != 0
          invariant 0 <= iter <= current
          invariant exists k :: 0 <= k < iter && buffers[k] != []
          invariant forall k :: iter <= k < current ==> buffers[k] == []
        {
          iter := iter - 1;
          var buffer := buffers[iter];
          var bufferSize := |buffer|;
          if bufferSize > 0 {
            BeforeMonotone(buffers, iter + 1, current);
            current, currentBuffer, currentBufferPosition := iter, buffer, bufferSize;
            break;
          }
        }
      }
    }

    /** `distance_to`: the distance to advance by to get to the other iterator. */
    function DistanceTo(other: Iterator): (d: int)
      reads this, other
      ensures position + d == other.position
    {
      other.position - position
    }

    /** `equal`: compares positions, which is the same as comparing places. */
    predicate Equal(other: Iterator)
      reads this, other
    {
      position == other.position
    }
  }

  lemma {:induction false} SomeBytesBefore(buffers: Buffers, k: nat)
    requires k <= |buffers| && Before(buffers, k) > 0
    ensures exists j :: 0 <= j < k && buffers[j] != []
    decreases k
  {
    if buffers[k - 1] == [] {
      SomeBytesBefore(buffers, k - 1);
      var j :| 0 <= j < k - 1 && buffers[j] != [];
    }
  }

  /** Two iterators over the same buffers compare equal exactly when they stand in the same buffer
      at the same offset, however they got there. */
  lemma EqualIsSamePlace(a: Iterator, b: Iterator)
    requires a.Valid() && b.Valid() && a.buffers == b.buffers
    ensures a.Equal(b) <==> a.current == b.current && a.currentBufferPosition == b.currentBufferPosition
  {
    if a.Equal(b) {
      StandsUnique(a.buffers, a.current, a.currentBufferPosition, b.current, b.currentBufferPosition, a.position);
    }
  }

  /** `advance(n)` lands where |n| increments or decrements land. */
  method AdvanceIsStepping(a: Iterator, b: Iterator, n: int)
    requires a != b && a.Valid() && b.Valid() && a.buffers == b.buffers && a.Equal(b)
    requires n > 0 ==> a.position + n <= Total(a.buffers)
    requires n < 0 ==> a.position + n >= 0
    modifies a, b
    ensures a.Valid() && b.Valid() && a.position == old(a.position) + n
    ensures a.Equal(b) && a.current == b.current && a.currentBufferPosition == b.currentBufferPosition
  {
    if n > 0 {
      NotAtEnd(a.buffers, a.current, a.currentBufferPosition, a.position);
    }
    a.Advance(n);
    if n >= 0 {
      for i := 0 to n
        invariant b.Valid() && a.Valid() && b.position == old(b.position) + i && a.position == old(a.position) + n
      {
        NotAtEnd(b.buffers, b.current, b.currentBufferPosition, b.position);
        b.Increment();
      }
    } else {
      for i := 0 to -n
        invariant b.Valid() && a.Valid() && b.position == old(b.position) - i && a.position == old(a.position) + n
      {
        b.Decrement();
      }
    }
    EqualIsSamePlace(a, b);
  }

  /** Advancing by the distance to another iterator leads to its place, in either direction. */
  method AdvanceByDistance(a: Iterator, b: Iterator)
    requires a != b && a.Valid() && b.Valid() && a.buffers == b.buffers
    modifies a
    ensures a.Valid() && a.Equal(b) && a.current == b.current && a.currentBufferPosition == b.currentBufferPosition
  {
    var n := a.DistanceTo(b);
    if n > 0 {
      NotAtEnd(a.buffers, a.current, a.currentBufferPosition, a.position);
      NotAtEnd(b.buffers, b.current, b.currentBufferPosition, b.position);
      BeforeMonotone(b.buffers, b.current, |b.buffers|);
    }
    a.Advance(n);
    EqualIsSamePlace(a, b);
  }

  /** Before the end of the bytes an iterator stands inside a buffer. */
  lemma NotAtEnd(buffers: Buffers, current: nat, offset: nat, position: nat)
    requires Stands(buffers, current, offset, position)
    ensures current != |buffers| <==> position < Total(buffers)
  {
    if current < |buffers| {
      BeforeMonotone(buffers, current + 1, |buffers|);
    }
  }
}
