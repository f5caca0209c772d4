/** A window that slides over a block of bytes: `Buffer`. */
module Buffers {
  type Byte = b: int | 0 <= b < 256

  /** The first `n` bytes; bytes beyond the old ones are unspecified. */
  ghost predicate Resized(was: seq<Byte>, now: seq<Byte>, n: nat) {
    |now| == n && (if n <= |was| then now == was[..n] else now[..|was|] == was)
  }

  /** A part replaced by as many other bytes. */
  ghost function Splice(s: seq<Byte>, to: nat, d: seq<Byte>): (r: seq<Byte>)
    requires to + |d| <= |s|
    ensures |r| == |s|
  {
    s[..to] + d + s[to + |d|..]
  }

  lemma SpliceIn(s: seq<Byte>, to: nat, d: seq<Byte>)
    requires to + |d| <= |s|
    ensures Splice(s, to, d)[to..to + |d|] == d
    ensures forall p, q :: 0 <= p <= q <= to ==> Splice(s, to, d)[p..q] == s[p..q]
    ensures forall p, q :: to + |d| <= p <= q <= |s| ==> Splice(s, to, d)[p..q] == s[p..q]
  {
  }

  lemma Halves(s: seq<Byte>, p: nat, m: nat, q: nat)
    requires p <= m <= q <= |s|
    ensures s[p..q] == s[p..m] + s[m..q]
  {
  }

  /** The bytes `lo` to `hi` of a part have gone from `from` to `to`. */
  ghost predicate Moved(now: seq<Byte>, s: seq<Byte>, to: nat, from: nat, lo: nat, hi: nat)
    requires to + hi <= |s| && from + hi <= |s|
  {
    && |now| == |s|
    && (forall k :: to + lo <= k < to + hi ==> now[k] == s[k - to + from])
    && (forall k :: 0 <= k < |s| && !(to + lo <= k < to + hi) ==> now[k] == s[k])
  }

  lemma NothingMoved(s: seq<Byte>, to: nat, from: nat, n: nat)
    requires to + n <= |s| && from + n <= |s|
    ensures Moved(s, s, to, from, 0, 0) && Moved(s, s, to, from, n, n)
  {
  }

  lemma MovedOn(now: seq<Byte>, s: seq<Byte>, to: nat, from: nat, lo: nat, hi: nat)
    requires to <= from && lo <= hi && from + hi < |s| && Moved(now, s, to, from, lo, hi)
    ensures Moved(now[to + hi := now[from + hi]], s, to, from, lo, hi + 1)
  {
    assert now[from + hi] == s[from + hi];
  }

  lemma MovedBack(now: seq<Byte>, s: seq<Byte>, to: nat, from: nat, lo: nat, hi: nat)
    requires from < to && 0 < lo <= hi && to + hi <= |s| && Moved(now, s, to, from, lo, hi)
    ensures Moved(now[to + lo - 1 := now[from + lo - 1]], s, to, from, lo - 1, hi)
  {
    assert now[from + lo - 1] == s[from + lo - 1];
  }

  lemma AllMoved(now: seq<Byte>, s: seq<Byte>, to: nat, from: nat, n: nat)
    requires to + n <= |s| && from + n <= |s| && Moved(now, s, to, from, 0, n)
    ensures now == Splice(s, to, s[from..from + n])
  {
    var r := Splice(s, to, s[from..from + n]);
    assert forall k :: 0 <= k < to ==> r[k] == s[k];
    assert forall k :: to <= k < to + n ==> r[k] == s[k - to + from];
    assert forall k :: to + n <= k < |s| ==> r[k] == s[k];
  }

  class Buffer {
    var buffer: array?<Byte>   // room for one byte more than the capacity
    var bufferStart: nat
    var bufferEnd: nat
    var capacity: nat

    ghost predicate Valid()
      reads this
    {
      && bufferStart <= bufferEnd <= capacity
      && (if buffer == null then capacity == 0 else buffer.Length == capacity + 1)
    }

    ghost function Contents(): (s: seq<Byte>)
      requires Valid()
      reads this, buffer
      ensures |s| == bufferEnd - bufferStart
    {
      if buffer == null then [] else buffer[bufferStart..bufferEnd]
    }

    constructor ()
      ensures Valid() && Contents() == [] && buffer == null
    {
      buffer := null;
      bufferStart, bufferEnd, capacity := 0, 0, 0;
    }

    function Size(): nat
      requires Valid()
      reads this
    {
      bufferEnd - bufferStart
    }

    predicate IsEmpty()
      reads this
    {
      bufferStart == bufferEnd
    }

    lemma Sizes()
      requires Valid()
      ensures Size() == |Contents()| && (IsEmpty() <==> Contents() == [])
    {
    }

    /** `Memory::move`: the parts may overlap. */
    static method Move(a: array<Byte>, to: nat, from: nat, n: nat)
      requires to + n <= a.Length && from + n <= a.Length
      modifies a
      ensures a[..] == Splice(old(a[..]), to, old(a[from..from + n]))
    {
      if to <= from {
        MoveDown(a, to, from, n);
      } else {
        MoveUp(a, to, from, n);
      }
    }

    static method MoveDown(a: array<Byte>, to: nat, from: nat, n: nat)
      requires to <= from && from + n <= a.Length
      modifies a
      ensures a[..] == Splice(old(a[..]), to, old(a[from..from + n]))
    {
      hide Moved, Splice;
      ghost var s := a[..];
      NothingMoved(s, to, from, n);
      for i := 0 to n
        invariant Moved(a[..], s, to, from, 0, i)
      {
        MovedOn(a[..], s, to, from, 0, i);
        ghost var was := a[..];
        a[to + i] := a[from + i];
        assert a[..] == was[to + i := was[from + i]];
      }
      AllMoved(a[..], s, to, from, n);
    }

    static method MoveUp(a: array<Byte>, to: nat, from: nat, n: nat)
      requires from < to && to + n <= a.Length
      modifies a
      ensures a[..] == Splice(old(a[..]), to, old(a[from..from + n]))
    {
      hide Moved, Splice;
      ghost var s := a[..];
      NothingMoved(s, to, from, n);
      for i := n downto 0
        invariant Moved(a[..], s, to, from, i, n)
      {
        MovedBack(a[..], s, to, from, i + 1, n);
        ghost var was := a[..];
        a[to + i] := a[from + i];
        assert a[..] == was[to + i := was[from + i]];
      }
      AllMoved(a[..], s, to, from, n);
    }

    /** `Memory::copy`. */
    static method Copy(a: array<Byte>, to: nat, data: seq<Byte>)
      requires to + |data| <= a.Length
      modifies a
      ensures a[..] == Splice(old(a[..]), to, data)
    {
      ghost var s := a[..];
      for i := 0 to |data|
        invariant forall k :: to <= k < to + i ==> a[k] == data[k - to]
        invariant forall k :: 0 <= k < a.Length && !(to <= k < to + i) ==> a[k] == s[k]
      {
        a[to + i] := data[i];
      }
    }

    /** A larger block with the contents at index `at`. */
    method Reallocate(newCapacity: nat, at: nat) returns (newBuffer: array<Byte>)
      requires Valid() && at + |Contents()| <= newCapacity
      ensures fresh(newBuffer) && newBuffer.Length == newCapacity + 1
      ensures newBuffer[at..at + |Contents()|] == Contents()
    {
      hide Splice;
      newBuffer := new Byte[newCapacity + 1];
      if buffer != null {
        SpliceIn(newBuffer[..], at, buffer[bufferStart..bufferEnd]);
        Copy(newBuffer, at, buffer[bufferStart..bufferEnd]);
        assert newBuffer[at..at + |Contents()|] == newBuffer[..][at..at + |Contents()|];
      }
    }

    method Resize(size: nat)
      requires Valid()
      modifies this, buffer
      ensures Valid() && (buffer == old(buffer) || fresh(buffer)) && Resized(old(Contents()), Contents(), size)
      ensures buffer == null ==> size == 0
    {
      hide Resized;
      ghost var was := Contents();
      if size > capacity {
        var newBuffer := Reallocate(size, 0);
        ghost var block := newBuffer[..];
        assert block[0..|was|] == was;
        capacity := size;
        buffer := newBuffer;
        bufferStart := 0;
        bufferEnd := size;
        buffer[bufferEnd] := 0;
        Extended(block, was, 0, size);
        assert Contents() == block[0..size];
      } else if buffer != null {
        if bufferStart + size <= capacity {
          ghost var block := buffer[..];
          Extended(block, was, bufferStart, size);
          bufferEnd := bufferStart + size;
          buffer[bufferEnd] := 0;
          assert Contents() == block[bufferStart..bufferEnd];
        } else {
          SlideToFront(size);
        }
      } else {
        Extended([], was, 0, size);
        assert Contents() == [][0..0];
      }
    }

    /** The contents move to the front of the block to make room behind them. */
    method SlideToFront(size: nat)
      requires Valid() && buffer != null && size <= capacity && |Contents()| <= size
      modifies this`bufferStart, this`bufferEnd, buffer
      ensures Valid() && Resized(old(Contents()), Contents(), size)
    {
      hide Resized, Splice;
      ghost var was := Contents();
      SpliceIn(buffer[..], 0, was);
      Move(buffer, 0, bufferStart, bufferEnd - bufferStart);
      ghost var block := buffer[..];
      assert block[0..|was|] == was;
      Extended(block, was, 0, size);
      bufferStart := 0;
      bufferEnd := size;
      buffer[bufferEnd] := 0;
      assert Contents() == block[0..size];
    }

    static lemma Extended(block: seq<Byte>, was: seq<Byte>, start: nat, size: nat)
      requires start + |was| <= |block| && block[start..start + |was|] == was && start + size <= |block|
      ensures Resized(was, block[start..start + size], size)
    {
    }

    /** `append`: appends to the contents, wherever the window stands. */
    method Append(data: seq<Byte>)
      requires Valid()
      modifies this, buffer
      ensures Valid() && (buffer == old(buffer) || fresh(buffer)) && Contents() == old(Contents()) + data
    {
      Resize(bufferEnd - bufferStart + |data|);
      if buffer != null {
        PutLast(data);
      }
    }

    /** The contents have grown by the room for the data. */
    method PutLast(data: seq<Byte>)
      requires Valid() && buffer != null && |data| <= |Contents()|
      modifies buffer
      ensures Valid() && Contents() == old(Contents())[..|old(Contents())| - |data|] + data
    {
      hide Splice;
      ghost var block := buffer[..];
      var to := bufferEnd - |data|;
      assert block[bufferStart..to] == Contents()[..to - bufferStart];
      SpliceIn(block, to, data);
      Halves(Splice(block, to, data), bufferStart, to, bufferEnd);
      Copy(buffer, to, data);
      assert Contents() == buffer[..][bufferStart..bufferEnd];
      buffer[bufferEnd] := 0;
    }

    method Prepend(data: seq<Byte>)
      requires Valid()
      modifies this, buffer
      ensures Valid() && (buffer == old(buffer) || fresh(buffer)) && Contents() == data + old(Contents())
    {
      hide Splice;
      ghost var was := Contents();
      var size := |data|;
      if buffer != null && bufferStart >= size {
        PutBefore(data);
        return;
      }
      var oldSize := bufferEnd - bufferStart;
      var requiredCapacity := size + oldSize;
      if buffer != null && capacity >= requiredCapacity {
        SpliceIn(buffer[..], size, was);
        Move(buffer, size, bufferStart, oldSize);
      } else {
        var newBuffer := Reallocate(requiredCapacity, size);
        capacity := requiredCapacity;
        buffer := newBuffer;
      }
      assert buffer[..][size..requiredCapacity] == was;
      PutFirst(data, oldSize);
    }

    /** The bytes that stay have been put behind the room at the front of the block. */
    method PutFirst(data: seq<Byte>, oldSize: nat)
      requires buffer != null && buffer.Length == capacity + 1 && |data| + oldSize <= capacity
      modifies this`bufferStart, this`bufferEnd, buffer
      ensures Valid() && Contents() == data + old(buffer[|data|..|data| + oldSize])
    {
      hide Splice;
      ghost var block := buffer[..];
      SpliceIn(block, 0, data);
      Halves(Splice(block, 0, data), 0, |data|, |data| + oldSize);
      Copy(buffer, 0, data);
      bufferStart := 0;
      bufferEnd := |data| + oldSize;
      assert Contents() == buffer[..][0..|data| + oldSize];
    }

    /** There is room before the window. */
    method PutBefore(data: seq<Byte>)
      requires Valid() && buffer != null && bufferStart >= |data|
      modifies this`bufferStart, buffer
      ensures Valid() && Contents() == data + old(Contents())
    {
      hide Splice;
      ghost var block := buffer[..];
      assert Contents() == block[bufferStart..bufferEnd];
      bufferStart := bufferStart - |data|;
      SpliceIn(block, bufferStart, data);
      Halves(Splice(block, bufferStart, data), bufferStart, bufferStart + |data|, bufferEnd);
      Copy(buffer, bufferStart, data);
      assert Contents() == buffer[..][bufferStart..bufferEnd];
    }

    method RemoveFront(size: nat)
      requires Valid()
      modifies this
      ensures Valid() && buffer == old(buffer)
      ensures Contents() == if size >= |old(Contents())| then [] else old(Contents())[size..]
    {
      bufferStart := bufferStart + size;
      if bufferStart >= bufferEnd {
        bufferStart, bufferEnd := 0, 0;
      }
    }

    method RemoveBack(size: nat)
      requires Valid()
      modifies this, buffer
      ensures Valid() && buffer == old(buffer)
      ensures Contents() == if size >= |old(Contents())| then [] else old(Contents())[..|old(Contents())| - size]
    {
      if bufferStart + size >= bufferEnd {
        bufferStart, bufferEnd := 0, 0;
      } else {
        bufferEnd := bufferEnd - size;
      }
      if buffer != null {
        buffer[bufferEnd] := 0;
      }
    }

    method Reserve(newCapacity: nat)
      requires Valid()
      modifies this, buffer
      ensures Valid() && Contents() == old(Contents()) && capacity >= newCapacity && capacity >= old(capacity)
      ensures buffer == old(buffer) || fresh(buffer)
    {
      if newCapacity <= capacity {
        return;
      }
      var size := bufferEnd - bufferStart;
      var newBuffer := Reallocate(newCapacity, 0);
      capacity := newCapacity;
      buffer := newBuffer;
      bufferStart := 0;
      bufferEnd := size;
      buffer[bufferEnd] := 0;
      assert Contents() == newBuffer[0..size];
    }

    method Free()
      requires Valid()
      modifies this
      ensures Valid() && Contents() == [] && capacity == 0 && buffer == null
    {
      buffer := null;
      bufferStart, bufferEnd := 0, 0;
      capacity := 0;
    }
  }
}
