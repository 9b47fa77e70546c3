/** The ring buffer of util/RingBuffer.h, with its 32-bit positions that run freely and wrap. */
module RingBuffer {
  import opened Words
  import opened Ring

  function Min(a: nat, b: nat): nat {
    if a < b then a else b
  }

  // ---------------------------------------------------------------- rounding of the capacity

  lemma {:induction false} AndSelf(n: nat)
    ensures And(n, n) == n
  {
    if n != 0 {
      AndSelf(n / 2);
    }
  }

  /** `n & (n - 1)` is zero exactly for powers of two. */
  lemma {:induction false} PowerTest(n: nat)
    requires n >= 1
    ensures And(n, n - 1) == 0 <==> n == Pow2(Log2(n))
  {
    if n % 2 == 1 {
      if n > 1 {
        AndSelf(n / 2);
        assert (n - 1) / 2 == n / 2;
      }
    } else {
      PowerTest(n / 2);
      assert (n - 1) / 2 == n / 2 - 1;
    }
  }

  /** `_Is_Power_Of_2`; 1 does not count. */
  predicate IsPowerOf2(n: nat) {
    n >= 2 && And(n, n - 1) == 0
  }

  /** `_Round_Up_Power_Of_2`: the least power of two that is at least n and at least 2. */
  method RoundUpPowerOf2(n: nat) returns (r: nat)
    requires n <= 0x8000_0000
    ensures exists k :: 1 <= k <= 31 && r == Pow2(k) && n <= r && (r == 2 || r / 2 < n)
  {
    if n < 2 {
      r := 2;
      assert r == Pow2(1);
      return;
    }
    PowerTest(n);
    RoundingBounds(n);
    r := n;
    if !IsPowerOf2(r) {
      var count: nat := 0;
      while r != 0
        invariant count + BitLength(r) == BitLength(n)
        decreases r
      {
        r := r / 2;
        count := count + 1;
      }
      r := Pow2(count);
      assert 1 <= count <= 31 && r == Pow2(count);
    } else {
      assert r == Pow2(Log2(n));
    }
  }

  lemma RoundingBounds(n: nat)
    requires 2 <= n <= 0x8000_0000
    ensures 1 <= Log2(n) <= 31 && Pow2(Log2(n)) <= n < 2 * Pow2(Log2(n))
    ensures n != Pow2(Log2(n)) ==> Log2(n) <= 30
  {
    Log2Bounds(n);
    Pow2Constants();
    if Log2(n) >= 31 {
      Pow2Monotone(31, Log2(n));
    }
  }

  // ---------------------------------------------------------------- the buffer

  class RingBuffer<T(0)> {
    var buffer: array<T>
    var readPos: nat
    var writePos: nat
    var capacity: nat

    /** Everything ever written, and how much of it has been read; un-reading moves `taken` back. */
    ghost var stream: seq<T>
    ghost var taken: nat
    ghost var bits: nat

    ghost predicate Valid()
      reads this, buffer
    {
      && Layout()
      && taken <= |stream| <= taken + capacity
      && readPos == taken % WORD32
      && writePos == |stream| % WORD32
      && forall j: nat {:trigger Kept(j)} | j < |stream| <= j + capacity :: Kept(j)
    }

    ghost predicate Layout()
      reads this
    {
      1 <= bits <= 31 && capacity == Pow2(bits) && buffer.Length == capacity && capacity < WORD32
    }

    /** Item j of the stream is still in its slot. */
    ghost predicate Kept(j: nat)
      reads this, buffer
      requires capacity >= 1 && buffer.Length == capacity && j < |stream|
    {
      buffer[Slot(j, capacity)] == stream[j]
    }

    /** The items written and not read, oldest first. */
    ghost function Contents(): seq<T>
      reads this, buffer
      requires Valid()
    {
      stream[taken..]
    }

    constructor (size: nat)
      requires size <= 0x8000_0000
      ensures Valid() && Contents() == [] && stream == [] && fresh(buffer)
      ensures size <= capacity && 2 <= capacity && (capacity == 2 || capacity / 2 < size)
    {
      var rounded := RoundUpPowerOf2(size);
      ghost var k: nat :| 1 <= k <= 31 && rounded == Pow2(k) && size <= rounded && (rounded == 2 || rounded / 2 < size);
      CapacityBounds(k);
      capacity := rounded;
      bits := k;
      buffer := new T[rounded];
      readPos, writePos := 0, 0;
      stream, taken := [], 0;
    }

    function Size(): (n: nat)
      requires Valid()
      reads this, buffer
      ensures n == |Contents()|
    {
      WrappedDifference(|stream|, taken);
      (writePos - readPos) % WORD32
    }

    function Remain(): (n: nat)
      requires Valid()
      reads this, buffer
      ensures n + |Contents()| == capacity
    {
      (capacity - Size()) % WORD32
    }

    predicate IsEmpty()
      requires Valid()
      reads this, buffer
      ensures IsEmpty() <==> Contents() == []
    {
      WrappedDifference(|stream|, taken);
      readPos == writePos
    }

    predicate IsFull()
      requires Valid()
      reads this, buffer
      ensures IsFull() <==> |Contents()| == capacity
    {
      WrappedDifference(|stream|, taken);
      capacity == (writePos - readPos) % WORD32
    }

    /** The slot a wrapped position selects is the slot of the position itself. */
    lemma PositionSlot(j: nat)
      requires Layout()
      ensures And(j % WORD32, capacity - 1) == Slot(j, capacity)
      ensures (j % WORD32 + 1) % WORD32 == (j + 1) % WORD32
    {
      MaskSelectsSlot(j % WORD32, bits);
      WrapKeepsSlot(j, bits);
      WrappedStep(j);
    }

    /** `_buffer[_read_pos++ & (_capacity - 1)]` */
    method Take() returns (x: T)
      requires Valid() && Contents() != []
      modifies this`readPos, this`taken
      ensures Valid() && x == old(Contents())[0] && taken == old(taken) + 1
    {
      hide And, Slot, Pow2;
      PositionSlot(taken);
      assert Kept(taken);
      x := buffer[And(readPos, capacity - 1)];
      readPos := (readPos + 1) % WORD32;
      taken := taken + 1;
    }

    /** `Readn`: the first min(n, Size) items leave the buffer and arrive in `out`, in order. */
    method Readn(out: array<T>, n: nat) returns (count: nat)
      requires Valid() && out != buffer && n < WORD32 && Min(n, |Contents()|) <= out.Length
      modifies this`readPos, this`taken, out
      ensures Valid() && count == Min(n, |old(Contents())|)
      ensures out[..count] == old(Contents())[..count]
      ensures forall i | count <= i < out.Length :: out[i] == old(out[i])
      ensures Contents() == old(Contents())[count..] && taken == old(taken) + count
    {
      hide And, Slot, Pow2;
      if IsEmpty() {
        return 0;
      }
      count := Min(n, Size());
      PositionSlot(taken);
      var firstRound := Min(count, capacity - And(readPos, capacity - 1));
      ghost var start := taken;
      var i := 0;
      while i < firstRound
        invariant 0 <= i <= firstRound && taken == start + i && Valid()
        invariant forall k | 0 <= k < i :: out[k] == stream[start + k]
        invariant forall k | i <= k < out.Length :: out[k] == old(out[k])
      {
        var x := Take();
        out[i] := x;
        i := i + 1;
      }
      i := 0;
      while i < count - firstRound
        invariant 0 <= i <= count - firstRound && taken == start + firstRound + i && Valid()
        invariant forall k | 0 <= k < firstRound + i :: out[k] == stream[start + k]
        invariant forall k | firstRound + i <= k < out.Length :: out[k] == old(out[k])
      {
        var x := Take();
        out[firstRound + i] := x;
        i := i + 1;
      }
    }

    /** One item goes into the slot behind the last one; what it replaces has long been read. */
    method Put(x: T)
      requires Valid() && |stream| < taken + capacity
      modifies this`writePos, this`stream, buffer
      ensures Valid() && stream == old(stream) + [x] && buffer[..] == old(buffer[..])[Slot(|old(stream)|, capacity) := x]
    {
      hide And, Slot, Pow2;
      ghost var w := |stream|;
      PositionSlot(w);
      DistinctSlots(w, capacity);
      buffer[And(writePos, capacity - 1)] := x;
      writePos := (writePos + 1) % WORD32;
      stream := stream + [x];
      forall j: nat | j < |stream| <= j + capacity
        ensures Kept(j)
      {
        if j < w {
          assert old(Kept(j));
        }
      }
    }

    /** `Writen`: all n items go behind the ones already there, or, if they do not fit, none. */
    method Writen(src: array<T>, n: nat) returns (written: nat)
      requires Valid() && src != buffer && n < WORD32 && n <= src.Length
      modifies this`writePos, this`stream, buffer
      ensures Valid()
      ensures written == if n <= capacity - |old(Contents())| then n else 0
      ensures Contents() == old(Contents()) + src[..written]
      ensures stream == old(stream) + src[..written]
    {
      hide And, Slot, Pow2;
      if n > Remain() {
        return 0;
      }
      PositionSlot(|stream|);
      var firstRound := Min(n, capacity - And(writePos, capacity - 1));
      var i := 0;
      while i < firstRound
        invariant 0 <= i <= firstRound && Valid() && stream == old(stream) + src[..i]
        invariant src[..] == old(src[..])
      {
        Put(src[i]);
        i := i + 1;
      }
      i := 0;
      while i < n - firstRound
        invariant 0 <= i <= n - firstRound && Valid() && stream == old(stream) + src[..firstRound + i]
        invariant src[..] == old(src[..])
      {
        Put(src[firstRound + i]);
        i := i + 1;
      }
      return n;
    }

    /**
      `Retrive`: takes back the last n items read. They are still there, in front of the present contents,
      whatever has been written since, exactly as long as all of it fits the capacity.
     */
    method Retrive(n: nat)
      requires Valid() && n <= taken
      modifies this`readPos, this`taken
      ensures taken == old(taken) - n && readPos == (old(readPos) - n) % WORD32
      ensures Valid() <==> |old(Contents())| + n <= capacity
      ensures Valid() ==> Contents() == stream[old(taken) - n..old(taken)] + old(Contents())
    {
      hide And, Slot, Pow2;
      WrappedBack(taken, n);
      readPos := (readPos - n) % WORD32;
      taken := taken - n;
      forall j: nat | j < |stream| <= j + capacity
        ensures Kept(j)
      {
        assert old(Kept(j));
      }
    }

    /** Reading and taking back is no change. */
    method ReadAndRetrive(out: array<T>, n: nat)
      requires Valid() && out != buffer && n < WORD32 && Min(n, |Contents()|) <= out.Length
      modifies this`readPos, this`taken, out
      ensures Valid() && Contents() == old(Contents())
    {
      var count := Readn(out, n);
      Retrive(count);
    }
  }

  lemma CapacityBounds(k: nat)
    requires 1 <= k <= 31
    ensures 2 <= Pow2(k) < WORD32
  {
    Pow2Constants();
    Pow2Monotone(k, 32);
    Pow2Monotone(1, k);
  }

  lemma WrappedBack(a: nat, n: nat)
    requires n <= a
    ensures (a % WORD32 - n) % WORD32 == (a - n) % WORD32
  {
    var qa, q := a / WORD32, (a - n) / WORD32;
    assert a % WORD32 - n == WORD32 * (q - qa) + (a - n) % WORD32;
    ModUnique(a % WORD32 - n, WORD32, q - qa, (a - n) % WORD32);
  }
}
