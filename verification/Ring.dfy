/** Positions that only grow, mapped onto the slots of a ring whose capacity is a power of two. */
module Ring {
  import opened Words

  /** The slot of a position: `index & (capacity - 1)`. */
  function Slot(index: nat, capacity: nat): (i: nat)
    requires capacity >= 1
    ensures i < capacity
  {
    index % capacity
  }

  lemma MaskSelectsSlot(index: nat, n: nat)
    ensures And(index, Pow2(n) - 1) == Slot(index, Pow2(n))
  {
    AndLowMask(index, n);
  }

  lemma SmallSlot(index: nat, capacity: nat)
    requires index < capacity
    ensures Slot(index, capacity) == index
  {
  }

  /** Two positions on the same slot are a whole round apart. */
  lemma SameSlot(a: nat, b: nat, capacity: nat)
    requires capacity >= 1 && Slot(a, capacity) == Slot(b, capacity) && a < b + capacity && b < a + capacity
    ensures a == b
  {
    var d := a / capacity - b / capacity;
    assert capacity * d == a - b by {
      assert a == capacity * (a / capacity) + a % capacity;
      assert b == capacity * (b / capacity) + b % capacity;
    }
    MultipleOutside(capacity, d);
  }

  lemma NextRound(a: nat, capacity: nat)
    requires capacity >= 1
    ensures Slot(a + capacity, capacity) == Slot(a, capacity)
  {
    var q := a / capacity;
    assert a + capacity == capacity * (q + 1) + a % capacity by {
      assert a == capacity * q + a % capacity;
    }
    ModUnique(a + capacity, capacity, q + 1, a % capacity);
  }

  lemma DistinctSlots(k: nat, capacity: nat)
    requires capacity >= 1
    ensures forall j: nat | j < k + capacity && k < j + capacity && j != k :: Slot(j, capacity) != Slot(k, capacity)
    ensures Slot(k + capacity, capacity) == Slot(k, capacity)
  {
    forall j: nat | j < k + capacity && k < j + capacity && Slot(j, capacity) == Slot(k, capacity)
      ensures j == k
    {
      SameSlot(j, k, capacity);
    }
    NextRound(k, capacity);
  }

  lemma ModOfMultiple(index: nat, c: nat, rounds: nat, word: nat)
    requires c >= 1 && rounds >= 1 && word == c * rounds
    ensures word >= 1 && (index % word) % c == index % c
  {
    assert word >= 1 by { MultipleOutside(c, rounds); }
    var q, r := index / word, index % word;
    var q1, r1 := r / c, r % c;
    ModUnique(index, c, rounds * q + q1, r1);
  }

  /** A power of two divides the range of a uint32_t, so wrapping a position does not move its slot. */
  lemma WrapKeepsSlot(index: nat, n: nat)
    requires n <= 32
    ensures Slot(index % WORD32, Pow2(n)) == Slot(index, Pow2(n))
  {
    hide Pow2;
    assert WORD32 == Pow2(n) * Pow2(32 - n) by {
      Pow2Add(n, 32 - n);
      Pow2Constants();
    }
    ModOfMultiple(index, Pow2(n), Pow2(32 - n), WORD32);
  }

  /** Differences of wrapped positions are exact as long as they fit the word. */
  lemma WrappedDifference(a: nat, b: nat)
    requires b <= a < b + WORD32
    ensures (a % WORD32 - b % WORD32) % WORD32 == a - b
  {
    var qa, qb := a / WORD32, b / WORD32;
    ModUnique(a % WORD32 - b % WORD32, WORD32, qb - qa, a - b);
  }

  lemma WrappedStep(a: nat)
    ensures (a % WORD32 + 1) % WORD32 == (a + 1) % WORD32
  {
  }
}
