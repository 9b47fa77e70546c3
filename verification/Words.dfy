/**
  Unsigned machine words and the bit scans of util/fls.h.

  A word is the number it denotes. The bitwise operators are written out bit by bit, so that what the
  source does with `&`, `|`, `~`, `<<` and `>>` on uint32_t and size_t is computed here by arithmetic;
  `Bit(w, k)` is bit k of w and says what each operator means.
*/
module Words {

  const WORD32 := 0x1_0000_0000
  const WORD64 := 0x1_0000_0000_0000_0000

  // ---------------------------------------------------------------- powers of two and logarithms

  /** `1 << k`, as long as it does not leave the word. */
  function Pow2(k: nat): (r: nat)
    ensures r >= 1
  {
    if k == 0 then 1 else 2 * Pow2(k - 1)
  }

  /** floor(log2 n): what every bit scan is meant to compute. */
  function Log2(n: nat): nat {
    if n < 2 then 0 else 1 + Log2(n / 2)
  }

  /** `Log2` is characterised by the two powers of two around its argument. */
  lemma {:induction false} Log2Bounds(n: nat)
    requires n >= 1
    ensures Pow2(Log2(n)) <= n < 2 * Pow2(Log2(n))
  {
    if n >= 2 {
      Log2Bounds(n / 2);
    }
  }

  lemma {:induction false} Pow2Monotone(j: nat, k: nat)
    requires j <= k
    ensures Pow2(j) <= Pow2(k)
    ensures j < k ==> 2 * Pow2(j) <= Pow2(k)
    decreases k
  {
    if j < k {
      Pow2Monotone(j, k - 1);
    }
  }

  /** Number of significant bits. */
  function BitLength(n: nat): nat {
    if n == 0 then 0 else Log2(n) + 1
  }

  lemma BitLengthBounds(n: nat)
    ensures n < Pow2(BitLength(n))
    ensures n > 0 ==> Pow2(BitLength(n) - 1) <= n
  {
    if n > 0 {
      Log2Bounds(n);
    }
  }

  /** Only one exponent fits: the converse of `Log2Bounds`. */
  lemma Log2Unique(n: nat, k: nat)
    requires Pow2(k) <= n < 2 * Pow2(k)
    ensures Log2(n) == k
  {
    Log2Bounds(n);
    if Log2(n) < k {
      Pow2Monotone(Log2(n), k);
    } else {
      Pow2Monotone(k, Log2(n));
    }
  }

  lemma {:induction false} Pow2Add(j: nat, k: nat)
    ensures Pow2(j + k) == Pow2(j) * Pow2(k)
  {
    if j > 0 {
      Pow2Add(j - 1, k);
      assert Pow2(j + k) == 2 * (Pow2(j - 1) * Pow2(k));
    }
  }

  /** The powers the source names by constants. */
  lemma Pow2Constants()
    ensures Pow2(0) == 1 && Pow2(1) == 2 && Pow2(2) == 4 && Pow2(4) == 16 && Pow2(5) == 32 && Pow2(8) == 256
    ensures Pow2(9) == 512 && Pow2(16) == 0x1_0000 && Pow2(24) == 0x100_0000 && Pow2(28) == 0x1000_0000
    ensures Pow2(30) == 0x4000_0000 && Pow2(31) == 0x8000_0000 && Pow2(32) == WORD32
    ensures Pow2(39) == 0x80_0000_0000 && Pow2(64) == WORD64
  {
    assert Pow2(8) == 256;
    assert Pow2(16) == 0x1_0000;
    assert Pow2(24) == 0x100_0000;
    assert Pow2(32) == WORD32;
    Pow2Add(32, 7);
    Pow2Add(32, 32);
  }

  // ---------------------------------------------------------------- bitwise operators

  predicate Bit(word: nat, k: nat) {
    if k == 0 then word % 2 == 1 else Bit(word / 2, k - 1)
  }

  function And(a: nat, b: nat): nat {
    if a == 0 || b == 0 then 0
    else 2 * And(a / 2, b / 2) + (if a % 2 == 1 && b % 2 == 1 then 1 else 0)
  }

  function Or(a: nat, b: nat): nat {
    if a == 0 then b else if b == 0 then a
    else 2 * Or(a / 2, b / 2) + (if a % 2 == 1 || b % 2 == 1 then 1 else 0)
  }

  /** `~a` in a word of n bits. */
  function Not(a: nat, n: nat): (r: nat)
    requires a < Pow2(n)
  {
    Pow2(n) - 1 - a
  }

  lemma {:induction false} ZeroBits(k: nat)
    ensures !Bit(0, k)
  {
    if k > 0 {
      ZeroBits(k - 1);
    }
  }

  lemma {:induction false} BitAnd(a: nat, b: nat, k: nat)
    ensures Bit(And(a, b), k) <==> Bit(a, k) && Bit(b, k)
    decreases k
  {
    if a == 0 || b == 0 {
      ZeroBits(k);
    } else if k > 0 {
      BitAnd(a / 2, b / 2, k - 1);
    }
  }

  lemma {:induction false} BitOr(a: nat, b: nat, k: nat)
    ensures Bit(Or(a, b), k) <==> Bit(a, k) || Bit(b, k)
    decreases k
  {
    if a == 0 || b == 0 {
      ZeroBits(k);
    } else if k > 0 {
      BitOr(a / 2, b / 2, k - 1);
    }
  }

  lemma {:induction false} BitNot(a: nat, n: nat, k: nat)
    requires a < Pow2(n) && k < n
    ensures Bit(Not(a, n), k) <==> !Bit(a, k)
    decreases k
  {
    if k > 0 {
      BitNot(a / 2, n - 1, k - 1);
    }
  }

  lemma {:induction false} BitPow2(k: nat, j: nat)
    ensures Bit(Pow2(k), j) <==> j == k
    decreases j
  {
    if k == 0 {
      ZeroBits(if j == 0 then 0 else j - 1);
    } else if j > 0 {
      BitPow2(k - 1, j - 1);
    }
  }

  /** Words are extensional: two different words differ in some bit. */
  lemma {:induction false} DifferentBit(a: nat, b: nat, n: nat) returns (k: nat)
    requires a != b && a < Pow2(n) && b < Pow2(n)
    ensures k < n && Bit(a, k) != Bit(b, k)
  {
    if a % 2 != b % 2 {
      k := 0;
    } else {
      k := DifferentBit(a / 2, b / 2, n - 1);
      k := k + 1;
    }
  }

  lemma {:induction false} AndBound(a: nat, b: nat)
    ensures And(a, b) <= a && And(a, b) <= b
  {
    if a != 0 && b != 0 {
      AndBound(a / 2, b / 2);
    }
  }

  lemma {:induction false} OrBound(a: nat, b: nat, n: nat)
    requires a < Pow2(n) && b < Pow2(n)
    ensures Or(a, b) < Pow2(n)
    ensures a <= Or(a, b) && b <= Or(a, b)
  {
    if a != 0 && b != 0 {
      OrBound(a / 2, b / 2, n - 1);
    }
  }

  /** Masking with `1 << k` tests bit k, whatever the other bits are. */
  lemma {:induction false} AndPow2(a: nat, k: nat)
    ensures And(a, Pow2(k)) == if Bit(a, k) then Pow2(k) else 0
  {
    if a == 0 {
      ZeroBits(k);
    } else if k > 0 {
      AndPow2(a / 2, k - 1);
    } else {
      assert And(a / 2, 0) == 0;
    }
  }

  /** `x & (c - 1)` is `x % c` for a power of two c. */
  lemma {:induction false} AndLowMask(a: nat, k: nat)
    ensures And(a, Pow2(k) - 1) == a % Pow2(k)
  {
    if k > 0 {
      var half := Pow2(k - 1);
      AndLowMask(a / 2, k - 1);
      HalfMod(a, half);
    }
  }

  lemma HalfMod(a: nat, m: nat)
    requires m >= 1
    ensures a % (2 * m) == 2 * ((a / 2) % m) + a % 2
  {
    var q, r := (a / 2) / m, (a / 2) % m;
    assert a == (2 * m) * q + (2 * r + a % 2) by {
      assert a / 2 == m * q + r;
      assert (2 * m) * q == 2 * (m * q);
    }
    ModUnique(a, 2 * m, q, 2 * r + a % 2);
  }

  lemma ModUnique(a: int, m: int, q: int, r: int)
    requires m > 0 && 0 <= r < m && a == m * q + r
    ensures a / m == q && a % m == r
  {
    var d := a / m - q;
    assert m * d == r - a % m by {
      assert a == m * (a / m) + a % m;
      assert m * d == m * (a / m) - m * q;
    }
    MultipleOutside(m, d);
  }

  /** A non-zero multiple of m is at least m away from zero. */
  lemma MultipleOutside(m: int, d: int)
    requires m > 0
    ensures d >= 1 ==> m * d >= m
    ensures d <= -1 ==> m * d <= -m
  {
  }

  /** Setting bit k of a bitmap. */
  lemma SetBit(word: nat, k: nat, n: nat)
    requires word < Pow2(n) && k < n
    ensures var r := Or(word, Pow2(k));
      0 < r < Pow2(n) && forall j: nat :: Bit(r, j) <==> (j == k || Bit(word, j))
  {
    Pow2Monotone(k, n);
    OrBound(word, Pow2(k), n);
    forall j: nat
      ensures Bit(Or(word, Pow2(k)), j) <==> (j == k || Bit(word, j))
    {
      BitOr(word, Pow2(k), j);
      BitPow2(k, j);
    }
  }

  /** Clearing bit k of a bitmap. */
  lemma ClearBit(word: nat, k: nat, n: nat)
    requires word < Pow2(n) && k < n
    ensures Pow2(k) < Pow2(n)
    ensures var r := And(word, Not(Pow2(k), n));
      r < Pow2(n) && forall j: nat :: j < n ==> (Bit(r, j) <==> (j != k && Bit(word, j)))
  {
    Pow2Monotone(k, n);
    AndBound(word, Not(Pow2(k), n));
    forall j: nat | j < n
      ensures Bit(And(word, Not(Pow2(k), n)), j) <==> (j != k && Bit(word, j))
    {
      BitAnd(word, Not(Pow2(k), n), j);
      BitNot(Pow2(k), n, j);
      BitPow2(k, j);
    }
  }

  /** A word with one bit set is that power of two. */
  lemma OneBitWord(word: nat, k: nat, n: nat)
    requires word < Pow2(n) && k < n
    requires forall j: nat | j < n :: Bit(word, j) <==> j == k
    ensures word == Pow2(k)
  {
    if word != Pow2(k) {
      Pow2Monotone(k, n);
      var j := DifferentBit(word, Pow2(k), n);
      BitPow2(k, j);
      assert false;
    }
  }

  lemma NoBitWord(word: nat, n: nat)
    requires word < Pow2(n)
    requires forall j: nat | j < n :: !Bit(word, j)
    ensures word == 0
  {
    if word != 0 {
      var j := DifferentBit(word, 0, n);
      ZeroBits(j);
      assert false;
    }
  }
}
