/** The bit scans of util/fls.h and the loop of util/TLSF.hpp, proved against `Words.Log2`. */
module BitScan {
  import opened Words

  /** Masking with the bits j..n-1 gives zero exactly for words below bit j. */
  lemma {:induction false} HighMask(word: nat, j: nat, n: nat)
    requires j <= n && word < Pow2(n)
    ensures Pow2(j) <= Pow2(n)
    ensures And(word, Pow2(n) - Pow2(j)) == 0 <==> word < Pow2(j)
    decreases n
  {
    hide And, Pow2;
    Pow2Monotone(j, n);
    if j == 0 {
      Pow2Step(0);
      AndLowMask(word, n);
      ModSelf(word, Pow2(n));
    } else {
      Pow2Step(j);
      Pow2Step(n);
      HighMask(word / 2, j - 1, n - 1);
      HalfAnd(word, Pow2(n - 1) - Pow2(j - 1));
    }
  }

  lemma Pow2Step(k: nat)
    ensures Pow2(k) == if k == 0 then 1 else 2 * Pow2(k - 1)
  {
  }

  lemma ModSelf(a: nat, m: nat)
    requires a < m
    ensures a % m == a
  {
  }

  lemma HalfAnd(a: nat, b: nat)
    ensures And(a, 2 * b) == 0 <==> And(a / 2, b) == 0
  {
  }

  /** Shifting a non-zero word left moves its logarithm along. */
  lemma {:induction false} Log2Shift(n: nat, s: nat)
    requires n >= 1
    ensures Log2(n * Pow2(s)) == Log2(n) + s
  {
    if s > 0 {
      Log2Shift(n, s - 1);
      assert n * Pow2(s) == 2 * (n * Pow2(s - 1));
      assert n * Pow2(s - 1) >= 1;
    }
  }

  /**
    State of the generic scan of w: the remaining word has a bit at position h or above, and moving it
    up so far has cost 32 - bit positions. The zero word keeps missing every mask.
   */
  ghost predicate Scanned(w: nat, word: nat, bit: int, h: nat) {
    if w == 0 then word == 0 && bit == 31 - h
    else Pow2(h) <= word < WORD32 && Log2(word) == Log2(w) + 32 - bit
  }

  /** One step: when the mask of the s highest bits misses, the word moves up s places without loss. */
  lemma ScanStep(w: nat, word: nat, bit: int, s: nat, mask: nat, factor: nat)
    requires 1 <= s <= 16 && Scanned(w, word, bit, 32 - 2 * s)
    requires factor == Pow2(s) && mask == WORD32 - Pow2(32 - s)
    ensures And(word, mask) == 0 ==> Scanned(w, word * factor % WORD32, bit - s, 32 - s)
    ensures And(word, mask) != 0 ==> Scanned(w, word, bit, 32 - s)
  {
    hide Log2, Pow2;
    assert Pow2(32) == WORD32 by { Pow2Constants(); }
    if w == 0 {
      assert word * factor == 0;
    } else {
      HighMask(word, 32 - s, 32);
      if word < Pow2(32 - s) {
        ShiftUp(word, s, factor);
      }
    }
  }

  lemma ShiftUp(word: nat, s: nat, factor: nat)
    requires 1 <= s <= 16 && factor == Pow2(s)
    requires 1 <= Pow2(32 - 2 * s) <= word < Pow2(32 - s)
    ensures Pow2(32 - s) <= word * factor % WORD32 < WORD32
    ensures Log2(word * factor % WORD32) == Log2(word) + s
  {
    assert Pow2(32) == WORD32 by { Pow2Constants(); }
    assert Pow2(32) == Pow2(32 - s) * factor by { Pow2Add(32 - s, s); }
    assert Pow2(32 - s) == Pow2(32 - 2 * s) * factor by { Pow2Add(32 - 2 * s, s); }
    ProductBounds(Pow2(32 - 2 * s), word, Pow2(32 - s), factor);
    Log2Shift(word, s);
    ModSelf(word * factor, WORD32);
  }

  lemma ProductBounds(lo: nat, n: nat, hi: nat, factor: nat)
    requires lo <= n < hi && factor >= 1
    ensures lo * factor <= n * factor < hi * factor
  {
  }

  /** `tlsf_fls_generic`: one more than the position of the highest set bit, 0 for the zero word. */
  method FlsGeneric(w: nat) returns (bit: int)
    requires w < WORD32
    ensures bit == if w == 0 then 0 else Log2(w) + 1
  {
    hide Pow2, Log2, And;
    Pow2Constants();
    var word := w;
    bit := 32;
    if word == 0 {
      bit := bit - 1;
    }
    ScanStep(w, word, bit, 16, 0xffff_0000, 0x1_0000);
    if And(word, 0xffff_0000) == 0 {
      word := word * 0x1_0000 % WORD32;
      bit := bit - 16;
    }
    ScanStep(w, word, bit, 8, 0xff00_0000, 0x100);
    if And(word, 0xff00_0000) == 0 {
      word := word * 0x100 % WORD32;
      bit := bit - 8;
    }
    ScanStep(w, word, bit, 4, 0xf000_0000, 0x10);
    if And(word, 0xf000_0000) == 0 {
      word := word * 0x10 % WORD32;
      bit := bit - 4;
    }
    ScanStep(w, word, bit, 2, 0xc000_0000, 4);
    if And(word, 0xc000_0000) == 0 {
      word := word * 4 % WORD32;
      bit := bit - 2;
    }
    ScanStep(w, word, bit, 1, 0x8000_0000, 2);
    if And(word, 0x8000_0000) == 0 {
      word := word * 2 % WORD32;
      bit := bit - 1;
    }
    if w > 0 {
      Log2Unique(word, 31);
    }
  }

  /** `tlsf_fls`: the position of the highest set bit, -1 for the zero word. */
  method Fls(word: nat) returns (bit: int)
    requires word < WORD32
    ensures bit == if word == 0 then -1 else Log2(word)
  {
    bit := FlsGeneric(word);
    bit := bit - 1;
  }

  /** `tlsf_fls_sizet`: the scan of a 64-bit size through its two halves. */
  method FlsSizeT(size: nat) returns (bits: int)
    requires size < WORD64
    ensures bits == if size == 0 then -1 else Log2(size)
  {
    Pow2Constants();
    AndLowMask(size, 32);
    var high := size / WORD32;
    if high != 0 {
      bits := Fls(high);
      bits := 32 + bits;
      Log2Halves(size);
    } else {
      bits := Fls(And(size, 0xffff_ffff));
    }
  }

  lemma Log2Halves(size: nat)
    requires size >= WORD32
    ensures Log2(size) == 32 + Log2(size / WORD32)
  {
    hide Log2, Pow2;
    var high := size / WORD32;
    var k := Log2(high);
    Log2Bounds(high);
    Pow2Constants();
    Pow2Add(32, k);
    Log2Unique(size, 32 + k);
  }

  /** `__bit_scan_reverse`: the plain loop, which stops because the quotient passes through 1. */
  method BitScanReverse(num: nat) returns (i: nat)
    requires 0 < num < WORD64
    ensures i == Log2(num)
  {
    i := 0;
    ghost var quotient := num;
    while num / Pow2(i) != 1
      invariant quotient == num / Pow2(i) && quotient >= 1
      invariant Log2(num) == i + Log2(quotient)
      decreases quotient
    {
      DivDiv(num, Pow2(i));
      i := i + 1;
      quotient := quotient / 2;
    }
  }

  lemma DivDiv(n: nat, m: nat)
    requires m >= 1
    ensures n / (2 * m) == (n / m) / 2
  {
    var q := (n / m) / 2;
    assert n == m * (n / m) + n % m;
    assert m * (n / m) == (2 * m) * q + m * ((n / m) % 2) by {
      assert n / m == 2 * q + (n / m) % 2;
      assert m * (2 * q) == (2 * m) * q;
    }
    ModUnique(n, 2 * m, q, m * ((n / m) % 2) + n % m);
  }

  /** Position of the lowest set bit. */
  function LowBit(n: nat): nat
    requires n >= 1
  {
    if n % 2 == 1 then 0 else 1 + LowBit(n / 2)
  }

  /** The lowest set bit is set and nothing below it is. */
  lemma {:induction false} LowBitIsLowest(n: nat, k: nat)
    requires n >= 1
    ensures Bit(n, LowBit(n))
    ensures k < LowBit(n) ==> !Bit(n, k)
  {
    if n % 2 == 0 {
      LowBitIsLowest(n / 2, if k == 0 then 0 else k - 1);
    }
  }

  lemma {:induction false} AndNot(a: nat, n: nat)
    requires a < Pow2(n)
    ensures And(a, Not(a, n)) == 0
  {
    if a != 0 && Not(a, n) != 0 {
      AndNot(a / 2, n - 1);
    }
  }

  /** `w & (~w + 1)` keeps the lowest set bit only. */
  lemma {:induction false} LowestBitMask(w: nat, n: nat)
    requires 1 <= w < Pow2(n)
    ensures And(w, Pow2(n) - w) == Pow2(LowBit(w))
  {
    if w % 2 == 1 {
      AndNot(w / 2, n - 1);
      assert (Pow2(n) - w) / 2 == Not(w / 2, n - 1);
    } else {
      LowestBitMask(w / 2, n - 1);
    }
  }

  lemma LogOfPower(k: nat)
    ensures Log2(Pow2(k)) == k
  {
    Log2Unique(Pow2(k), k);
  }

  /** `tlsf_ffs`: the position of the lowest set bit, -1 for the zero word. */
  method Ffs(word: nat) returns (bit: int)
    requires word < WORD32
    ensures bit == if word == 0 then -1 else LowBit(word)
  {
    hide Log2, LowBit, Pow2;
    assert Pow2(32) == WORD32 by { Pow2Constants(); }
    var negated := (Not(word, 32) + 1) % WORD32;
    if word > 0 {
      LowestBitMask(word, 32);
      var low := LowBit(word);
      AndBound(word, negated);
      LogOfPower(low);
    }
    bit := FlsGeneric(And(word, negated));
    bit := bit - 1;
  }
}
