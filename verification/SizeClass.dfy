/** Size classes of the TLSF allocator: util/TLSF.hpp, the three `query...Level...` functions. */
module SizeClass {
  import opened Words

  const MIN_SIZE := 16
  const FLC := 31
  const SLC := 32
  const FLM := 512
  const BASE_POW_LEVEL := 9

  /** Both components are uint16_t in the source; all ones marks "no level". */
  datatype BitmapLevel = BitmapLevel(firstLevel: nat, secondLevel: nat)
  {
    /** An index of the 31 x 32 tables. */
    predicate InTable() {
      firstLevel < FLC && secondLevel < SLC
    }

    /** Position in lexicographic order. */
    function Rank(): nat {
      SLC * firstLevel + secondLevel
    }

    function Succ(): BitmapLevel {
      if secondLevel + 1 >= SLC then BitmapLevel(firstLevel + 1, 0) else BitmapLevel(firstLevel, secondLevel + 1)
    }
  }

  const INVALID_LEVEL := BitmapLevel(0xffff, 0xffff)

  /** Conversion to uint16_t. */
  function U16(n: int): nat {
    n % 0x1_0000
  }

  /** `queryBitmapLevelForAlloc`; tlsf_fls_sizet is `Log2` (`BitScan.FlsSizeT`). */
  function QueryBitmapLevelForAlloc(size: nat): BitmapLevel
    requires size < WORD64
  {
    if size <= FLM then
      var second := U16(size / MIN_SIZE);
      BitmapLevel(0, if And(size, MIN_SIZE - 1) == 0 then U16(second - 1) else second)
    else
      var first := Log2(size);
      var levelMin := Pow2(first);
      var segmentSize := levelMin / SLC;
      var padded := (size + (segmentSize - 1)) % WORD64;
      var second := U16(((padded - levelMin) % WORD64) / Pow2(U16(first - 5)));
      if second != 0 then
        BitmapLevel(U16(first - (BASE_POW_LEVEL - 1)), second - 1)
      else
        BitmapLevel(U16(first - 1 - (BASE_POW_LEVEL - 1)), SLC - 1)
  }

  /** `queryBitmapLevelForInsert`. */
  function QueryBitmapLevelForInsert(size: nat): BitmapLevel
    requires size < WORD64
  {
    if size <= FLM then
      BitmapLevel(0, U16(U16(size / MIN_SIZE) - 1))
    else
      var first := Log2(size);
      var levelMin := Pow2(first);
      Log2Bounds(size);
      assert levelMin >= SLC by { LargeLog(size); }
      var second := U16((size - levelMin) / (levelMin / SLC));
      var level := if second == 0 then BitmapLevel(first - 1, SLC - 1) else BitmapLevel(first, second - 1);
      var down := U16(level.firstLevel - if level.secondLevel == 0 then 1 else 0);
      BitmapLevel(U16(down - (BASE_POW_LEVEL - 1)), And(U16(level.secondLevel - 1), SLC - 1))
  }

  /** `queryLevelSize`. */
  function QueryLevelSize(level: BitmapLevel): nat {
    if level.firstLevel != 0 then
      var firstLevelSize := Pow2(level.firstLevel + BASE_POW_LEVEL - 1);
      firstLevelSize + (firstLevelSize / SLC) * (level.secondLevel + 1)
    else
      (level.secondLevel + 1) * MIN_SIZE
  }

  // ---------------------------------------------------------------- arithmetic of the grid

  lemma Pow2Shift(k: nat)
    ensures Pow2(k + 4) == 16 * Pow2(k)
    ensures Pow2(k + 5) == 32 * Pow2(k)
  {
    assert Pow2(k + 2) == 4 * Pow2(k);
    assert Pow2(k + 4) == 4 * Pow2(k + 2);
  }

  lemma SmallPowers()
    ensures Pow2(4) == 16 && Pow2(9) == FLM
  {
    Pow2Constants();
  }

  lemma LargeLog(n: nat)
    requires n > FLM
    ensures Log2(n) >= 9
    ensures Pow2(Log2(n)) == SLC * Pow2(Log2(n) - 5)
    ensures Pow2(Log2(n)) <= n < 2 * Pow2(Log2(n))
    ensures Pow2(Log2(n) - 5) >= 16
  {
    Log2Bounds(n);
    SmallPowers();
    if Log2(n) < 9 {
      Pow2Monotone(Log2(n), 9);
    }
    Pow2Shift(Log2(n) - 5);
    Pow2Monotone(4, Log2(n) - 5);
  }

  /** Sizes up to 2^39, the end of the table, have logarithm at most 39. */
  lemma TableEnd(n: nat)
    requires n >= 1
    ensures n <= 0x80_0000_0000 <==> Log2(n) < 39 || n == Pow2(39)
    ensures n < WORD64 ==> Log2(n) < 64
    ensures n == Pow2(39) ==> Log2(n) == 39
    ensures Pow2(39) == 0x80_0000_0000
  {
    Log2Bounds(n);
    Pow2Constants();
    var f := Log2(n);
    if f < 39 {
      Pow2Monotone(f, 39);
    } else {
      Pow2Monotone(39, f);
    }
    if 64 <= f {
      Pow2Monotone(64, f);
    }
  }

  lemma FloorDivision(a: nat, m: nat)
    requires m >= 1
    ensures m * (a / m) <= a < m * (a / m) + m
  {
  }

  lemma MulMonotone(m: nat, a: nat, b: nat)
    ensures a <= b ==> m * a <= m * b
  {
  }

  /** Quotients are bounded through the products they come from. */
  lemma QuotientBelow(m: nat, q: nat, limit: nat)
    requires m * q < m * limit
    ensures q < limit
  {
    MulMonotone(m, limit, q);
  }

  /** Row f >= 1 divides [2^(f+8), 2^(f+9)] into 32 segments, and row 0 continues the same grid downwards. */
  lemma LevelSizeGrid(f: nat, s: nat)
    ensures f >= 1 ==> QueryLevelSize(BitmapLevel(f, s)) == Pow2(f + 3) * (SLC + s + 1)
    ensures QueryLevelSize(BitmapLevel(0, s)) == 16 * (s + 1)
  {
    if f >= 1 {
      Pow2Shift(f + 3);
      var unit := Pow2(f + 3);
      assert unit * (SLC + s + 1) == SLC * unit + unit * (s + 1);
    }
  }

  /** Boundary c of the segments of [2^f, 2^(f+1)] is the size of the level just below it. */
  lemma SegmentSize(f: nat, c: nat)
    requires f >= 9 && c <= SLC
    ensures QueryLevelSize(if c > 0 then BitmapLevel(f - 8, c - 1) else BitmapLevel(f - 9, SLC - 1))
      == Pow2(f) + Pow2(f - 5) * c
  {
    var unit := Pow2(f - 5);
    Pow2Shift(f - 5);
    assert unit * (SLC + c) == SLC * unit + unit * c;
    if c > 0 {
      LevelSizeGrid(f - 8, c - 1);
    } else {
      LevelSizeGrid(f - 9, SLC - 1);
      if f == 9 {
        SmallPowers();
      } else {
        assert unit == 2 * Pow2(f - 6);
      }
    }
  }

  // ---------------------------------------------------------------- order

  /** Sizes of neighbouring levels: the step of `QueryLevelSize` along the order is one segment. */
  lemma LevelSizeStep(level: BitmapLevel)
    requires level.secondLevel < SLC
    ensures QueryLevelSize(level) < QueryLevelSize(level.Succ())
    ensures QueryLevelSize(level) % 16 == 0 && QueryLevelSize(level) >= 16
  {
    var f, s := level.firstLevel, level.secondLevel;
    LevelSizeGrid(f, s);
    if f == 0 {
      LevelSizeGrid(0, s + 1);
      LevelSizeGrid(1, 0);
      SmallPowers();
    } else {
      LevelSizeGrid(f, s + 1);
      LevelSizeGrid(f + 1, 0);
      Pow2Shift(f - 1);
      RowSteps(Pow2(f - 1), Pow2(f + 3), s);
    }
  }

  lemma RowSteps(unit: nat, segment: nat, s: nat)
    requires unit >= 1 && segment == 16 * unit && s < SLC
    ensures segment * (SLC + s + 1) < segment * (SLC + s + 2)
    ensures segment * (SLC + s + 1) <= segment * (2 * SLC) < (2 * segment) * (SLC + 1)
    ensures segment * (SLC + s + 1) % 16 == 0 && segment * (SLC + s + 1) >= 16
  {
    var k := SLC + s + 1;
    assert segment * k == 16 * (unit * k);
    assert segment * (2 * SLC) == segment * k + segment * (SLC - s - 1);
    assert unit * k >= 1;
  }

  /** `queryLevelSize` is strictly increasing in lexicographic level order. */
  lemma {:induction false} LevelSizeIncreasing(a: BitmapLevel, b: BitmapLevel)
    requires a.secondLevel < SLC && b.secondLevel < SLC
    ensures a.Rank() < b.Rank() <==> QueryLevelSize(a) < QueryLevelSize(b)
    decreases if a.Rank() < b.Rank() then b.Rank() - a.Rank() else a.Rank() - b.Rank()
  {
    hide QueryLevelSize;
    if a.Rank() < b.Rank() {
      LevelSizeStep(a);
      LevelSizeIncreasing(a.Succ(), b);
    } else if b.Rank() < a.Rank() {
      LevelSizeStep(b);
      LevelSizeIncreasing(b.Succ(), a);
    } else {
      assert a == b;
    }
  }

  // ---------------------------------------------------------------- level of a request

  /** Segment of [2^f, 2^(f+1)] a size rounds up to. */
  function CeilSegment(n: nat): nat
    requires n > FLM
  {
    LargeLog(n);
    (n - Pow2(Log2(n)) + Pow2(Log2(n) - 5) - 1) / Pow2(Log2(n) - 5)
  }

  lemma CeilDivision(d: nat, unit: nat)
    requires unit >= 1 && d < SLC * unit
    ensures var c := (d + unit - 1) / unit; c <= SLC && unit * c - unit < d <= unit * c
  {
    FloorDivision(d + unit - 1, unit);
    QuotientBelow(unit, (d + unit - 1) / unit, SLC + 1);
  }

  /** Position of a size above 512 between the segment boundaries around it. */
  lemma CeilSegmentBounds(n: nat)
    requires FLM < n
    ensures var f := Log2(n); var c := CeilSegment(n);
      && 9 <= f && c <= SLC && Pow2(f) <= n && Pow2(f - 5) >= 16
      && Pow2(f) + Pow2(f - 5) * c - Pow2(f - 5) < n <= Pow2(f) + Pow2(f - 5) * c
  {
    hide Pow2, Log2;
    LargeLog(n);
    CeilDivision(n - Pow2(Log2(n)), Pow2(Log2(n) - 5));
  }

  /** The level a request above 512 bytes is served from, by logarithm and rounded-up segment. */
  lemma AllocLevelAbove(n: nat)
    requires FLM < n < WORD64
    ensures var f := Log2(n); var c := CeilSegment(n);
      && 9 <= f < 64 && c <= SLC
      && QueryBitmapLevelForAlloc(n) == (if c > 0 then BitmapLevel(f - 8, c - 1) else BitmapLevel(f - 9, SLC - 1))
  {
    hide Pow2, Log2;
    CeilSegmentBounds(n);
    LargeLog(n);
    TableEnd(n);
    var f, c := Log2(n), CeilSegment(n);
    AllocLevelSteps(n, f, Pow2(f), Pow2(f - 5), c);
  }

  lemma AllocLevelSteps(n: nat, first: nat, levelMin: nat, unit: nat, c: nat)
    requires FLM < n < WORD64 && 9 <= first < 64 && levelMin == SLC * unit && unit >= 16
    requires levelMin <= n < 2 * levelMin && c == (n - levelMin + unit - 1) / unit && c <= SLC
    requires first == Log2(n) && levelMin == Pow2(first) && unit == Pow2(first - 5)
    ensures QueryBitmapLevelForAlloc(n) == (if c > 0 then BitmapLevel(first - 8, c - 1) else BitmapLevel(first - 9, SLC - 1))
  {
    hide Pow2, Log2;
    assert levelMin / SLC == unit;
    PaddedDifference(n, unit - 1, levelMin);
    assert U16(first - 5) == first - 5;
  }

  /** The 64-bit wrap of the padded size is undone by the subtraction that follows it. */
  lemma PaddedDifference(n: nat, pad: nat, base: nat)
    requires base <= n < WORD64 && n - base + pad < WORD64
    ensures ((n + pad) % WORD64 - base) % WORD64 == n + pad - base
  {
  }

  /** Requests up to 512 bytes are rounded up to a multiple of 16; a request of 0 wraps around. */
  lemma AllocLevelSmall(n: nat)
    requires n <= FLM
    ensures QueryBitmapLevelForAlloc(n) == BitmapLevel(0, if n == 0 then 0xffff else (n + 15) / 16 - 1)
  {
    hide And;
    AndFifteen(n);
  }

  lemma AndFifteen(n: nat)
    ensures And(n, MIN_SIZE - 1) == n % 16
  {
    SmallPowers();
    AndLowMask(n, 4);
  }

  /** The alloc level is in the table exactly for the sizes 1 to 2^39. */
  lemma AllocLevelInTable(n: nat)
    requires n < WORD64
    ensures QueryBitmapLevelForAlloc(n).InTable() <==> 1 <= n <= 0x80_0000_0000
  {
    hide Pow2, Log2, QueryBitmapLevelForAlloc, CeilSegment;
    if n <= FLM {
      AllocLevelSmall(n);
    } else {
      AllocLevelAbove(n);
      TableEnd(n);
      var f, c := Log2(n), CeilSegment(n);
      CeilSegmentBounds(n);
      ZeroSegment(n, Pow2(f), Pow2(f - 5), c);
    }
  }

  lemma ZeroSegment(n: nat, base: nat, unit: nat, c: nat)
    requires unit >= 1 && base <= n && base + unit * c - unit < n <= base + unit * c
    ensures c == 0 <==> n == base
  {
    if c > 0 {
      MulMonotone(unit, 1, c);
    }
  }

  /** The size of a request lies above the level before its own and not above its own. */
  lemma AllocLevelSize(n: nat)
    requires 1 <= n <= 0x80_0000_0000
    ensures var level := QueryBitmapLevelForAlloc(n);
      && n <= QueryLevelSize(level)
      && (level.secondLevel > 0 ==> QueryLevelSize(BitmapLevel(level.firstLevel, level.secondLevel - 1)) < n)
      && (level.secondLevel == 0 && level.firstLevel > 0 ==> QueryLevelSize(BitmapLevel(level.firstLevel - 1, SLC - 1)) < n)
  {
    if n <= FLM {
      AllocLevelSizeSmall(n);
    } else {
      AllocLevelSizeLarge(n);
    }
  }

  lemma AllocLevelSizeSmall(n: nat)
    requires 1 <= n <= FLM
    ensures var level := QueryBitmapLevelForAlloc(n);
      && level.firstLevel == 0 && n <= QueryLevelSize(level)
      && (level.secondLevel > 0 ==> QueryLevelSize(BitmapLevel(0, level.secondLevel - 1)) < n)
  {
    hide QueryBitmapLevelForAlloc;
    AllocLevelSmall(n);
  }

  lemma AllocLevelSizeLarge(n: nat)
    requires FLM < n <= 0x80_0000_0000
    ensures var level := QueryBitmapLevelForAlloc(n);
      && n <= QueryLevelSize(level)
      && (level.secondLevel > 0 ==> QueryLevelSize(BitmapLevel(level.firstLevel, level.secondLevel - 1)) < n)
      && (level.secondLevel == 0 && level.firstLevel > 0 ==> QueryLevelSize(BitmapLevel(level.firstLevel - 1, SLC - 1)) < n)
  {
    hide Pow2, Log2, QueryBitmapLevelForAlloc, CeilSegment, QueryLevelSize;
    AllocLevelAbove(n);
    CeilSegmentBounds(n);
    var f, c := Log2(n), CeilSegment(n);
    var unit := Pow2(f - 5);
    ZeroSegment(n, Pow2(f), unit, c);
    SegmentSize(f, c);
    if c > 0 {
      assert unit * (c - 1) == unit * c - unit;
      SegmentSize(f, c - 1);
    } else {
      LevelBeforeRowEnd(n, f);
    }
  }

  /** A power of two is served from the last level of its row; the level before it is half a row smaller. */
  lemma LevelBeforeRowEnd(n: nat, f: nat)
    requires f >= 9 && n == Pow2(f)
    ensures QueryLevelSize(BitmapLevel(f - 9, SLC - 2)) < n
  {
    LevelSizeStep(BitmapLevel(f - 9, SLC - 2));
    SegmentSize(f, 0);
  }

  /** A request is served from the least level whose size suffices. */
  lemma AllocLevelIsLeast(n: nat, other: BitmapLevel)
    requires 1 <= n <= 0x80_0000_0000 && other.secondLevel < SLC
    ensures n <= QueryLevelSize(QueryBitmapLevelForAlloc(n))
    ensures n <= QueryLevelSize(other) ==> QueryBitmapLevelForAlloc(n).Rank() <= other.Rank()
  {
    AllocLevelInTable(n);
    var level := QueryBitmapLevelForAlloc(n);
    AllocLevelSize(n);
    if level.Rank() > 0 {
      var below := if level.secondLevel > 0 then BitmapLevel(level.firstLevel, level.secondLevel - 1)
                   else BitmapLevel(level.firstLevel - 1, SLC - 1);
      LevelSizeIncreasing(below, other);
    }
  }

  // ---------------------------------------------------------------- level of a free block

  /** Segment of [2^f, 2^(f+1)] a size lies in. */
  function FloorSegment(n: nat): nat
    requires n > FLM
  {
    LargeLog(n);
    (n - Pow2(Log2(n))) / Pow2(Log2(n) - 5)
  }

  lemma FloorSegmentBounds(n: nat)
    requires FLM < n
    ensures var f := Log2(n); var q := FloorSegment(n);
      9 <= f && q < SLC && Pow2(f) + Pow2(f - 5) * q <= n < Pow2(f) + Pow2(f - 5) * (q + 1)
  {
    hide Pow2, Log2;
    LargeLog(n);
    FloorBounds(n - Pow2(Log2(n)), Pow2(Log2(n) - 5));
  }

  lemma FloorBounds(d: nat, unit: nat)
    requires unit >= 1 && d < SLC * unit
    ensures d / unit < SLC && unit * (d / unit) <= d < unit * (d / unit + 1)
  {
    var q := d / unit;
    FloorDivision(d, unit);
    QuotientBelow(unit, q, SLC);
    MulSucc(unit, q);
  }

  lemma MulSucc(unit: nat, q: nat)
    ensures unit * (q + 1) == unit * q + unit
  {
  }

  /** Above 512 the insert level is two below the segment a size lies in. */
  lemma InsertLevelAbove(n: nat)
    requires FLM < n <= 0x80_0000_0000
    ensures var f := Log2(n); var q := FloorSegment(n);
      && 9 <= f < 40 && q < SLC && (f == 39 ==> q == 0)
      && QueryBitmapLevelForInsert(n) ==
        if q == 0 then BitmapLevel(f - 9, SLC - 2)
        else if q == 1 then BitmapLevel(f - 9, SLC - 1)
        else BitmapLevel(f - 8, q - 2)
  {
    hide Pow2, Log2, QueryBitmapLevelForInsert;
    LargeLog(n);
    TableEnd(n);
    FloorSegmentBounds(n);
    var f := Log2(n);
    assert f == 39 ==> FloorSegment(n) == 0 by {
      if f == 39 {
        ZeroQuotient(Pow2(f - 5));
      }
    }
    InsertLevelSteps(n, f, Pow2(f), Pow2(f - 5), FloorSegment(n));
  }

  lemma ZeroQuotient(m: nat)
    requires m >= 1
    ensures 0 / m == 0
  {
  }

  lemma InsertLevelSteps(n: nat, first: nat, levelMin: nat, unit: nat, q: nat)
    requires FLM < n < WORD64 && 9 <= first < 40 && levelMin == SLC * unit && unit >= 16
    requires levelMin <= n && q == (n - levelMin) / unit && q < SLC
    requires first == Log2(n) && levelMin == Pow2(first)
    ensures QueryBitmapLevelForInsert(n) ==
      if q == 0 then BitmapLevel(first - 9, SLC - 2)
      else if q == 1 then BitmapLevel(first - 9, SLC - 1)
      else BitmapLevel(first - 8, q - 2)
  {
    hide Pow2, Log2, And;
    assert levelMin / SLC == unit;
    assert U16(q) == q;
    And31(if q == 0 then SLC - 2 else if q == 1 then 0xffff else q - 2);
  }

  lemma And31(n: nat)
    ensures And(n, SLC - 1) == n % SLC
  {
    assert Pow2(5) == SLC by { Pow2Constants(); }
    AndLowMask(n, 5);
  }

  /** A free block is filed under a level it is at least as large as, and less than two classes larger. */
  lemma InsertLevelBounds(n: nat)
    requires 16 <= n <= 0x80_0000_0000
    ensures var level := QueryBitmapLevelForInsert(n);
      && level.InTable()
      && QueryLevelSize(level) <= n < QueryLevelSize(level.Succ().Succ())
      && (n <= FLM ==> n < QueryLevelSize(level.Succ()))
      && (n > FLM ==> QueryLevelSize(level.Succ()) <= n)
  {
    if n <= FLM {
      InsertLevelSmall(n);
    } else {
      InsertLevelLarge(n);
    }
  }

  lemma InsertLevelSmall(n: nat)
    requires 16 <= n <= FLM
    ensures QueryBitmapLevelForInsert(n) == BitmapLevel(0, n / 16 - 1)
    ensures var level := QueryBitmapLevelForInsert(n);
      QueryLevelSize(level) <= n < QueryLevelSize(level.Succ()) < QueryLevelSize(level.Succ().Succ())
  {
    var level := BitmapLevel(0, n / 16 - 1);
    assert QueryBitmapLevelForInsert(n) == level;
    LevelSizeStep(level.Succ());
    if n == FLM {
      SegmentSize(9, 1);
      SmallPowers();
    }
  }

  lemma InsertLevelLarge(n: nat)
    requires FLM < n <= 0x80_0000_0000
    ensures var level := QueryBitmapLevelForInsert(n);
      && level.InTable()
      && QueryLevelSize(level) < QueryLevelSize(level.Succ()) <= n < QueryLevelSize(level.Succ().Succ())
  {
    hide Pow2, Log2, FloorSegment, QueryBitmapLevelForInsert, QueryLevelSize;
    InsertLevelAbove(n);
    FloorSegmentBounds(n);
    var f, q := Log2(n), FloorSegment(n);
    SegmentSize(f, q);
    SegmentSize(f, q + 1);
    LevelSizeStep(QueryBitmapLevelForInsert(n));
  }

  /** Any block filed at or above the level a request is served from fits the request. */
  lemma FiledAboveFits(request: nat, block: nat)
    requires 1 <= request <= 0x80_0000_0000 && 16 <= block <= 0x80_0000_0000
    ensures QueryBitmapLevelForAlloc(request).Rank() <= QueryBitmapLevelForInsert(block).Rank() ==>
      request <= QueryLevelSize(QueryBitmapLevelForAlloc(request)) <= block
  {
    hide QueryBitmapLevelForAlloc, QueryBitmapLevelForInsert, QueryLevelSize;
    var level, filed := QueryBitmapLevelForAlloc(request), QueryBitmapLevelForInsert(block);
    AllocLevelInTable(request);
    AllocLevelSize(request);
    InsertLevelBounds(block);
    LevelSizeIncreasing(filed, level);
  }
}
