/** What the heap invariant of `TlsfHeap` amounts to, for every state the allocator can reach. */
module TlsfTheorems {
  import opened Words
  import opened SizeClass
  import opened TlsfHeap
  import opened Tlsf

  // ---------------------------------------------------------------- physical chain

  /** The blocks met by following `nextPhyAllocation` from a to the end of its pool. */
  ghost function PhysChain(mem: Memory, pools: seq<TLSFPool>, i: nat, a: Ptr): seq<Ptr>
    requires PhysOk(mem, pools) && i < |pools| && a in mem && pools[i].Contains(a)
    decreases pools[i].EndPtr() - a
  {
    assert BlockOk(mem, pools[i], a);
    var next := NextPhy(mem, a);
    if next < pools[i].EndPtr() then [a] + PhysChain(mem, pools, i, next) else [a]
  }

  ghost function TotalSize(mem: Memory, chain: seq<Ptr>): nat
    requires forall a | a in chain :: a in mem
  {
    if chain == [] then 0 else mem[chain[0]].size + TRUE_SIZE + TotalSize(mem, chain[1..])
  }

  /**
    The blocks of a pool tile it: the chain from its start meets every block of the pool exactly once,
    and headers and payloads add up to its capacity.
   */
  lemma {:induction false} ChainTiles(mem: Memory, pools: seq<TLSFPool>, i: nat, a: Ptr)
    requires PhysOk(mem, pools) && i < |pools| && a in mem && pools[i].Contains(a)
    ensures var chain := PhysChain(mem, pools, i, a);
      && (forall b :: b in chain <==> b in mem && pools[i].Contains(b) && a <= b)
      && (forall j, k | 0 <= j < k < |chain| :: chain[j] < chain[k])
      && TotalSize(mem, chain) == pools[i].EndPtr() - a
    decreases pools[i].EndPtr() - a
  {
    assert BlockOk(mem, pools[i], a);
    var next := NextPhy(mem, a);
    var chain := PhysChain(mem, pools, i, a);
    forall b | b in mem && a < b
      ensures next <= b
    {
      Apart(mem, a, b);
    }
    if next < pools[i].EndPtr() {
      ChainTiles(mem, pools, i, next);
      var rest := PhysChain(mem, pools, i, next);
      assert chain == [a] + rest && chain[1..] == rest;
      assert forall k | 0 <= k < |rest| :: rest[k] in rest;
    } else {
      assert chain == [a] && TotalSize(mem, chain[1..]) == 0;
    }
  }

  lemma PoolTiled(mem: Memory, pools: seq<TLSFPool>, i: nat)
    requires PoolsOk(pools) && PhysOk(mem, pools) && i < |pools|
    ensures pools[i].ptr in mem && pools[i].Contains(pools[i].ptr)
    ensures var chain := PhysChain(mem, pools, i, pools[i].ptr);
      && (forall b :: b in chain <==> b in mem && pools[i].Contains(b))
      && TotalSize(mem, chain) == pools[i].capacity
  {
    assert pools[i].Usable();
    assert pools[i].ptr in mem;
    ChainTiles(mem, pools, i, pools[i].ptr);
  }

  /** The bytes handed out for two live blocks never overlap, and stay inside one pool. */
  lemma LiveDisjoint(mem: Memory, pools: seq<TLSFPool>, a: Ptr, b: Ptr)
    requires PhysOk(mem, pools) && a in LiveBlocks(mem) && b in LiveBlocks(mem) && a != b
    ensures a + TRUE_SIZE + LiveBlocks(mem)[a].size <= b || b + TRUE_SIZE + LiveBlocks(mem)[b].size <= a
    ensures exists i :: 0 <= i < |pools| && pools[i].ptr <= a && a + TRUE_SIZE + LiveBlocks(mem)[a].size <= pools[i].EndPtr()
  {
    if a < b {
      Apart(mem, a, b);
    } else {
      Apart(mem, b, a);
    }
    assert InSomePool(pools, a);
    var i :| 0 <= i < |pools| && pools[i].Contains(a);
    assert BlockOk(mem, pools[i], a);
  }

  // ---------------------------------------------------------------- free lists

  ghost function RankedAbove(rank: map<Ptr, int>, b: Ptr): set<Ptr>
    requires b in rank
  {
    set x | x in rank && rank[x] > rank[b]
  }

  ghost function RankedBelow(rank: map<Ptr, int>, b: Ptr): set<Ptr>
    requires b in rank
  {
    set x | x in rank && rank[x] < rank[b]
  }

  /** The blocks met by following `nextFreeAlloc` from b. */
  ghost function FreeChain(mem: Memory, links: LinkTable, rank: map<Ptr, int>, b: Ptr): seq<Ptr>
    requires ListsOk(mem, links, rank) && b in rank
    decreases |RankedAbove(rank, b)|
  {
    assert ListedOk(mem, links, rank, b);
    var next := mem[b].payload.nextFreeAlloc;
    if next == 0 then [b]
    else
      assert next in RankedAbove(rank, b) && next !in RankedAbove(rank, next);
      assert RankedAbove(rank, next) < RankedAbove(rank, b);
      SmallerSet(RankedAbove(rank, next), RankedAbove(rank, b));
      [b] + FreeChain(mem, links, rank, next)
  }

  lemma SmallerSet(s: set<Ptr>, t: set<Ptr>)
    requires s < t
    ensures |s| < |t|
  {
    var x :| x in t && x !in s;
    assert s <= t - {x};
    SubsetSize(s, t - {x});
  }

  lemma {:induction false} SubsetSize(s: set<Ptr>, t: set<Ptr>)
    requires s <= t
    ensures |s| <= |t|
  {
    if s != {} {
      var x :| x in s;
      SubsetSize(s - {x}, t - {x});
    }
  }

  /** A list runs through blocks of its own level, each ranked above the one before it. */
  lemma {:induction false} ChainForward(mem: Memory, links: LinkTable, rank: map<Ptr, int>, b: Ptr)
    requires ListsOk(mem, links, rank) && b in rank
    ensures var chain := FreeChain(mem, links, rank, b);
      && b in mem && chain[0] == b
      && (forall x | x in chain :: x in rank && x in mem && LevelOf(mem, x) == LevelOf(mem, b) && rank[b] <= rank[x])
      && (forall j, k | 0 <= j < k < |chain| :: rank[chain[j]] < rank[chain[k]])
    decreases |RankedAbove(rank, b)|
  {
    hide QueryBitmapLevelForInsert;
    assert ListedOk(mem, links, rank, b);
    var next := mem[b].payload.nextFreeAlloc;
    if next != 0 {
      assert next in RankedAbove(rank, b) && next !in RankedAbove(rank, next);
      assert RankedAbove(rank, next) < RankedAbove(rank, b);
      SmallerSet(RankedAbove(rank, next), RankedAbove(rank, b));
      ChainForward(mem, links, rank, next);
      var rest := FreeChain(mem, links, rank, next);
      assert FreeChain(mem, links, rank, b) == [b] + rest;
      assert forall k | 0 <= k < |rest| :: rest[k] in rest;
    }
  }

  /** Every listed block is met from the head of its level. */
  lemma {:induction false} ReachedFromHead(mem: Memory, links: LinkTable, rank: map<Ptr, int>, b: Ptr)
    requires ListsOk(mem, links, rank) && b in rank
    ensures b in mem && LevelOf(mem, b).InTable()
    ensures var head := HeadOf(links, LevelOf(mem, b));
      head != 0 && head in rank && forall x | x in FreeChain(mem, links, rank, b) :: x in FreeChain(mem, links, rank, head)
    decreases |RankedBelow(rank, b)|
  {
    hide QueryBitmapLevelForInsert;
    assert ListedOk(mem, links, rank, b);
    var prev := mem[b].payload.prevFreeAlloc;
    if prev != 0 {
      assert ListedOk(mem, links, rank, prev);
      assert prev in RankedBelow(rank, b) && prev !in RankedBelow(rank, prev);
      assert RankedBelow(rank, prev) < RankedBelow(rank, b);
      SmallerSet(RankedBelow(rank, prev), RankedBelow(rank, b));
      ReachedFromHead(mem, links, rank, prev);
      assert FreeChain(mem, links, rank, prev) == [prev] + FreeChain(mem, links, rank, b);
    }
  }

  /**
    The list of a level, walked from its head, holds exactly the free blocks filed under that level,
    each of them once.
   */
  lemma FreeListExact(mem: Memory, first: nat, second: seq<nat>, links: LinkTable, pools: seq<TLSFPool>, rank: map<Ptr, int>,
                      level: BitmapLevel)
    requires HeapOk(mem, first, second, links, pools, rank) && level.InTable()
    ensures var head := HeadOf(links, level);
      if head == 0 then forall b | b in mem && mem[b].free :: LevelOf(mem, b) != level
      else
        && head in rank
        && var chain := FreeChain(mem, links, rank, head);
        && chain[0] == head
        && (forall b :: b in chain <==> b in mem && mem[b].free && LevelOf(mem, b) == level)
        && (forall j, k | 0 <= j < k < |chain| :: rank[chain[j]] < rank[chain[k]])
  {
    hide QueryBitmapLevelForInsert;
    var head := HeadOf(links, level);
    assert HeadOk(mem, rank, level, head);
    if head != 0 {
      ChainForward(mem, links, rank, head);
    }
    forall b | b in mem && mem[b].free && LevelOf(mem, b) == level
      ensures head != 0 && b in FreeChain(mem, links, rank, head)
    {
      ReachedFromHead(mem, links, rank, b);
      ChainForward(mem, links, rank, b);
    }
  }

  /** A bitmap bit is set exactly if some free block is filed under its level. */
  lemma BitMeansFreeBlock(mem: Memory, first: nat, second: seq<nat>, links: LinkTable, pools: seq<TLSFPool>, rank: map<Ptr, int>,
                          level: BitmapLevel)
    requires HeapOk(mem, first, second, links, pools, rank) && level.InTable()
    ensures Bit(second[level.firstLevel], level.secondLevel) <==> exists b :: b in mem && mem[b].free && LevelOf(mem, b) == level
    ensures Bit(second[level.firstLevel], level.secondLevel) <==> HeadOf(links, level) != 0
    ensures Bit(first, level.firstLevel) <==> second[level.firstLevel] != 0
  {
    hide QueryBitmapLevelForInsert, Bit;
    var head := HeadOf(links, level);
    assert HeadOk(mem, rank, level, head);
    FreeListExact(mem, first, second, links, pools, rank, level);
  }

  /** Block x comes before block y in the list of their level. */
  ghost predicate Before(mem: Memory, links: LinkTable, rank: map<Ptr, int>, x: Ptr, y: Ptr)
    requires ListsOk(mem, links, rank)
  {
    && x in mem && y in mem && LevelOf(mem, x).InTable() && LevelOf(mem, x) == LevelOf(mem, y)
    && HeadOf(links, LevelOf(mem, x)) in rank
    && var chain := FreeChain(mem, links, rank, HeadOf(links, LevelOf(mem, x)));
       (exists j, k :: 0 <= j < k < |chain| && chain[j] == x && chain[k] == y)
  }

  lemma RankOrdersList(mem: Memory, links: LinkTable, rank: map<Ptr, int>, x: Ptr, y: Ptr)
    requires ListsOk(mem, links, rank) && x in rank && y in rank && x in mem && y in mem && LevelOf(mem, x) == LevelOf(mem, y)
    ensures Before(mem, links, rank, x, y) <==> rank[x] < rank[y]
  {
    hide QueryBitmapLevelForInsert, ListsOk;
    ReachedFromHead(mem, links, rank, x);
    ReachedFromHead(mem, links, rank, y);
    ChainForward(mem, links, rank, x);
    ChainForward(mem, links, rank, y);
    ListedInMemory(mem, links, rank);
    var head := HeadOf(links, LevelOf(mem, x));
    ChainForward(mem, links, rank, head);
    var chain := FreeChain(mem, links, rank, head);
    assert x in FreeChain(mem, links, rank, x) && y in FreeChain(mem, links, rank, y);
    var j: nat :| j < |chain| && chain[j] == x;
    var k: nat :| k < |chain| && chain[k] == y;
    assert rank[x] < rank[y] ==> j < k;
  }

  /**
    No operation reorders a list: of two blocks in one list that were listed before, the one that comes first
    came first before. Only c may be new, and it is at the front of its list.
   */
  lemma OrderKept(m: Memory, links: LinkTable, rank: map<Ptr, int>, m': Memory, links': LinkTable, rank': map<Ptr, int>,
                  c: Ptr, x: Ptr, y: Ptr)
    requires ListsOk(m, links, rank) && ListsOk(m', links', rank') && LinksShape(links') && ListsAfter(m, rank, m', links', rank', c)
    requires x in rank' && y in rank' && x in m' && y in m' && LevelOf(m', x) == LevelOf(m', y) && x != y
    ensures x == c ==> Before(m', links', rank', x, y)
    ensures x != c && y != c ==> (Before(m', links', rank', x, y) <==> Before(m, links, rank, x, y))
  {
    hide QueryBitmapLevelForInsert, ListsOk, Before;
    RankOrdersList(m', links', rank', x, y);
    if x == c {
      HeadIsFirst(m', links', rank', y);
    } else if y != c {
      assert Kept(m, rank, m', rank', x) && Kept(m, rank, m', rank', y);
      RankOrdersList(m, links, rank, x, y);
    }
  }

  /** The head of a level is ranked no higher than any block of the level. */
  lemma HeadIsFirst(mem: Memory, links: LinkTable, rank: map<Ptr, int>, b: Ptr)
    requires ListsOk(mem, links, rank) && b in rank
    ensures b in mem && LevelOf(mem, b).InTable()
    ensures LinksShape(links)
    ensures var head := HeadOf(links, LevelOf(mem, b)); head in rank && rank[head] <= rank[b] && (rank[head] == rank[b] ==> head == b)
  {
    hide QueryBitmapLevelForInsert;
    ReachedFromHead(mem, links, rank, b);
    ChainForward(mem, links, rank, b);
    ChainForward(mem, links, rank, HeadOf(links, LevelOf(mem, b)));
  }

  // ---------------------------------------------------------------- coalescing

  lemma NextOfFree(mem: Memory, pools: seq<TLSFPool>, i: nat, a: Ptr, listed: set<Ptr>)
    requires PhysOk(mem, pools) && FreeOk(mem, listed) && i < |pools| && a in mem && pools[i].Contains(a) && mem[a].free
    requires NextPhy(mem, a) < pools[i].EndPtr()
    ensures NextPhy(mem, a) in mem && !mem[NextPhy(mem, a)].free
  {
    assert BlockOk(mem, pools[i], a);
    assert mem[NextPhy(mem, a)].prevPhyAlloc == a;
  }

  /** Once nothing is live, every pool is back to the single free block it started as. */
  lemma AllFreeIsOneBlock(mem: Memory, first: nat, second: seq<nat>, links: LinkTable, pools: seq<TLSFPool>, rank: map<Ptr, int>,
                          i: nat)
    requires HeapOk(mem, first, second, links, pools, rank) && i < |pools|
    requires LiveBlocks(mem) == map[]
    ensures var start := pools[i].ptr;
      && (forall b :: b in mem && pools[i].Contains(b) <==> b == start)
      && mem[start].size == pools[i].capacity - TRUE_SIZE && mem[start].free && mem[start].prevPhyAlloc == 0
  {
    var start := pools[i].ptr;
    assert pools[i].Usable();
    assert BlockOk(mem, pools[i], start);
    assert forall b | b in mem :: mem[b].free by {
      forall b | b in mem
        ensures mem[b].free
      {
        assert b !in LiveBlocks(mem);
      }
    }
    var next := NextPhy(mem, start);
    if next < pools[i].EndPtr() {
      NextOfFree(mem, pools, i, start, rank.Keys);
      assert false;
    }
    forall b | b in mem && pools[i].Contains(b)
      ensures b == start
    {
      if start < b {
        Apart(mem, start, b);
      }
    }
  }

  /** With one pool and nothing live, exactly one bit is set on each level of the bitmaps. */
  lemma AllFreeBitmaps(mem: Memory, first: nat, second: seq<nat>, links: LinkTable, pools: seq<TLSFPool>, rank: map<Ptr, int>)
    requires HeapOk(mem, first, second, links, pools, rank) && |pools| == 1
    requires LiveBlocks(mem) == map[]
    ensures pools[0].capacity >= 32
    ensures var level := QueryBitmapLevelForInsert(pools[0].capacity - TRUE_SIZE);
      && level.InTable()
      && first == Pow2(level.firstLevel)
      && forall f | 0 <= f < FLC :: second[f] == if f == level.firstLevel then Pow2(level.secondLevel) else 0
  {
    hide QueryBitmapLevelForInsert, Bit, Pow2;
    assert pools[0].Usable();
    AllFreeIsOneBlock(mem, first, second, links, pools, rank, 0);
    var start := pools[0].ptr;
    LevelInTable(mem, start);
    var level := LevelOf(mem, start);
    forall b | b in mem
      ensures b == start
    {
      assert InSomePool(pools, b);
    }
    forall other: BitmapLevel | other.InTable()
      ensures Bit(second[other.firstLevel], other.secondLevel) <==> other == level
    {
      BitMeansFreeBlock(mem, first, second, links, pools, rank, other);
      assert start in mem && mem[start].free;
    }
    forall f | 0 <= f < FLC
      ensures second[f] == if f == level.firstLevel then Pow2(level.secondLevel) else 0
    {
      forall s: nat | s < SLC
        ensures Bit(second[f], s) <==> f == level.firstLevel && s == level.secondLevel
      {
        assert BitmapLevel(f, s).InTable();
      }
      if f == level.firstLevel {
        OneBitWord(second[f], level.secondLevel, SLC);
      } else {
        NoBitWord(second[f], SLC);
      }
    }
    OneBitWord(first, level.firstLevel, FLC);
  }

  // ---------------------------------------------------------------- the split search

  ghost predicate Passed(second: seq<nat>, start: BitmapLevel, level: BitmapLevel)
    requires |second| == FLC
  {
    && start.firstLevel < level.firstLevel && level.secondLevel < start.secondLevel
    && forall e | start.firstLevel <= e < level.firstLevel && e < FLC :: second[e] != 0
  }

  /**
    What the search misses, exactly: a level at or above `start` is passed over if and only if it lies in
    a later row, to the left of the start column, with no empty row from the start row up to its own.
   */
  lemma MissedLevels(second: seq<nat>, start: BitmapLevel, level: BitmapLevel)
    requires |second| == FLC && start.secondLevel < SLC && level.InTable() && start.Rank() <= level.Rank()
    ensures !Scanned(second, start, level) <==> Passed(second, start, level)
  {
  }

  /** The search never offers a level below `start`, so whatever it finds is large enough to split. */
  lemma ScannedAbove(second: seq<nat>, start: BitmapLevel, level: BitmapLevel)
    requires |second| == FLC && start.secondLevel < SLC && Scanned(second, start, level)
    ensures start.Rank() <= level.Rank() && QueryLevelSize(start) <= QueryLevelSize(level)
  {
    LevelSizeIncreasing(level, start);
  }

  /**
    Exactly when `alloc` fails: every free block is filed below the level of the request, or in one of
    the levels above it that the search passes over.
   */
  lemma AllocFailsExactly(t: TLSF, size: nat)
    requires t.Valid() && 1 <= size <= 0x80_0000_0000
    ensures var level := QueryBitmapLevelForAlloc(size); var start := level.Succ();
      !t.Served(size) <==> forall b | b in t.mem && t.mem[b].free ::
        var at := LevelOf(t.mem, b);
        at.Rank() < level.Rank() || (at.Rank() > level.Rank() && Passed(t.secondLevelBitmap, start, at))
  {
    hide QueryBitmapLevelForAlloc, QueryBitmapLevelForInsert, Bit;
    AllocLevelInTable(size);
    var level := QueryBitmapLevelForAlloc(size);
    forall other: BitmapLevel | other.InTable()
      ensures t.NonEmpty(other) <==> exists b :: b in t.mem && t.mem[b].free && LevelOf(t.mem, b) == other
    {
      BitMeansFreeBlock(t.mem, t.firstLevelBitmap, t.secondLevelBitmap, t.allocationLinkTable, t.memoryPools, t.rank, other);
    }
    forall b | b in t.mem && t.mem[b].free
      ensures LevelOf(t.mem, b).InTable() && t.NonEmpty(LevelOf(t.mem, b))
      ensures level.Succ().Rank() <= LevelOf(t.mem, b).Rank() ==>
        (Scanned(t.secondLevelBitmap, level.Succ(), LevelOf(t.mem, b)) <==> !Passed(t.secondLevelBitmap, level.Succ(), LevelOf(t.mem, b)))
      ensures LevelOf(t.mem, b).Rank() == level.Rank() ==> LevelOf(t.mem, b) == level
      ensures Scanned(t.secondLevelBitmap, level.Succ(), LevelOf(t.mem, b)) ==> level.Rank() < LevelOf(t.mem, b).Rank()
    {
      BlockSize(t.mem, t.memoryPools, b);
      LevelInTable(t.mem, b);
      var at := LevelOf(t.mem, b);
      if level.Succ().Rank() <= at.Rank() {
        MissedLevels(t.secondLevelBitmap, level.Succ(), at);
      }
      if Scanned(t.secondLevelBitmap, level.Succ(), at) {
        ScannedAbove(t.secondLevelBitmap, level.Succ(), at);
      }
    }
  }

  /**
    Which free block `alloc` answers with. A block filed at the level of the request is preferred to every other
    one, however small that other one is; without one, no block the search looks at is filed below the block taken.
    Either way it is the block that was filed last under its level.
   */
  lemma AllocPrefers(t: TLSF, size: nat, a: Ptr)
    requires t.Valid() && 1 <= size <= 0x80_0000_0000 && t.Chosen(size, a)
    ensures a != 0 <==> t.Served(size)
    ensures a != 0 ==> a in t.mem && t.mem[a].free && LevelOf(t.mem, a).InTable() && a == HeadOf(t.allocationLinkTable, LevelOf(t.mem, a))
    ensures var level := QueryBitmapLevelForAlloc(size);
      forall b | b in t.mem && t.mem[b].free ::
        && (LevelOf(t.mem, b) == level ==> a != 0 && LevelOf(t.mem, a) == level)
        && (a != 0 && LevelOf(t.mem, a) != level ==>
              && Scanned(t.secondLevelBitmap, level.Succ(), LevelOf(t.mem, a))
              && (Scanned(t.secondLevelBitmap, level.Succ(), LevelOf(t.mem, b)) ==> LevelOf(t.mem, a).Rank() <= LevelOf(t.mem, b).Rank()))
  {
    hide QueryBitmapLevelForAlloc, QueryBitmapLevelForInsert, Bit, PhysOk;
    AllocLevelInTable(size);
    var level := QueryBitmapLevelForAlloc(size);
    assert HeadOk(t.mem, t.rank, level, HeadOf(t.allocationLinkTable, level));
    if !t.NonEmpty(level) && a != 0 {
      var best :| t.Least(level.Succ(), best) && a == HeadOf(t.allocationLinkTable, best);
      assert HeadOk(t.mem, t.rank, best, a);
    }
    forall b | b in t.mem && t.mem[b].free
      ensures LevelOf(t.mem, b).InTable() && t.NonEmpty(LevelOf(t.mem, b))
    {
      ReachedFromHead(t.mem, t.allocationLinkTable, t.rank, b);
    }
  }

  lemma WitnessLevels()
    ensures QueryBitmapLevelForAlloc(96) == BitmapLevel(0, 5)
    ensures QueryBitmapLevelForInsert(48) == BitmapLevel(0, 2)
    ensures QueryBitmapLevelForInsert(544) == BitmapLevel(1, 0)
  {
    AllocLevelSmall(96);
    InsertLevelSmall(48);
    SmallPowers();
    Log2Unique(544, 9);
    InsertLevelAbove(544);
  }

  /**
    A run in which `alloc` fails although a large enough block is free: 48 bytes are free in row 0 and 544
    bytes in row 1, and a request of 96 bytes looks right of column 5 in both rows.
   */
  method SearchIsIncomplete() returns (t: TLSF, p: Ptr)
    ensures t.Valid() && p == 0
    ensures 1024 in t.mem && t.mem[1024].free && t.mem[1024].size == 544
  {
    hide QueryBitmapLevelForInsert, QueryBitmapLevelForAlloc, Bit, ListsOk, BitmapsOk, PhysOk, FreeOk;
    t := new TLSF();
    t.Initialize(TLSFPool(16, 64));
    assert t.mem.Keys == {16};
    t.Initialize(TLSFPool(1024, 560));
    assert t.mem.Keys == {16, 1024} && t.mem[16].size == 48 && t.mem[1024].size == 544 && t.mem[16].free && t.mem[1024].free;
    WitnessNotServed(t);
    p := t.Alloc(96);
  }

  lemma WitnessNotServed(t: TLSF)
    requires t.Valid() && t.mem.Keys == {16, 1024} && t.mem[16].size == 48 && t.mem[1024].size == 544
    requires t.mem[16].free && t.mem[1024].free
    ensures !t.Served(96)
  {
    hide QueryBitmapLevelForInsert, QueryBitmapLevelForAlloc, Bit;
    WitnessLevels();
    forall level: BitmapLevel | level.InTable()
      ensures t.NonEmpty(level) <==> level == BitmapLevel(0, 2) || level == BitmapLevel(1, 0)
    {
      BitMeansFreeBlock(t.mem, t.firstLevelBitmap, t.secondLevelBitmap, t.allocationLinkTable, t.memoryPools, t.rank, level);
      assert LevelOf(t.mem, 16) == BitmapLevel(0, 2) && LevelOf(t.mem, 1024) == BitmapLevel(1, 0);
      assert 16 in t.mem && 1024 in t.mem;
    }
    assert Bit(t.secondLevelBitmap[0], 2) by {
      BitMeansFreeBlock(t.mem, t.firstLevelBitmap, t.secondLevelBitmap, t.allocationLinkTable, t.memoryPools, t.rank, BitmapLevel(0, 2));
      assert t.NonEmpty(BitmapLevel(0, 2));
    }
    NonZeroRow(t.secondLevelBitmap[0], 2);
    assert !Scanned(t.secondLevelBitmap, BitmapLevel(0, 6), BitmapLevel(1, 0));
  }
}
