/** The TLSF allocator of util/TLSF.hpp over the heap of `TlsfHeap`. */
module Tlsf {
  import opened Words
  import opened SizeClass
  import opened TlsfHeap

  /**
    The levels `findLevelForSplit` looks at from `base`, given the row bitmaps. It never goes back to the
    first column after a row in which it found nothing; only an empty row resets the column.
   */
  ghost predicate Scanned(second: seq<nat>, base: BitmapLevel, level: BitmapLevel)
    requires |second| == FLC
  {
    && level.InTable() && base.firstLevel <= level.firstLevel
    && (base.secondLevel <= level.secondLevel || EmptyRowBetween(second, base.firstLevel, level.firstLevel))
  }

  ghost predicate EmptyRowBetween(second: seq<nat>, from: nat, to: nat)
    requires |second| == FLC && to <= FLC
  {
    exists e :: from <= e < to && second[e] == 0
  }

  class TLSF {
    var firstLevelBitmap: nat
    var secondLevelBitmap: seq<nat>
    var allocationLinkTable: LinkTable
    var memoryPools: seq<TLSFPool>
    var mem: Memory
    ghost var rank: map<Ptr, int>

    /** Free lists and bitmaps agree; says nothing about which blocks are listed. */
    ghost predicate ListsValid()
      reads this
    {
      && ListsOk(mem, allocationLinkTable, rank)
      && BitmapsOk(firstLevelBitmap, secondLevelBitmap, allocationLinkTable)
    }

    ghost predicate Valid()
      reads this
    {
      HeapOk(mem, firstLevelBitmap, secondLevelBitmap, allocationLinkTable, memoryPools, rank)
    }

    ghost function Live(): map<Ptr, LiveBlock>
      reads this
    {
      LiveBlocks(mem)
    }

    ghost predicate NonEmpty(level: BitmapLevel)
      reads this
      requires LinksShape(allocationLinkTable) && level.InTable()
    {
      HeadOf(allocationLinkTable, level) != 0
    }

    constructor ()
      ensures Valid() && mem == map[] && memoryPools == []
    {
      firstLevelBitmap := 0;
      secondLevelBitmap := seq(FLC, _ => 0);
      allocationLinkTable := seq(FLC, _ => seq(SLC, _ => 0));
      memoryPools := [];
      mem := map[];
      rank := map[];
      new;
      forall k: nat
        ensures !Bit(0, k)
      {
        ZeroBits(k);
      }
    }

    /** `queryFreeStatus`; the first test is `(!bitmap) & bit`, which only fires when nothing is free. */
    function QueryFreeStatus(level: BitmapLevel): (r: bool)
      requires ListsValid() && level.InTable()
      reads this
      ensures r <==> NonEmpty(level)
    {
      var negated := if firstLevelBitmap == 0 then 1 else 0;
      AndPow2(negated, level.firstLevel);
      AndPow2(secondLevelBitmap[level.firstLevel], level.secondLevel);
      ZeroBits(level.firstLevel);
      ZeroBits(level.secondLevel);
      if And(negated, Pow2(level.firstLevel)) != 0 then false
      else And(secondLevelBitmap[level.firstLevel], Pow2(level.secondLevel)) != 0
    }

    lemma EmptyRow(f: nat)
      requires ListsValid() && f < FLC && secondLevelBitmap[f] == 0
      ensures forall level: BitmapLevel | level.InTable() && level.firstLevel == f :: !NonEmpty(level)
    {
      forall level: BitmapLevel | level.InTable() && level.firstLevel == f
        ensures !NonEmpty(level)
      {
        ZeroBits(level.secondLevel);
      }
    }

    /** `findLevelForSplit`. */
    method FindLevelForSplit(start: BitmapLevel) returns (level: BitmapLevel)
      requires ListsValid() && start.firstLevel <= FLC && start.secondLevel < SLC
      ensures level == INVALID_LEVEL || (Scanned(secondLevelBitmap, start, level) && NonEmpty(level))
      ensures forall other :: Scanned(secondLevelBitmap, start, other) && NonEmpty(other) ==>
        level != INVALID_LEVEL && level.Rank() <= other.Rank()
    {
      hide Bit, And, Pow2;
      var column := start.secondLevel;
      var first := start.firstLevel;
      while first < FLC
        invariant start.firstLevel <= first <= FLC
        invariant column == if EmptyRowBetween(secondLevelBitmap, start.firstLevel, first) then 0 else start.secondLevel
        invariant forall other :: Scanned(secondLevelBitmap, start, other) && other.firstLevel < first ==> !NonEmpty(other)
      {
        AndPow2(firstLevelBitmap, first);
        if And(firstLevelBitmap, Pow2(first)) == 0 {
          column := 0;
          EmptyRow(first);
        } else {
          var second := column;
          while second < SLC
            invariant column <= second <= SLC
            invariant forall other :: Scanned(secondLevelBitmap, start, other) && other.firstLevel == first && other.secondLevel < second ==> !NonEmpty(other)
          {
            var acquired := BitmapLevel(first, second);
            if QueryFreeStatus(acquired) {
              return acquired;
            }
            second := second + 1;
          }
        }
        first := first + 1;
      }
      level := INVALID_LEVEL;
    }

    /** `queryAllocationWithFreeLevel`: takes the head block off a non-empty list. */
    method QueryAllocationWithFreeLevel(level: BitmapLevel) returns (origin: Ptr)
      requires ListsValid() && level.InTable() && NonEmpty(level)
      modifies this
      ensures ListsValid() && memoryPools == old(memoryPools)
      ensures origin == old(HeadOf(allocationLinkTable, level)) && old(origin in rank) && rank == old(rank) - {origin}
      ensures SameLayout(old(mem), mem) && LiveBlocks(mem) == old(LiveBlocks(mem))
      ensures PoppedFrom(mem, allocationLinkTable, rank, origin, level)
    {
      hide QueryBitmapLevelForInsert, Bit, And, Pow2;
      origin := allocationLinkTable[level.firstLevel][level.secondLevel];
      assert HeadOk(mem, rank, level, HeadOf(allocationLinkTable, level));
      assert ListedOk(mem, allocationLinkTable, rank, origin);
      ListedUnlinkable(mem, allocationLinkTable, rank, origin);
      UnlinkKeepsLists(mem, allocationLinkTable, rank, origin);
      UnlinkKeepsLive(mem, allocationLinkTable, rank, origin);
      var next := mem[origin].payload.nextFreeAlloc;
      ghost var links := allocationLinkTable;
      allocationLinkTable := SetHead(allocationLinkTable, level, next);
      if next != 0 {
        mem := WithPrev(mem, next, 0);
        SameBitmaps(firstLevelBitmap, secondLevelBitmap, links, level, next);
      } else {
        ClearKeepsBitmaps(firstLevelBitmap, secondLevelBitmap, links, level);
        ClearLevel(level);
      }
      rank := rank - {origin};
    }

    /** The bitmap update both removals share. */
    method ClearLevel(level: BitmapLevel)
      requires |secondLevelBitmap| == FLC && level.InTable()
      modifies this`firstLevelBitmap, this`secondLevelBitmap
      ensures secondLevelBitmap == ClearedSecond(old(secondLevelBitmap), level)
      ensures firstLevelBitmap == ClearedFirst(old(firstLevelBitmap), secondLevelBitmap, level)
    {
      Pow2Monotone(level.secondLevel, 32);
      Pow2Monotone(level.firstLevel, 32);
      var row: nat := And(secondLevelBitmap[level.firstLevel], Not(Pow2(level.secondLevel), 32));
      secondLevelBitmap := secondLevelBitmap[level.firstLevel := row];
      if secondLevelBitmap[level.firstLevel] == 0 {
        firstLevelBitmap := And(firstLevelBitmap, Not(Pow2(level.firstLevel), 32));
      }
    }

    /**
      `removeFreeAllocationAndUpdateBitmap(allocation, level)`. The only caller has just popped the block
      off this very list, and then nothing changes; on a listed block it takes the block out.
     */
    method RemoveAtLevel(a: Ptr, level: BitmapLevel)
      requires ListsValid() && level.InTable()
      requires PoppedFrom(mem, allocationLinkTable, rank, a, level) || (a in rank && a in mem && LevelOf(mem, a) == level)
      modifies this
      ensures ListsValid() && memoryPools == old(memoryPools) && SameLayout(old(mem), mem)
      ensures rank == old(rank) - {a} && a in mem
      ensures LiveBlocks(mem) == old(LiveBlocks(mem))
      ensures old(a !in rank) ==>
        && mem == old(mem) && allocationLinkTable == old(allocationLinkTable)
        && firstLevelBitmap == old(firstLevelBitmap) && secondLevelBitmap == old(secondLevelBitmap)
    {
      hide QueryBitmapLevelForInsert, Bit, And, Pow2;
      ghost var links, popped := allocationLinkTable, a !in rank;
      if popped {
        UnlinkPopped(mem, links, rank, a, level);
      } else {
        ListedUnlinkable(mem, links, rank, a);
        UnlinkKeepsLists(mem, links, rank, a);
        UnlinkKeepsLive(mem, links, rank, a);
        assert mem[a].payload.prevFreeAlloc == 0 ==> HeadOf(links, level) != 0 by {
          assert ListedOk(mem, links, rank, a);
        }
      }
      var next, prev := mem[a].payload.nextFreeAlloc, mem[a].payload.prevFreeAlloc;
      if prev != 0 {
        mem := WithNext(mem, prev, next);
      } else {
        allocationLinkTable := SetHead(allocationLinkTable, level, next);
      }
      if next != 0 {
        mem := WithPrev(mem, next, prev);
      }
      SetHeadSame(links, level);
      assert popped ==> rank - {a} == rank;
      rank := rank - {a};
      UpdateBitmaps(level, links);
    }

    /** The last step of a removal: the bits of a list that has become empty are cleared. */
    method UpdateBitmaps(level: BitmapLevel, ghost links: LinkTable)
      requires LinksShape(allocationLinkTable) && LinksShape(links) && level.InTable()
      requires BitmapsOk(firstLevelBitmap, secondLevelBitmap, links)
      requires allocationLinkTable == SetHead(links, level, HeadOf(allocationLinkTable, level))
      requires HeadOf(links, level) == 0 ==> HeadOf(allocationLinkTable, level) == 0
      modifies this`firstLevelBitmap, this`secondLevelBitmap
      ensures BitmapsOk(firstLevelBitmap, secondLevelBitmap, allocationLinkTable)
      ensures links == allocationLinkTable ==>
        firstLevelBitmap == old(firstLevelBitmap) && secondLevelBitmap == old(secondLevelBitmap)
    {
      hide Bit, And, Pow2;
      if allocationLinkTable[level.firstLevel][level.secondLevel] == 0 {
        if HeadOf(links, level) == 0 {
          ClearTwice(firstLevelBitmap, secondLevelBitmap, links, level);
        }
        ClearKeepsBitmaps(firstLevelBitmap, secondLevelBitmap, links, level);
        ClearLevel(level);
      } else {
        SameBitmaps(firstLevelBitmap, secondLevelBitmap, links, level, HeadOf(allocationLinkTable, level));
      }
    }

    /** `removeFreeAllocationAndUpdateBitmap(allocation)`: takes a listed block out of its list. */
    method Remove(a: Ptr)
      requires ListsValid() && a in rank
      modifies this
      ensures ListsValid() && memoryPools == old(memoryPools) && SameLayout(old(mem), mem)
      ensures rank == old(rank) - {a} && a in mem
      ensures LiveBlocks(mem) == old(LiveBlocks(mem))
    {
      hide QueryBitmapLevelForInsert, Bit, And, Pow2;
      assert ListedOk(mem, allocationLinkTable, rank, a);
      var level := QueryBitmapLevelForInsert(mem[a].size);
      RemoveAtLevel(a, level);
    }

    /** The insertion `insertFreeAllocation` ends with: block a becomes the head of its level. */
    method PushFree(a: Ptr)
      requires ListsValid() && a in mem && a !in rank && a != 0 && mem[a].free && mem[a].size >= 16
      modifies this
      ensures ListsValid() && memoryPools == old(memoryPools) && SameLayout(old(mem), mem)
      ensures rank.Keys == old(rank).Keys + {a} && forall b | b in old(rank) :: rank[b] == old(rank)[b]
      ensures LiveBlocks(mem) == old(LiveBlocks(mem))
      ensures old(LevelOf(mem, a)).InTable() && HeadOf(allocationLinkTable, old(LevelOf(mem, a))) == a
    {
      hide QueryBitmapLevelForInsert, Bit, Or, Pow2;
      LevelInTable(mem, a);
      PushKeepsLists(mem, allocationLinkTable, rank, a);
      PushKeepsLive(mem, allocationLinkTable, rank, a);
      var level := QueryBitmapLevelForInsert(mem[a].size);
      var origin := allocationLinkTable[level.firstLevel][level.secondLevel];
      ghost var links := allocationLinkTable;
      allocationLinkTable := SetHead(allocationLinkTable, level, a);
      mem := mem[a := mem[a].(payload := FreeLinks(0, origin))];
      if origin == 0 {
        SetKeepsBitmaps(firstLevelBitmap, secondLevelBitmap, links, level, a);
        var row: nat := Or(secondLevelBitmap[level.firstLevel], Pow2(level.secondLevel));
        secondLevelBitmap := secondLevelBitmap[level.firstLevel := row];
        firstLevelBitmap := Or(firstLevelBitmap, Pow2(level.firstLevel));
      } else {
        SameBitmaps(firstLevelBitmap, secondLevelBitmap, links, level, a);
        mem := WithPrev(mem, origin, a);
      }
      rank := PushRank(rank, a, origin);
    }

    /** `locatePool`, and the same loop in `free`. */
    method LocatePool(a: Ptr) returns (i: nat)
      requires PoolsOk(memoryPools) && InSomePool(memoryPools, a)
      ensures i < |memoryPools| && memoryPools[i].Contains(a)
    {
      i := |memoryPools|;
      for k := 0 to |memoryPools|
        invariant i < |memoryPools| ==> memoryPools[i].Contains(a)
        invariant i == |memoryPools| ==> forall j :: 0 <= j < k ==> !memoryPools[j].Contains(a)
        invariant i <= |memoryPools|
      {
        if memoryPools[k].Contains(a) {
          i := k;
        }
      }
    }

    /** What a block keeps of its size when `size` bytes of it are wanted: too small a rest is left on it. */
    static function Remaining(blockSize: nat, size: nat): nat {
      if blockSize < size + TRUE_SIZE + MIN_SIZE then blockSize else size
    }

    /**
      `splitAllocation`: takes the head block of a non-empty list, keeps `size` bytes of it and files the
      rest, unless the rest would be too small. The block is still marked free; `Alloc` clears the mark.
     */
    method SplitAllocation(level: BitmapLevel, size: nat) returns (target: Ptr)
      requires Valid() && level.InTable() && NonEmpty(level)
      requires size % 16 == 0 && 16 <= size <= QueryLevelSize(level)
      modifies this
      ensures target in mem && mem[target].free && target !in rank && old(target in rank)
      ensures PoolsOk(memoryPools) && PhysOk(mem, memoryPools) && ListsValid() && FreeOk(Held(mem, target), rank.Keys)
      ensures memoryPools == old(memoryPools) && LiveBlocks(mem) == old(LiveBlocks(mem))
      ensures target == old(HeadOf(allocationLinkTable, level)) && old(target in mem)
      ensures mem[target].size == Remaining(old(mem[target].size), size) && size <= mem[target].size < size + 32
      ensures TakenOut(old(mem), old(rank), mem, allocationLinkTable, rank, target, target + TRUE_SIZE + mem[target].size)
    {
      hide QueryBitmapLevelForInsert, QueryLevelSize, Bit, And, Pow2, ListsOk, BitmapsOk, ListsAfter, TakenOut;
      hide PhysOk, PoolsOk, FreeOk, Held, LiveBlocks;
      ListedInMemory(mem, allocationLinkTable, rank);
      target := QueryAllocationWithFreeLevel(level);
      SamePhysOk(old(mem), mem, memoryPools);
      BlockSize(mem, memoryPools, target);
      LevelInTable(mem, target);
      assert rank.Keys + {target} == old(rank).Keys;
      ghost var all := rank.Keys + {target};
      SameFreeAll(old(mem), mem, all);
      RemoveAtLevel(target, level);
      assert rank.Keys + {target} == all;
      if mem[target].size - size < TRUE_SIZE + MIN_SIZE {
        PoppedFree(mem, target, rank.Keys);
        TakenWhole(old(mem), old(allocationLinkTable), old(rank), mem, allocationLinkTable, rank, target, NextPhy(mem, target));
        return;
      }
      ghost var s, ranked := mem, rank;
      CutBlock(target, size);
      ListedInMemory(mem, allocationLinkTable, rank);
      TakenPart(old(mem), old(allocationLinkTable), old(rank), s, ranked, mem, allocationLinkTable, rank, target, NextPhy(mem, target));
    }

    /** The headers of the two parts, and the back pointer of the block behind them. */
    method WriteParts(target: Ptr, size: Size31, i: nat) returns (next: Ptr)
      requires CanSplit(mem, memoryPools, i, target, size)
      modifies this`mem
      ensures mem == Split(old(mem), memoryPools[i], target, size, UserData([])) && next == target + TRUE_SIZE + size
    {
      var afterNext := NextPhy(mem, target);
      SplitFresh(mem, memoryPools, i, target, size);
      var splitedSize: Size31 := mem[target].size - size - TRUE_SIZE;
      mem := mem[target := mem[target].(size := size)];
      next := NextPhy(mem, target);
      mem := mem[next := AllocHeader(target, splitedSize, true, UserData([]))];
      if memoryPools[i].CheckNextContains(afterNext) {
        mem := mem[afterNext := mem[afterNext].(prevPhyAlloc := next)];
      }
    }

    /** The part of `splitAllocation` that really splits. */
    method CutBlock(target: Ptr, size: Size31)
      requires PoolsOk(memoryPools) && PhysOk(mem, memoryPools) && ListsValid() && target in mem && target !in rank
      requires FreeOk(mem, rank.Keys + {target}) && InSomePool(memoryPools, target)
      requires size % 16 == 0 && size >= 16 && mem[target].size >= size + 32
      modifies this
      ensures target in mem && mem[target].free && target !in rank && mem[target].size == size
      ensures PoolsOk(memoryPools) && PhysOk(mem, memoryPools) && ListsValid() && FreeOk(Held(mem, target), rank.Keys)
      ensures ListsAfter(old(mem), old(rank), mem, allocationLinkTable, rank, target + TRUE_SIZE + size)
      ensures rank.Keys == old(rank).Keys + {target + TRUE_SIZE + size}
      ensures memoryPools == old(memoryPools) && LiveBlocks(mem) == old(LiveBlocks(mem))
    {
      hide QueryBitmapLevelForInsert, Bit, Pow2, PhysOk, LiveBlocks, BitmapsOk, ListsOk, PoolsOk, ListsAfter, Split;
      var i := LocatePool(target);
      ghost var m, before := mem, rank;
      SplitPhys(m, memoryPools, i, target, size, UserData([]));
      SplitFree(m, memoryPools, i, target, size, UserData([]), rank.Keys);
      SplitOthers(m, memoryPools, i, target, size, UserData([]), allocationLinkTable, rank);
      SplitSizes(m, memoryPools, i, target, size, UserData([]));
      var next := WriteParts(target, size, i);
      ghost var split := mem;
      OtherBlocks(m, split, allocationLinkTable, rank);
      PushFree(next);
      SamePhysOk(split, mem, memoryPools);
      SameFree(split, mem, target, rank.Keys);
      ListedInMemory(mem, allocationLinkTable, rank);
      PushedAfter(m, before, split, mem, allocationLinkTable, rank, next);
    }

    /** A freed block that is in no list yet, inside an otherwise consistent heap. */
    ghost predicate Freed(a: Ptr, i: nat)
      reads this
    {
      && PoolsOk(memoryPools) && ListsValid()
      && a in mem && mem[a].free && a !in rank && i < |memoryPools| && memoryPools[i].Contains(a)
    }

    /** First half of the merge in `insertFreeAllocation`: a free block before a takes it over. */
    method MergeWithPrev(a: Ptr, i: nat) returns (c: Ptr)
      requires Freed(a, i) && PhysOk(mem, memoryPools) && FreeOk(Held(mem, a), rank.Keys)
      modifies this
      ensures Freed(c, i) && memoryPools == old(memoryPools) && LiveBlocks(mem) == old(LiveBlocks(mem))
      ensures PhysOk(WithBack(mem, memoryPools[i], c), memoryPools)
      ensures FreeOk(Held(WithBack(mem, memoryPools[i], c), c), rank.Keys)
      ensures mem[c].prevPhyAlloc !in rank.Keys
      ensures c <= a && NextPhy(mem, c) == old(NextPhy(mem, a)) && OnlyLost(old(mem), old(rank), mem, rank)
    {
      hide QueryBitmapLevelForInsert, PhysOk, FreeOk, LiveBlocks, WithBack, Held, PoolsOk, ListsOk, BitmapsOk;
      ListedInMemory(mem, allocationLinkTable, rank);
      c := a;
      BackAlready(mem, memoryPools, i, a);
      var prev := mem[a].prevPhyAlloc;
      if prev != 0 && mem[prev].free {
        FreeIsListed(mem, a, prev, rank.Keys);
        ghost var listed, m := rank.Keys - {prev}, mem;
        assert listed + {prev} == rank.Keys;
        Remove(prev);
        assert rank.Keys == listed;
        SamePhysOk(m, mem, memoryPools);
        SameFree(m, mem, a, listed + {prev});
        MergePrev(mem, memoryPools, i, a, prev, listed);
        ghost var removed := mem;
        var size: Size31 := (mem[prev].size + (mem[a].size + TRUE_SIZE)) % 0x8000_0000;
        mem := (mem - {a})[prev := mem[prev].(size := size)];
        assert mem == (removed - {a})[prev := removed[prev].(size := removed[prev].size + TRUE_SIZE + removed[a].size)];
        OtherBlocks(removed, mem, allocationLinkTable, rank);
        RemovedLost(m, old(allocationLinkTable), old(rank), removed, mem, rank, prev);
        c := prev;
      } else {
        PrevNotListed(mem, a, prev, rank.Keys);
      }
    }

    /** Second half: c takes over a free block behind it, or that block learns who is before it. */
    method MergeWithNext(c: Ptr, i: nat)
      requires Freed(c, i) && mem[c].prevPhyAlloc !in rank.Keys
      requires PhysOk(WithBack(mem, memoryPools[i], c), memoryPools)
      requires FreeOk(Held(WithBack(mem, memoryPools[i], c), c), rank.Keys)
      modifies this
      ensures Freed(c, i) && memoryPools == old(memoryPools) && LiveBlocks(mem) == old(LiveBlocks(mem))
      ensures PhysOk(mem, memoryPools) && FreeOk(mem, rank.Keys + {c})
      ensures old(NextPhy(mem, c)) <= NextPhy(mem, c) && OnlyLost(old(mem), old(rank), mem, rank)
    {
      hide QueryBitmapLevelForInsert, PhysOk, FreeOk, LiveBlocks, Held, PoolsOk, ListsOk, BitmapsOk;
      ListedInMemory(mem, allocationLinkTable, rank);
      var pool, next := memoryPools[i], NextPhy(mem, c);
      if pool.CheckNextContains(next) {
        BackInMemory(mem, memoryPools, i, c);
        FreeIsListed(WithBack(mem, pool, c), c, next, rank.Keys);
        if mem[next].free {
          AbsorbNext(c, i);
        } else {
          ghost var m := mem;
          mem := mem[next := mem[next].(prevPhyAlloc := c)];
          assert LiveBlocks(mem) == LiveBlocks(m) by { SameLiveBlocks(m, mem); }
          OtherBlocks(m, mem, allocationLinkTable, rank);
          NoNext(mem, memoryPools, i, c, rank.Keys);
        }
      } else {
        NoNext(mem, memoryPools, i, c, rank.Keys);
      }
    }

    /** The branch in which the block behind c is free. */
    method AbsorbNext(c: Ptr, i: nat)
      requires Freed(c, i) && mem[c].prevPhyAlloc !in rank.Keys
      requires PhysOk(WithBack(mem, memoryPools[i], c), memoryPools)
      requires FreeOk(Held(WithBack(mem, memoryPools[i], c), c), rank.Keys)
      requires var next := NextPhy(mem, c);
        next < memoryPools[i].EndPtr() && next in mem && next in rank && mem[next].free && next != c
      modifies this
      ensures Freed(c, i) && memoryPools == old(memoryPools) && LiveBlocks(mem) == old(LiveBlocks(mem))
      ensures PhysOk(mem, memoryPools) && FreeOk(mem, rank.Keys + {c})
      ensures old(NextPhy(mem, c)) <= NextPhy(mem, c) && OnlyLost(old(mem), old(rank), mem, rank)
    {
      hide QueryBitmapLevelForInsert, PhysOk, FreeOk, LiveBlocks, WithBack, Held, PoolsOk, ListsOk, BitmapsOk;
      var pool, next := memoryPools[i], NextPhy(mem, c);
      ghost var listed, m := rank.Keys - {next}, mem;
      assert rank.Keys == listed + {next};
      Remove(next);
      assert rank.Keys == listed;
      SameAround(m, mem, memoryPools, i, c, listed + {next});
      MergeNext(mem, memoryPools, i, c, listed);
      ghost var removed := mem;
      var size: Size31 := (mem[c].size + (mem[next].size + TRUE_SIZE)) % 0x8000_0000;
      var nextNext := NextPhy(mem, next);
      mem := (mem - {next})[c := mem[c].(size := size)];
      if pool.CheckNextContains(nextNext) {
        mem := mem[nextNext := mem[nextNext].(prevPhyAlloc := c)];
      }
      assert mem == Absorb(removed, pool, c);
      OtherBlocks(removed, mem, allocationLinkTable, rank);
      RemovedLost(m, old(allocationLinkTable), old(rank), removed, mem, rank, next);
    }

    /** `insertFreeAllocation` with its merge check, as `free` calls it. */
    method InsertFreeAllocation(a: Ptr, i: nat) returns (ghost merge: Ptr)
      requires Freed(a, i) && PhysOk(mem, memoryPools) && FreeOk(Held(mem, a), rank.Keys)
      modifies this
      ensures Valid() && memoryPools == old(memoryPools) && LiveBlocks(mem) == old(LiveBlocks(mem))
      ensures merge in mem && merge in rank && merge <= a && old(NextPhy(mem, a)) <= NextPhy(mem, merge)
      ensures ListsAfter(old(mem), old(rank), mem, allocationLinkTable, rank, merge)
    {
      hide QueryBitmapLevelForInsert, LiveBlocks, WithBack, Held, ListsOk, BitmapsOk, PhysOk, PoolsOk, OnlyLost, ListsAfter;
      var c := MergeWithPrev(a, i);
      ghost var first, ranked := mem, rank;
      MergeWithNext(c, i);
      LostTwice(old(mem), old(rank), first, ranked, mem, rank);
      BlockSize(mem, memoryPools, c);
      merge := c;
      ghost var merged, listed, rankMerged := mem, rank.Keys + {c}, rank;
      PushFree(c);
      ListedInMemory(mem, allocationLinkTable, rank);
      LostThenPushed(old(mem), old(rank), merged, rankMerged, mem, allocationLinkTable, rank, c);
      SamePhysOk(merged, mem, memoryPools);
      assert FreeOk(mem, rank.Keys) by {
        assert rank.Keys == listed;
        SameFreeAll(merged, mem, listed);
      }
    }

    /** `initialize`: adds a pool, which starts as one free block. */
    method Initialize(pool: TLSFPool)
      requires Valid() && Separate(memoryPools, pool)
      modifies this
      ensures Valid() && memoryPools == old(memoryPools) + [pool] && Live() == old(Live())
      ensures SameLayout(WithPool(old(mem), pool), mem)
      ensures rank.Keys == old(rank).Keys + {pool.ptr} && ListsAfter(old(mem), old(rank), mem, allocationLinkTable, rank, pool.ptr)
    {
      hide QueryBitmapLevelForInsert, ListsOk, BitmapsOk, ListsAfter;
      ListedInMemory(mem, allocationLinkTable, rank);
      AddPool(mem, memoryPools, pool, rank.Keys);
      ghost var m, pools := mem, memoryPools;
      mem := mem[pool.ptr := AllocHeader(0, (pool.capacity - TRUE_SIZE) % 0x8000_0000, true, UserData([]))];
      assert mem == WithPool(m, pool);
      OtherBlocks(m, mem, allocationLinkTable, rank);
      ghost var added, listed := mem, rank.Keys + {pool.ptr};
      PushFree(pool.ptr);
      ListedInMemory(mem, allocationLinkTable, rank);
      PushedAfter(m, old(rank), added, mem, allocationLinkTable, rank, pool.ptr);
      memoryPools := memoryPools + [pool];
      SamePhysOk(added, mem, memoryPools);
      assert rank.Keys == listed;
      SameFreeAll(added, mem, listed);
    }

    /** The level a request is looked up at, and whether the search for a larger block succeeds. */
    ghost predicate Served(size: nat)
      reads this
      requires ListsValid() && 1 <= size <= 0x80_0000_0000
    {
      AllocLevelInTable(size);
      var level := QueryBitmapLevelForAlloc(size);
      NonEmpty(level) || exists other :: Scanned(secondLevelBitmap, level.Succ(), other) && NonEmpty(other)
    }

    /** The non-empty level the search for a larger block ends at. */
    ghost predicate Least(start: BitmapLevel, best: BitmapLevel)
      reads this
      requires ListsValid()
    {
      && Scanned(secondLevelBitmap, start, best) && NonEmpty(best)
      && forall other :: Scanned(secondLevelBitmap, start, other) && NonEmpty(other) ==> best.Rank() <= other.Rank()
    }

    /**
      The block a request is answered with: the head of the list of its own level if there is one; only
      otherwise the head of the least larger level the search looks at; 0 if there is none either.
     */
    ghost predicate Chosen(size: nat, a: Ptr)
      reads this
      requires ListsValid() && 1 <= size <= 0x80_0000_0000
    {
      AllocLevelInTable(size);
      var level := QueryBitmapLevelForAlloc(size);
      if NonEmpty(level) then a == HeadOf(allocationLinkTable, level)
      else if a == 0 then forall other :: Scanned(secondLevelBitmap, level.Succ(), other) ==> !NonEmpty(other)
      else exists best :: Least(level.Succ(), best) && a == HeadOf(allocationLinkTable, best)
    }

    /** What is left of the size of that block: a block of the request's own level is not split. */
    ghost function TakenSize(size: nat, blockSize: nat): nat
      reads this
      requires ListsValid() && 1 <= size <= 0x80_0000_0000
    {
      AllocLevelInTable(size);
      var level := QueryBitmapLevelForAlloc(size);
      if NonEmpty(level) then blockSize else Remaining(blockSize, QueryLevelSize(level))
    }

    /** `queryFreeAllocation`: the block to hand out, or null. */
    method QueryFreeAllocation(size: nat) returns (a: Ptr)
      requires Valid() && 1 <= size <= 0x80_0000_0000
      modifies this
      ensures memoryPools == old(memoryPools) && LiveBlocks(mem) == old(LiveBlocks(mem))
      ensures a != 0 <==> old(Served(size))
      ensures old(Chosen(size, a))
      ensures a == 0 ==> unchanged(this)
      ensures a != 0 ==>
        && a in mem && mem[a].free && a !in rank && old(a in rank) && old(a in mem) && size <= mem[a].size
        && PoolsOk(memoryPools) && PhysOk(mem, memoryPools) && ListsValid() && FreeOk(Held(mem, a), rank.Keys)
        && mem[a].size == old(TakenSize(size, mem[a].size))
        && TakenOut(old(mem), old(rank), mem, allocationLinkTable, rank, a, a + TRUE_SIZE + mem[a].size)
        && var level := QueryBitmapLevelForAlloc(size);
           (mem[a].size < QueryLevelSize(level) + 32 || mem[a].size < QueryLevelSize(level.Succ().Succ()))
    {
      hide QueryBitmapLevelForAlloc, QueryBitmapLevelForInsert, QueryLevelSize, Bit, And, Pow2, TakenOut, Remaining;
      hide PhysOk, PoolsOk, FreeOk, Held, LiveBlocks;
      AllocLevelInTable(size);
      AllocLevelSize(size);
      ListedInMemory(mem, allocationLinkTable, rank);
      var level := QueryBitmapLevelForAlloc(size);
      var exact := QueryFreeStatus(level);
      if exact {
        a := QueryAllocationWithFreeLevel(level);
        SamePhysOk(old(mem), mem, memoryPools);
        BlockSize(mem, memoryPools, a);
        InsertLevelBounds(mem[a].size);
        assert rank.Keys + {a} == old(rank).Keys;
        SameFreeAll(old(mem), mem, rank.Keys + {a});
        PoppedFree(mem, a, rank.Keys);
        TakenWhole(old(mem), old(allocationLinkTable), old(rank), mem, allocationLinkTable, rank, a, NextPhy(mem, a));
      } else {
        LevelSizeStep(level);
        var levelSize := QueryLevelSize(level);
        var splitLevel := FindLevelForSplit(level.Succ());
        if splitLevel == INVALID_LEVEL {
          return 0;
        }
        assert Least(level.Succ(), splitLevel);
        LevelSizeIncreasing(level, splitLevel);
        a := SplitAllocation(splitLevel, levelSize);
        BlockSize(mem, memoryPools, a);
      }
    }

    /**
      `alloc`: null, or the client address of a block that is as large as requested and not live yet. Which
      block that is, what it keeps of its size, and what becomes of the free lists is fixed.
     */
    method Alloc(size: nat) returns (p: Ptr)
      requires Valid() && 1 <= size <= 0x80_0000_0000
      modifies this
      ensures Valid() && memoryPools == old(memoryPools)
      ensures p != 0 <==> old(Served(size))
      ensures p == 0 ==> unchanged(this)
      ensures p != 0 ==>
        && p >= TRUE_SIZE && p - TRUE_SIZE in Live() && p - TRUE_SIZE !in old(Live())
        && Live() == old(Live())[p - TRUE_SIZE := Live()[p - TRUE_SIZE]]
        && size <= Live()[p - TRUE_SIZE].size
        && var level := QueryBitmapLevelForAlloc(size);
           (Live()[p - TRUE_SIZE].size < QueryLevelSize(level) + 32
            || Live()[p - TRUE_SIZE].size < QueryLevelSize(level.Succ().Succ()))
      ensures p != 0 ==> p >= TRUE_SIZE && var a: Ptr := p - TRUE_SIZE;
        && old(Chosen(size, a)) && a in mem && old(a in mem)
        && mem[a].size == old(TakenSize(size, mem[a].size))
        && TakenOut(old(mem), old(rank), mem, allocationLinkTable, rank, a, NextPhy(mem, a))
    {
      hide QueryBitmapLevelForAlloc, QueryBitmapLevelForInsert, QueryLevelSize, ListsOk, BitmapsOk, Scanned, TakenOut, TakenSize, Chosen;
      var a := QueryFreeAllocation(size);
      if a == 0 {
        return 0;
      }
      ghost var m := mem;
      ListedInMemory(m, allocationLinkTable, rank);
      mem := mem[a := mem[a].(free := false)];
      SamePhysOk(m, mem, memoryPools);
      OtherBlocks(m, mem, allocationLinkTable, rank);
      MarkedAfter(old(mem), old(rank), m, mem, allocationLinkTable, rank, a);
      p := a + TRUE_SIZE;
    }

    /**
      `free`: the block is no longer live; every other live block stays where and as it is. The free block it
      has become part of is the head of its list, and the other lists only lost what was merged into it.
     */
    method Free(p: Ptr)
      requires Valid() && p >= TRUE_SIZE && p - TRUE_SIZE in Live()
      modifies this
      ensures Valid() && memoryPools == old(memoryPools)
      ensures Live() == old(Live()) - {p - TRUE_SIZE}
      ensures LinksShape(allocationLinkTable)
      ensures exists c :: (c in rank && c in mem && c <= p - TRUE_SIZE && old(p + mem[p - TRUE_SIZE].size) <= NextPhy(mem, c)
                           && ListsAfter(old(mem), old(rank), mem, allocationLinkTable, rank, c))
    {
      hide QueryBitmapLevelForInsert, ListsOk, BitmapsOk, ListsAfter;
      ListedInMemory(mem, allocationLinkTable, rank);
      var a := p - TRUE_SIZE;
      ghost var m := mem;
      mem := mem[a := mem[a].(free := true)];
      assert Held(mem, a) == m;
      SamePhysOk(m, mem, memoryPools);
      OtherBlocks(m, mem, allocationLinkTable, rank);
      assert InSomePool(memoryPools, a);
      var i := LocatePool(a);
      ghost var marked := mem;
      ghost var c := InsertFreeAllocation(a, i);
      ListedInMemory(mem, allocationLinkTable, rank);
      SameSizesAfter(m, marked, old(rank), mem, allocationLinkTable, rank, c);
    }

    /** A client writes into a block it holds. The allocator reads nothing from there. */
    method ClientWrite(p: Ptr, bytes: seq<nat>)
      requires Valid() && p >= TRUE_SIZE && p - TRUE_SIZE in Live()
      modifies this`mem
      ensures Valid()
      ensures Live() == old(Live())[p - TRUE_SIZE := LiveBlock(old(Live())[p - TRUE_SIZE].size, UserData(bytes))]
    {
      hide QueryBitmapLevelForInsert, ListsOk, BitmapsOk;
      ghost var m := mem;
      var a := p - TRUE_SIZE;
      mem := mem[a := mem[a].(payload := UserData(bytes))];
      SamePhysOk(m, mem, memoryPools);
      OtherBlocks(m, mem, allocationLinkTable, rank);
      SameFreeAll(m, mem, rank.Keys);
    }
  }
}
