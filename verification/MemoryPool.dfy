/** The best-fit pool of util/MemoryPool.h: free blocks in a multimap ordered by size, no coalescing. */
module MemoryPool {
  import opened Wrappers

  /** An entry of `_free_list`. */
  datatype FreeBlock = FreeBlock(size: nat, ptr: nat)

  /** A stretch of the pool's memory; only the proof keeps these. */
  datatype Block = Block(ptr: nat, size: nat, used: bool)

  // ---------------------------------------------------------------- the ordered multimap

  ghost predicate Sorted(list: seq<FreeBlock>) {
    forall i, j | 0 <= i < j < |list| :: list[i].size <= list[j].size
  }

  /** `multimap::insert`: behind all entries with the same or a smaller key. */
  function Insert(list: seq<FreeBlock>, e: FreeBlock): seq<FreeBlock> {
    if list == [] || e.size < list[0].size then [e] + list
    else [list[0]] + Insert(list[1..], e)
  }

  lemma {:induction false} InsertKeepsOrder(list: seq<FreeBlock>, e: FreeBlock)
    requires Sorted(list)
    ensures Sorted(Insert(list, e))
    ensures forall f :: f in Insert(list, e) <==> f == e || f in list
  {
    if list != [] && !(e.size < list[0].size) {
      InsertKeepsOrder(list[1..], e);
      var rest := Insert(list[1..], e);
      assert forall i | 0 <= i < |rest| :: rest[i] in rest;
    }
  }

  /** Entry e has come in at position k: behind everything of its size or smaller, in front of everything larger. */
  ghost predicate InsertedAt(list: seq<FreeBlock>, e: FreeBlock, list': seq<FreeBlock>, k: nat) {
    && k <= |list| && list' == list[..k] + [e] + list[k..]
    && (forall j | 0 <= j < k :: list[j].size <= e.size)
    && (forall j | k <= j < |list| :: e.size < list[j].size)
  }

  ghost predicate InsertedBehind(list: seq<FreeBlock>, e: FreeBlock, list': seq<FreeBlock>) {
    exists k: nat :: InsertedAt(list, e, list', k)
  }

  /** Entries of one size stay in the order in which they came in, and only their number fixes the place of a new one. */
  lemma {:induction false} InsertPlace(list: seq<FreeBlock>, e: FreeBlock) returns (k: nat)
    requires Sorted(list)
    ensures InsertedAt(list, e, Insert(list, e), k)
  {
    hide InsertedAt;
    if list == [] || e.size < list[0].size {
      k := 0;
      InFront(list, e);
    } else {
      var rest := list[1..];
      k := InsertPlace(rest, e);
      OneFurther(list[0], rest, e, Insert(rest, e), k);
      assert [list[0]] + rest == list;
      k := k + 1;
    }
  }

  lemma InFront(list: seq<FreeBlock>, e: FreeBlock)
    requires Sorted(list) && (list == [] || e.size < list[0].size)
    ensures InsertedAt(list, e, [e] + list, 0)
  {
  }

  lemma OneFurther(first: FreeBlock, rest: seq<FreeBlock>, e: FreeBlock, rest': seq<FreeBlock>, k: nat)
    requires InsertedAt(rest, e, rest', k) && first.size <= e.size
    ensures InsertedAt([first] + rest, e, [first] + rest', k + 1)
  {
    var list := [first] + rest;
    assert list[..k + 1] == [first] + rest[..k] && list[k + 1..] == rest[k..];
    forall j | 0 <= j < |list|
      ensures j < k + 1 ==> list[j].size <= e.size
      ensures k + 1 <= j ==> e.size < list[j].size
    {
      if j > 0 {
        assert list[j] == rest[j - 1];
      }
    }
  }

  /** The entries of a list that stand for memory, with multiplicity. */
  ghost function Solid(list: seq<FreeBlock>): multiset<FreeBlock> {
    if list == [] then multiset{}
    else (if list[0].size > 0 then multiset{list[0]} else multiset{}) + Solid(list[1..])
  }

  lemma {:induction false} SolidInsert(list: seq<FreeBlock>, e: FreeBlock)
    ensures Solid(Insert(list, e)) == Solid(list) + (if e.size > 0 then multiset{e} else multiset{})
  {
    var r := Insert(list, e);
    if list == [] || e.size < list[0].size {
      assert r[1..] == list;
    } else {
      SolidInsert(list[1..], e);
      assert r[1..] == Insert(list[1..], e);
    }
  }

  lemma {:induction false} SolidRemove(list: seq<FreeBlock>, i: nat)
    requires i < |list| && list[i].size > 0
    ensures Solid(list) == Solid(list[..i] + list[i + 1..]) + multiset{list[i]}
  {
    var r := list[..i] + list[i + 1..];
    if i == 0 {
      assert r == list[1..];
    } else {
      SolidRemove(list[1..], i - 1);
      assert r[1..] == list[1..][..i - 1] + list[1..][i..];
    }
  }

  // ---------------------------------------------------------------- the memory

  /** Non-empty blocks, one behind the other, from `base` to `base + capacity`. */
  ghost predicate Tiles(layout: seq<Block>, base: nat, capacity: nat) {
    && (forall k | 0 <= k < |layout| :: layout[k].size > 0)
    && (forall k | 0 <= k < |layout| - 1 :: layout[k + 1].ptr == layout[k].ptr + layout[k].size)
    && (if layout == [] then capacity == 0
        else layout[0].ptr == base && layout[|layout| - 1].ptr + layout[|layout| - 1].size == base + capacity)
  }

  ghost function FreeOf(layout: seq<Block>): multiset<FreeBlock> {
    if layout == [] then multiset{}
    else (if layout[0].used then multiset{} else multiset{FreeBlock(layout[0].size, layout[0].ptr)}) + FreeOf(layout[1..])
  }

  ghost function TotalSize(layout: seq<Block>): nat {
    if layout == [] then 0 else layout[0].size + TotalSize(layout[1..])
  }

  lemma {:induction false} FreeOfConcat(a: seq<Block>, b: seq<Block>)
    ensures FreeOf(a + b) == FreeOf(a) + FreeOf(b)
  {
    if a == [] {
      assert a + b == b;
    } else {
      assert (a + b)[1..] == a[1..] + b;
      FreeOfConcat(a[1..], b);
    }
  }

  lemma {:induction false} FindFree(layout: seq<Block>, e: FreeBlock) returns (k: nat)
    requires e in FreeOf(layout)
    ensures k < |layout| && layout[k] == Block(e.ptr, e.size, false)
  {
    if layout[0] == Block(e.ptr, e.size, false) {
      k := 0;
    } else {
      k := FindFree(layout[1..], e);
      k := k + 1;
    }
  }

  lemma {:induction false} FreeIsListed(layout: seq<Block>, k: nat)
    requires k < |layout| && !layout[k].used
    ensures FreeBlock(layout[k].size, layout[k].ptr) in FreeOf(layout)
  {
    if k > 0 {
      FreeIsListed(layout[1..], k - 1);
    }
  }

  lemma {:induction false} SolidMember(list: seq<FreeBlock>, e: FreeBlock)
    ensures e in Solid(list) <==> e.size > 0 && e in list
  {
    if list != [] {
      SolidMember(list[1..], e);
      assert list == [list[0]] + list[1..];
    }
  }

  /** Later blocks lie behind earlier ones: no two overlap. */
  lemma {:induction false} BlocksApart(layout: seq<Block>, base: nat, capacity: nat, j: nat, k: nat)
    requires Tiles(layout, base, capacity) && j < k < |layout|
    ensures layout[j].ptr + layout[j].size <= layout[k].ptr
    decreases k
  {
    if j + 1 < k {
      BlocksApart(layout, base, capacity, j, k - 1);
    }
  }

  /** Tiling conserves the size of the pool. */
  lemma {:induction false} TilesTotal(layout: seq<Block>, base: nat, capacity: nat)
    requires Tiles(layout, base, capacity)
    ensures TotalSize(layout) == capacity
  {
    if layout != [] {
      var b := layout[0];
      if |layout| > 1 {
        BlocksApart(layout, base, capacity, 0, |layout| - 1);
      }
      TilesTotal(layout[1..], b.ptr + b.size, capacity - b.size);
    }
  }

  /** The memory after cutting `size` bytes off the front of free block k. */
  ghost function Cut(layout: seq<Block>, k: nat, size: nat): seq<Block>
    requires k < |layout| && size <= layout[k].size
  {
    var b := layout[k];
    var parts := if size == b.size then [Block(b.ptr, size, true)]
                 else [Block(b.ptr, size, true), Block(b.ptr + size, b.size - size, false)];
    layout[..k] + parts + layout[k + 1..]
  }

  lemma CutTiles(layout: seq<Block>, base: nat, capacity: nat, k: nat, size: nat)
    requires Tiles(layout, base, capacity) && k < |layout| && 0 < size <= layout[k].size
    ensures Tiles(Cut(layout, k, size), base, capacity)
  {
    var layout', b := Cut(layout, k, size), layout[k];
    if size == b.size {
      assert layout' == layout[k := b.(used := true)];
    } else {
      forall j | 0 <= j < |layout'| - 1
        ensures layout'[j + 1].ptr == layout'[j].ptr + layout'[j].size
      {
        if j < k {
          assert layout[j + 1].ptr == layout[j].ptr + layout[j].size;
        } else if j > k {
          assert layout[j - 1 + 1].ptr == layout[j - 1].ptr + layout[j - 1].size;
        }
      }
    }
  }

  /** The free blocks of a layout in which block k stands between two stretches. */
  lemma FreeOfMiddle(before: seq<Block>, parts: seq<Block>, after: seq<Block>)
    ensures FreeOf(before + parts + after) == FreeOf(before) + FreeOf(parts) + FreeOf(after)
  {
    FreeOfConcat(before + parts, after);
    FreeOfConcat(before, parts);
  }

  lemma FreeOfFew(b: Block, c: Block)
    ensures FreeOf([b]) == if b.used then multiset{} else multiset{FreeBlock(b.size, b.ptr)}
    ensures FreeOf([b, c]) == FreeOf([b]) + FreeOf([c])
  {
    assert [b, c][1..] == [c];
    assert [b][1..] == [] && [c][1..] == [];
  }

  lemma CutFree(layout: seq<Block>, k: nat, size: nat)
    requires k < |layout| && 0 < size <= layout[k].size && !layout[k].used
    ensures var b := layout[k];
      FreeOf(layout) + (if size < b.size then multiset{FreeBlock(b.size - size, b.ptr + size)} else multiset{})
      == FreeOf(Cut(layout, k, size)) + multiset{FreeBlock(b.size, b.ptr)}
  {
    hide FreeOf;
    var b := layout[k];
    var front, rest := Block(b.ptr, size, true), Block(b.ptr + size, b.size - size, false);
    assert layout == layout[..k] + [b] + layout[k + 1..];
    FreeOfMiddle(layout[..k], [b], layout[k + 1..]);
    FreeOfMiddle(layout[..k], [front], layout[k + 1..]);
    FreeOfMiddle(layout[..k], [front, rest], layout[k + 1..]);
    FreeOfFew(b, b);
    FreeOfFew(front, rest);
    FreeOfFew(rest, rest);
  }

  lemma ReleaseTiles(layout: seq<Block>, base: nat, capacity: nat, k: nat)
    requires Tiles(layout, base, capacity) && k < |layout| && layout[k].used
    ensures var b := layout[k]; var layout' := layout[k := b.(used := false)];
      Tiles(layout', base, capacity) && FreeOf(layout') == FreeOf(layout) + multiset{FreeBlock(b.size, b.ptr)}
  {
    hide FreeOf;
    var b := layout[k];
    var c := b.(used := false);
    assert layout == layout[..k] + [b] + layout[k + 1..];
    assert layout[k := c] == layout[..k] + [c] + layout[k + 1..];
    FreeOfMiddle(layout[..k], [b], layout[k + 1..]);
    FreeOfMiddle(layout[..k], [c], layout[k + 1..]);
    FreeOfFew(b, c);
    FreeOfFew(c, c);
  }

  // ---------------------------------------------------------------- the pool

  /** Used entries of size 0 stand for nothing; the others are exactly the used blocks. */
  ghost predicate UsedOk(usedList: map<nat, nat>, layout: seq<Block>) {
    && (forall b | b in layout && b.used :: b.ptr in usedList && usedList[b.ptr] == b.size)
    && (forall p | p in usedList && usedList[p] > 0 :: Block(p, usedList[p], true) in layout)
  }

  ghost predicate Consistent(freeList: seq<FreeBlock>, usedList: map<nat, nat>, layout: seq<Block>, base: nat, capacity: nat) {
    && Sorted(freeList)
    && Tiles(layout, base, capacity)
    && Solid(freeList) == FreeOf(layout)
    && UsedOk(usedList, layout)
  }

  ghost function Boundaries(layout: seq<Block>): set<nat> {
    set b | b in layout :: b.ptr
  }

  lemma Cancel(a: multiset<FreeBlock>, b: multiset<FreeBlock>, c: multiset<FreeBlock>)
    requires a + c == b + c
    ensures a == b
  {
    assert a == (a + c) - c && b == (b + c) - c;
  }

  /** Taking memory for a request keeps the pool consistent. */
  lemma AllocKeeps(freeList: seq<FreeBlock>, usedList: map<nat, nat>, layout: seq<Block>, base: nat, capacity: nat,
                   i: nat, size: nat)
    returns (k: nat)
    requires Consistent(freeList, usedList, layout, base, capacity)
    requires i < |freeList| && 0 < size <= freeList[i].size
    ensures k < |layout| && layout[k] == Block(freeList[i].ptr, freeList[i].size, false)
    ensures var e := freeList[i]; var rest := FreeBlock(e.size - size, e.ptr + size);
      Consistent(Insert(freeList[..i] + freeList[i + 1..], rest), usedList[e.ptr := size], Cut(layout, k, size), base, capacity)
    ensures Boundaries(layout) <= Boundaries(Cut(layout, k, size))
  {
    hide Solid, FreeOf, Tiles, UsedOk, Insert, Cut, Boundaries;
    var e := freeList[i];
    var removed, rest := freeList[..i] + freeList[i + 1..], FreeBlock(e.size - size, e.ptr + size);
    SolidMember(freeList, e);
    k := FindFree(layout, e);
    SolidRemove(freeList, i);
    SolidInsert(removed, rest);
    InsertKeepsOrder(removed, rest);
    CutTiles(layout, base, capacity, k, size);
    CutFree(layout, k, size);
    Cancel(Solid(Insert(removed, rest)), FreeOf(Cut(layout, k, size)), multiset{e});
    CutUsed(usedList, layout, base, capacity, k, size);
  }

  lemma CutUsed(usedList: map<nat, nat>, layout: seq<Block>, base: nat, capacity: nat, k: nat, size: nat)
    requires Tiles(layout, base, capacity) && UsedOk(usedList, layout)
    requires k < |layout| && !layout[k].used && 0 < size <= layout[k].size
    ensures UsedOk(usedList[layout[k].ptr := size], Cut(layout, k, size))
    ensures Boundaries(layout) <= Boundaries(Cut(layout, k, size))
  {
    hide Cut;
    var b := layout[k];
    var layout', used' := Cut(layout, k, size), usedList[b.ptr := size];
    CutMembers(layout, k, size);
    forall c | c in layout && c != b
      ensures c.ptr != b.ptr
    {
      OtherPlace(layout, base, capacity, k, c);
    }
  }

  lemma OtherPlace(layout: seq<Block>, base: nat, capacity: nat, k: nat, c: Block)
    requires Tiles(layout, base, capacity) && k < |layout| && c in layout && c != layout[k]
    ensures c.ptr != layout[k].ptr
  {
    var j :| 0 <= j < |layout| && layout[j] == c;
    if j < k {
      BlocksApart(layout, base, capacity, j, k);
    } else {
      BlocksApart(layout, base, capacity, k, j);
    }
  }

  /** A cut leaves the other blocks alone; what it adds in use is the front of the block it cuts. */
  lemma CutMembers(layout: seq<Block>, k: nat, size: nat)
    requires k < |layout| && !layout[k].used && size <= layout[k].size
    ensures var layout', front := Cut(layout, k, size), Block(layout[k].ptr, size, true);
      && front in layout'
      && (forall c | c in layout && c != layout[k] :: c in layout')
      && (forall c | c in layout' && c.used && c != front :: c in layout && c != layout[k])
  {
    var layout' := Cut(layout, k, size);
    assert layout'[k] == Block(layout[k].ptr, size, true);
    forall c | c in layout && c != layout[k]
      ensures c in layout'
    {
      var j :| 0 <= j < |layout| && layout[j] == c;
      assert layout'[if j < k then j else j + |layout'| - |layout|] == c;
    }
  }

  /** Giving memory back keeps the pool consistent. */
  lemma FreeKeeps(freeList: seq<FreeBlock>, usedList: map<nat, nat>, layout: seq<Block>, base: nat, capacity: nat, p: nat)
    returns (k: nat)
    requires Consistent(freeList, usedList, layout, base, capacity)
    requires p in usedList && usedList[p] > 0
    ensures k < |layout| && layout[k] == Block(p, usedList[p], true)
    ensures Consistent(Insert(freeList, FreeBlock(usedList[p], p)), usedList - {p}, layout[k := layout[k].(used := false)], base, capacity)
    ensures Boundaries(layout[k := layout[k].(used := false)]) == Boundaries(layout)
  {
    k :| 0 <= k < |layout| && layout[k] == Block(p, usedList[p], true);
    var e := FreeBlock(usedList[p], p);
    SolidInsert(freeList, e);
    InsertKeepsOrder(freeList, e);
    ReleaseTiles(layout, base, capacity, k);
    ReleaseUsed(usedList, layout, base, capacity, k);
  }

  lemma ReleaseUsed(usedList: map<nat, nat>, layout: seq<Block>, base: nat, capacity: nat, k: nat)
    requires Tiles(layout, base, capacity) && UsedOk(usedList, layout) && k < |layout| && layout[k].used
    ensures var layout' := layout[k := layout[k].(used := false)];
      UsedOk(usedList - {layout[k].ptr}, layout') && Boundaries(layout') == Boundaries(layout)
  {
    var b := layout[k];
    var layout' := layout[k := b.(used := false)];
    forall c | c in layout && c != b
      ensures c in layout' && c.ptr != b.ptr
    {
      var j :| 0 <= j < |layout| && layout[j] == c;
      assert layout'[j] == c;
      if j < k {
        BlocksApart(layout, base, capacity, j, k);
      } else {
        BlocksApart(layout, base, capacity, k, j);
      }
    }
    forall c | c in layout' && c != layout'[k]
      ensures c in layout && c != b
    {
      var j :| 0 <= j < |layout'| && layout'[j] == c;
      assert layout[j] == c;
      if j < k {
        BlocksApart(layout, base, capacity, j, k);
      } else {
        BlocksApart(layout, base, capacity, k, j);
      }
    }
    assert layout'[k] in layout' && layout[k] in layout;
    assert Boundaries(layout') == Boundaries(layout);
  }

  /** The address of a block of which the pool still knows that it is in use. */
  predicate InUse(usedList: map<nat, nat>, p: nat) {
    p in usedList && usedList[p] > 0
  }

  /** Entry e is a smallest one of the list that is large enough; in the new list only its rest stands for it. */
  ghost predicate TakesFrom(list: seq<FreeBlock>, list': seq<FreeBlock>, e: FreeBlock, size: nat) {
    && e in list && size <= e.size
    && (forall f | f in list && size <= f.size :: e.size <= f.size)
    && multiset(list') == multiset(list) - multiset{e} + multiset{FreeBlock(e.size - size, e.ptr + size)}
  }

  /** Of the entries that fit it is the first one in the list that is taken, and its rest goes in behind its equals. */
  ghost predicate TakesFirst(list: seq<FreeBlock>, list': seq<FreeBlock>, i: nat, size: nat) {
    && i < |list| && size <= list[i].size && (forall j | 0 <= j < i :: list[j].size < size)
    && InsertedBehind(list[..i] + list[i + 1..], FreeBlock(list[i].size - size, list[i].ptr + size), list')
  }

  lemma TakesTheFirst(list: seq<FreeBlock>, i: nat, size: nat)
    requires Sorted(list) && i < |list| && size <= list[i].size
    requires forall j | 0 <= j < i :: list[j].size < size
    ensures TakesFirst(list, Insert(list[..i] + list[i + 1..], FreeBlock(list[i].size - size, list[i].ptr + size)), i, size)
  {
    hide InsertedAt, Insert;
    var k := InsertPlace(list[..i] + list[i + 1..], FreeBlock(list[i].size - size, list[i].ptr + size));
  }

  lemma TakesBestFit(list: seq<FreeBlock>, i: nat, size: nat)
    requires Sorted(list) && i < |list| && size <= list[i].size
    requires forall j | 0 <= j < i :: list[j].size < size
    ensures var e := list[i];
      TakesFrom(list, Insert(list[..i] + list[i + 1..], FreeBlock(e.size - size, e.ptr + size)), e, size)
  {
    hide Insert, Sorted;
    FirstFits(list, i, size);
    Replaced(list, i, FreeBlock(list[i].size - size, list[i].ptr + size));
  }

  /** In a sorted list the first entry that fits is a smallest one that does. */
  lemma FirstFits(list: seq<FreeBlock>, i: nat, size: nat)
    requires Sorted(list) && i < |list|
    requires forall j | 0 <= j < i :: list[j].size < size
    ensures forall f | f in list && size <= f.size :: list[i].size <= f.size
  {
    forall f | f in list && size <= f.size
      ensures list[i].size <= f.size
    {
      var j :| 0 <= j < |list| && list[j] == f;
    }
  }

  lemma Replaced(list: seq<FreeBlock>, i: nat, rest: FreeBlock)
    requires i < |list|
    ensures multiset(Insert(list[..i] + list[i + 1..], rest)) == multiset(list) - multiset{list[i]} + multiset{rest}
  {
    hide Insert;
    InsertMultiset(list[..i] + list[i + 1..], rest);
    assert list == list[..i] + [list[i]] + list[i + 1..];
  }

  class MemoryPool {
    const base: nat
    const capacity: nat
    var freeList: seq<FreeBlock>
    var usedList: map<nat, nat>
    ghost var layout: seq<Block>

    ghost predicate Valid()
      reads this
    {
      Consistent(freeList, usedList, layout, base, capacity)
    }

    constructor (base: nat, capacity: nat)
      ensures Valid() && this.base == base && this.capacity == capacity
      ensures freeList == [FreeBlock(capacity, base)] && usedList == map[]
    {
      this.base, this.capacity := base, capacity;
      freeList := [FreeBlock(capacity, base)];
      usedList := map[];
      layout := if capacity == 0 then [] else [Block(base, capacity, false)];
    }

    /**
      `alloc`: fails exactly if no free block is large enough; otherwise a smallest one that is gives its
      front to the client, and its rest stays free. No block boundary disappears. A request of 0 bytes is
      served from the first entry, and it leaves the pool explainable exactly if no block in use starts at
      the address handed out; a larger request never meets such a block.
     */
    method Alloc(size: nat) returns (r: Option<nat>)
      requires Valid()
      modifies this
      ensures Valid() <==> size >= 1 || r.None? || !InUse(old(usedList), r.value)
      ensures r.None? <==> forall f | f in old(freeList) :: f.size < size
      ensures r.None? ==> freeList == old(freeList) && usedList == old(usedList)
      ensures r.Some? ==> exists e: FreeBlock :: e.ptr == r.value && TakesFrom(old(freeList), freeList, e, size)
      ensures r.Some? ==> exists i: nat :: TakesFirst(old(freeList), freeList, i, size) && r.value == old(freeList)[i].ptr
      ensures r.Some? ==> usedList == old(usedList)[r.value := size]
      ensures r.Some? && size >= 1 ==> !InUse(old(usedList), r.value)
      ensures r.Some? && size == 0 ==>
        r.value == old(freeList)[0].ptr && (Explained(freeList, usedList, base, capacity) <==> !InUse(old(usedList), r.value))
      ensures Boundaries(old(layout)) <= Boundaries(layout)
    {
      hide Consistent, Insert, Cut, Boundaries, TakesFrom, InsertedBehind;
      assert Sorted(freeList) by { SortedList(freeList, usedList, layout, base, capacity); }
      var i := 0;
      while i < |freeList| && !(size <= freeList[i].size)
        invariant 0 <= i <= |freeList|
        invariant forall j | 0 <= j < i :: freeList[j].size < size
      {
        i := i + 1;
      }
      if i == |freeList| {
        return None;
      }
      var e := freeList[i];
      var removed := freeList[..i] + freeList[i + 1..];
      TakesBestFit(freeList, i, size);
      TakesTheFirst(freeList, i, size);
      if size >= 1 {
        ghost var k := AllocKeeps(freeList, usedList, layout, base, capacity, i, size);
        FreshKey(freeList, usedList, layout, base, capacity, k);
        layout := Cut(layout, k, size);
      } else {
        assert removed == freeList[1..];
        ZeroRequest(freeList, usedList, layout, base, capacity);
      }
      freeList := Insert(removed, FreeBlock(e.size - size, e.ptr + size));
      usedList := usedList[e.ptr := size];
      return Some(e.ptr);
    }

    /** `free`: an address that is not in use is only entered with size 0, and nothing is given back. */
    method Free(p: nat)
      requires Valid()
      modifies this
      ensures Valid()
      ensures InUse(old(usedList), p) ==>
        usedList == old(usedList) - {p} && freeList == Insert(old(freeList), FreeBlock(old(usedList)[p], p))
      ensures InUse(old(usedList), p) ==> InsertedBehind(old(freeList), FreeBlock(old(usedList)[p], p), freeList)
      ensures !InUse(old(usedList), p) ==> usedList == old(usedList)[p := 0] && freeList == old(freeList)
      ensures Boundaries(layout) == Boundaries(old(layout))
    {
      if p !in usedList {
        usedList := usedList[p := 0];
      }
      var size := usedList[p];
      if size == 0 {
        assert usedList == old(usedList)[p := 0];
        return;
      }
      ghost var k := FreeKeeps(freeList, usedList, layout, base, capacity, p);
      ghost var at := InsertPlace(freeList, FreeBlock(size, p));
      freeList := Insert(freeList, FreeBlock(size, p));
      usedList := usedList - {p};
      layout := layout[k := layout[k].(used := false)];
    }
  }

  lemma SortedList(freeList: seq<FreeBlock>, usedList: map<nat, nat>, layout: seq<Block>, base: nat, capacity: nat)
    requires Consistent(freeList, usedList, layout, base, capacity)
    ensures Sorted(freeList)
  {
  }

  lemma {:induction false} InsertMultiset(list: seq<FreeBlock>, e: FreeBlock)
    ensures multiset(Insert(list, e)) == multiset(list) + multiset{e}
  {
    if list != [] && !(e.size < list[0].size) {
      InsertMultiset(list[1..], e);
      assert list == [list[0]] + list[1..];
    }
  }

  /** The address handed out is not the address of a block in use. */
  lemma FreshKey(freeList: seq<FreeBlock>, usedList: map<nat, nat>, layout: seq<Block>, base: nat, capacity: nat, k: nat)
    requires Consistent(freeList, usedList, layout, base, capacity) && k < |layout| && !layout[k].used
    ensures !InUse(usedList, layout[k].ptr)
  {
    var p := layout[k].ptr;
    if p in usedList && usedList[p] > 0 {
      var j :| 0 <= j < |layout| && layout[j] == Block(p, usedList[p], true);
      if j < k {
        BlocksApart(layout, base, capacity, j, k);
      } else {
        BlocksApart(layout, base, capacity, k, j);
      }
    }
  }

  // ---------------------------------------------------------------- the lists cover the pool

  function SumFree(list: seq<FreeBlock>): nat {
    if list == [] then 0 else list[0].size + SumFree(list[1..])
  }

  ghost function SumUsed(usedList: map<nat, nat>): nat {
    if usedList == map[] then 0 else var p :| p in usedList; usedList[p] + SumUsed(usedList - {p})
  }

  ghost function SizeOf(layout: seq<Block>, used: bool): nat {
    if layout == [] then 0 else (if layout[0].used == used then layout[0].size else 0) + SizeOf(layout[1..], used)
  }

  lemma {:induction false} SumFreeRemove(list: seq<FreeBlock>, i: nat)
    requires i < |list|
    ensures SumFree(list) == list[i].size + SumFree(list[..i] + list[i + 1..])
  {
    var r := list[..i] + list[i + 1..];
    if i == 0 {
      assert r == list[1..];
    } else {
      SumFreeRemove(list[1..], i - 1);
      assert r[1..] == list[1..][..i - 1] + list[1..][i..];
    }
  }

  /** The order in which a map is summed up does not matter. */
  lemma {:induction false} SumUsedRemove(usedList: map<nat, nat>, p: nat)
    requires p in usedList
    ensures SumUsed(usedList) == usedList[p] + SumUsed(usedList - {p})
    decreases |usedList|
  {
    var q :| q in usedList && SumUsed(usedList) == usedList[q] + SumUsed(usedList - {q});
    if q != p {
      SumUsedRemove(usedList - {q}, p);
      SumUsedRemove(usedList - {p}, q);
      assert usedList - {q} - {p} == usedList - {p} - {q};
    }
  }

  lemma {:induction false} SumUsedZero(usedList: map<nat, nat>)
    requires forall p | p in usedList :: usedList[p] == 0
    ensures SumUsed(usedList) == 0
    decreases |usedList|
  {
    if usedList != map[] {
      var p :| p in usedList;
      SumUsedRemove(usedList, p);
      SumUsedZero(usedList - {p});
    }
  }

  lemma TakeOut(list: seq<FreeBlock>, e: FreeBlock) returns (rest: seq<FreeBlock>)
    requires e in Solid(list)
    ensures Solid(list) == Solid(rest) + multiset{e} && SumFree(list) == e.size + SumFree(rest)
  {
    hide Solid, SumFree;
    SolidMember(list, e);
    var i :| 0 <= i < |list| && list[i] == e;
    SolidRemove(list, i);
    SumFreeRemove(list, i);
    rest := list[..i] + list[i + 1..];
  }

  lemma {:induction false} NothingSolid(list: seq<FreeBlock>)
    requires Solid(list) == multiset{}
    ensures SumFree(list) == 0
  {
    if list != [] {
      NothingSolid(list[1..]);
    }
  }

  lemma {:induction false} SumFreeIs(list: seq<FreeBlock>, layout: seq<Block>)
    requires Solid(list) == FreeOf(layout) && forall k | 0 <= k < |layout| :: layout[k].size > 0
    ensures SumFree(list) == SizeOf(layout, false)
    decreases |layout|
  {
    hide Solid, SumFree;
    if layout == [] {
      NothingSolid(list);
    } else if layout[0].used {
      SumFreeIs(list, layout[1..]);
    } else {
      var e := FreeBlock(layout[0].size, layout[0].ptr);
      var rest := TakeOut(list, e);
      Cancel(Solid(rest), FreeOf(layout[1..]), multiset{e});
      SumFreeIs(rest, layout[1..]);
    }
  }

  ghost predicate Distinct(layout: seq<Block>) {
    forall j, k | 0 <= j < k < |layout| :: layout[j].ptr != layout[k].ptr
  }

  lemma {:induction false} SumUsedIs(usedList: map<nat, nat>, layout: seq<Block>)
    requires UsedOk(usedList, layout) && Distinct(layout)
    ensures SumUsed(usedList) == SizeOf(layout, true)
    decreases |layout|
  {
    if layout == [] {
      SumUsedZero(usedList);
    } else {
      assert layout == [layout[0]] + layout[1..];
      assert forall b | b in layout[1..] :: b.ptr != layout[0].ptr;
      if layout[0].used {
        SumUsedRemove(usedList, layout[0].ptr);
        SumUsedIs(usedList - {layout[0].ptr}, layout[1..]);
      } else {
        SumUsedIs(usedList, layout[1..]);
      }
    }
  }

  lemma {:induction false} SizesAdd(layout: seq<Block>)
    ensures TotalSize(layout) == SizeOf(layout, false) + SizeOf(layout, true)
  {
    if layout != [] {
      SizesAdd(layout[1..]);
    }
  }

  lemma {:induction false} SolidCount(list: seq<FreeBlock>, e: FreeBlock)
    requires e.size > 0
    ensures Solid(list)[e] == multiset(list)[e]
  {
    if list != [] {
      SolidCount(list[1..], e);
      assert list == [list[0]] + list[1..];
    }
  }

  /** A free block of the layout is entered once. */
  lemma FreeOnce(layout: seq<Block>, k: nat)
    requires Distinct(layout) && k < |layout| && !layout[k].used
    ensures FreeOf(layout)[FreeBlock(layout[k].size, layout[k].ptr)] == 1
  {
    hide FreeOf;
    var b, before, after := layout[k], layout[..k], layout[k + 1..];
    var e := FreeBlock(b.size, b.ptr);
    assert layout == before + [b] + after;
    FreeOfMiddle(before, [b], after);
    FreeOfFew(b, b);
    NotFree(before, e);
    NotFree(after, e);
  }

  lemma {:induction false} NotFree(layout: seq<Block>, e: FreeBlock)
    requires forall k | 0 <= k < |layout| :: layout[k].ptr != e.ptr
    ensures e !in FreeOf(layout)
  {
    if layout != [] {
      NotFree(layout[1..], e);
    }
  }

  /** Block k of the layout stands in exactly one of the two lists, and once. */
  ghost predicate ListedOnce(freeList: seq<FreeBlock>, usedList: map<nat, nat>, b: Block) {
    if b.used then InUse(usedList, b.ptr) && usedList[b.ptr] == b.size && forall f | f in freeList && f.size > 0 :: f.ptr != b.ptr
    else !InUse(usedList, b.ptr) && multiset(freeList)[FreeBlock(b.size, b.ptr)] == 1
  }

  lemma BlockListedOnce(freeList: seq<FreeBlock>, usedList: map<nat, nat>, layout: seq<Block>, base: nat, capacity: nat, k: nat)
    requires Consistent(freeList, usedList, layout, base, capacity) && Distinct(layout) && k < |layout|
    ensures ListedOnce(freeList, usedList, layout[k])
  {
    var b := layout[k];
    if b.used {
      assert b in layout;
      forall f | f in freeList && f.size > 0
        ensures f.ptr != b.ptr
      {
        SolidMember(freeList, f);
        var j := FindFree(layout, f);
      }
    } else {
      FreshKey(freeList, usedList, layout, base, capacity, k);
      FreeOnce(layout, k);
      SolidCount(freeList, FreeBlock(b.size, b.ptr));
    }
  }

  /**
    The entries of non-zero size tile the pool: they are the blocks of a layout in which no two overlap, each
    block stands in exactly one of the lists, once, and the sizes in the lists add up to the capacity.
   */
  lemma PoolTiled(pool: MemoryPool)
    requires pool.Valid()
    ensures SumFree(pool.freeList) + SumUsed(pool.usedList) == pool.capacity
    ensures forall p | InUse(pool.usedList, p) :: Block(p, pool.usedList[p], true) in pool.layout
    ensures forall f | f in pool.freeList && f.size > 0 :: Block(f.ptr, f.size, false) in pool.layout
    ensures forall b | b in pool.layout :: b.size > 0 && ListedOnce(pool.freeList, pool.usedList, b)
    ensures forall j, k | 0 <= j < k < |pool.layout| :: pool.layout[j].ptr + pool.layout[j].size <= pool.layout[k].ptr
  {
    hide Solid, FreeOf, ListedOnce;
    var layout := pool.layout;
    forall j, k | 0 <= j < k < |layout|
      ensures layout[j].ptr + layout[j].size <= layout[k].ptr && layout[j].size > 0
    {
      BlocksApart(layout, pool.base, pool.capacity, j, k);
    }
    TilesTotal(layout, pool.base, pool.capacity);
    SizesAdd(layout);
    SumFreeIs(pool.freeList, layout);
    SumUsedIs(pool.usedList, layout);
    forall f | f in pool.freeList && f.size > 0
      ensures Block(f.ptr, f.size, false) in layout
    {
      SolidMember(pool.freeList, f);
      var k := FindFree(layout, f);
    }
    forall b | b in layout
      ensures ListedOnce(pool.freeList, pool.usedList, b)
    {
      var k :| 0 <= k < |layout| && layout[k] == b;
      BlockListedOnce(pool.freeList, pool.usedList, layout, pool.base, pool.capacity, k);
    }
  }

  // ---------------------------------------------------------------- requests of size 0

  /** A tiling covers every address of the pool. */
  lemma {:induction false} Covered(layout: seq<Block>, base: nat, capacity: nat, x: nat) returns (k: nat)
    requires Tiles(layout, base, capacity) && base <= x < base + capacity
    ensures k < |layout| && layout[k].ptr <= x < layout[k].ptr + layout[k].size
  {
    var b := layout[0];
    if x < b.ptr + b.size {
      k := 0;
    } else {
      if |layout| > 1 {
        BlocksApart(layout, base, capacity, 0, |layout| - 1);
      }
      k := Covered(layout[1..], b.ptr + b.size, capacity - b.size, x);
      k := k + 1;
    }
  }

  /** Two blocks of a tiling that share an address are the same block. */
  lemma SameBlock(layout: seq<Block>, base: nat, capacity: nat, b: Block, c: Block, x: nat)
    requires Tiles(layout, base, capacity) && b in layout && c in layout
    requires b.ptr <= x < b.ptr + b.size && c.ptr <= x < c.ptr + c.size
    ensures b == c
  {
    var j :| 0 <= j < |layout| && layout[j] == b;
    var k :| 0 <= k < |layout| && layout[k] == c;
    if j < k {
      BlocksApart(layout, base, capacity, j, k);
    } else if k < j {
      BlocksApart(layout, base, capacity, k, j);
    }
  }

  /**
    A request of 0 bytes always takes the first entry e and records its address with size 0. The pool can
    be explained by a tiling afterwards exactly if no block in use starts at that address; otherwise the
    record of that block is overwritten and its memory is lost.
   */
  lemma ZeroRequest(freeList: seq<FreeBlock>, usedList: map<nat, nat>, layout: seq<Block>, base: nat, capacity: nat)
    requires Consistent(freeList, usedList, layout, base, capacity) && freeList != []
    ensures var e := freeList[0];
      Consistent(Insert(freeList[1..], e), usedList[e.ptr := 0], layout, base, capacity) <==> !InUse(usedList, e.ptr)
    ensures var e := freeList[0];
      Explained(Insert(freeList[1..], e), usedList[e.ptr := 0], base, capacity) <==> !InUse(usedList, e.ptr)
  {
    hide Insert, Solid, FreeOf, Tiles;
    var e := freeList[0];
    var free', used' := Insert(freeList[1..], e), usedList[e.ptr := 0];
    RequeueFirst(freeList);
    if Explained(free', used', base, capacity) {
      var layout' :| Consistent(free', used', layout', base, capacity);
      NothingLost(freeList, usedList, layout, free', used', layout', base, capacity, e.ptr);
    } else {
      assert !Consistent(free', used', layout, base, capacity);
    }
  }

  ghost predicate Explained(freeList: seq<FreeBlock>, usedList: map<nat, nat>, base: nat, capacity: nat) {
    exists layout :: Consistent(freeList, usedList, layout, base, capacity)
  }

  lemma RequeueFirst(list: seq<FreeBlock>)
    requires Sorted(list) && list != []
    ensures Sorted(Insert(list[1..], list[0])) && Solid(Insert(list[1..], list[0])) == Solid(list)
  {
    SolidInsert(list[1..], list[0]);
    InsertKeepsOrder(list[1..], list[0]);
  }

  /** If the pool can still be explained, no block in use started at the address whose record was overwritten. */
  lemma NothingLost(freeList: seq<FreeBlock>, usedList: map<nat, nat>, layout: seq<Block>,
                    free': seq<FreeBlock>, used': map<nat, nat>, layout': seq<Block>, base: nat, capacity: nat, p: nat)
    requires Consistent(freeList, usedList, layout, base, capacity) && Consistent(free', used', layout', base, capacity)
    requires Solid(free') == Solid(freeList) && used' == usedList[p := 0]
    ensures !InUse(usedList, p)
  {
    if p in usedList && usedList[p] > 0 {
      var b := Block(p, usedList[p], true);
      var c := OldBlockAt(freeList, usedList, layout, free', used', layout', base, capacity, p);
      SameBlock(layout, base, capacity, b, c, p);
      assert false;
    }
  }

  /** The block the later tiling has at a used address p is one the earlier tiling has as well, and not the one at p. */
  lemma OldBlockAt(freeList: seq<FreeBlock>, usedList: map<nat, nat>, layout: seq<Block>,
                   free': seq<FreeBlock>, used': map<nat, nat>, layout': seq<Block>, base: nat, capacity: nat, p: nat)
    returns (c: Block)
    requires Consistent(freeList, usedList, layout, base, capacity) && Consistent(free', used', layout', base, capacity)
    requires Solid(free') == Solid(freeList) && used' == usedList[p := 0] && p in usedList && usedList[p] > 0
    ensures c in layout && c.ptr <= p < c.ptr + c.size && !(c.used && c.ptr == p)
  {
    var i :| 0 <= i < |layout| && layout[i] == Block(p, usedList[p], true);
    InsidePool(layout, base, capacity, i);
    var k := Covered(layout', base, capacity, p);
    c := layout'[k];
    if c.used {
      assert c in layout' && used'[c.ptr] == c.size;
    } else {
      FreeIsListed(layout', k);
      var j := FindFree(layout, FreeBlock(c.size, c.ptr));
    }
  }

  lemma InsidePool(layout: seq<Block>, base: nat, capacity: nat, i: nat)
    requires Tiles(layout, base, capacity) && i < |layout|
    ensures base <= layout[i].ptr && layout[i].ptr + layout[i].size <= base + capacity
  {
    if i > 0 {
      BlocksApart(layout, base, capacity, 0, i);
    }
    if i < |layout| - 1 {
      BlocksApart(layout, base, capacity, i, |layout| - 1);
    }
  }

  /** What is left of a list of one entry. */
  lemma TakenFromOne(list': seq<FreeBlock>, e: FreeBlock, f: FreeBlock, size: nat)
    requires TakesFrom([e], list', f, size)
    ensures f == e && list' == [FreeBlock(e.size - size, e.ptr + size)]
  {
    ListOfOne(list', FreeBlock(e.size - size, e.ptr + size));
  }

  lemma ListOfOne(list: seq<FreeBlock>, e: FreeBlock)
    requires multiset(list) == multiset{e}
    ensures list == [e]
  {
    assert |multiset(list)| == 1;
    assert list[0] in multiset(list);
  }

  /** A sorted list of two entries has the smaller one first. */
  lemma ListOfTwo(list: seq<FreeBlock>, e: FreeBlock, f: FreeBlock)
    requires Sorted(list) && multiset(list) == multiset{e, f} && e.size < f.size
    ensures list == [e, f]
  {
    assert |multiset(list)| == 2;
    assert list == [list[0], list[1]];
    assert e in multiset(list) && f in multiset(list);
  }

  /**
    A run in which a request of 0 bytes loses memory: an exact fit leaves an empty entry at the address of the
    block behind it, whose record the request overwrites. No tiling explains the lists any more.
   */
  method ZeroRequestLoses() returns (pool: MemoryPool, r: Option<nat>)
    ensures pool.base == 16 && pool.capacity == 10 && r == Some(20)
    ensures pool.usedList == map[16 := 4, 20 := 0]
    ensures !Explained(pool.freeList, pool.usedList, pool.base, pool.capacity)
  {
    hide Consistent, Explained, Insert, TakesFrom, TakesFirst, InsertedBehind, Boundaries;
    pool := new MemoryPool(16, 10);
    r := pool.Alloc(4);
    WitnessFirst(pool.freeList, r, 10, 16, 4);
    r := pool.Alloc(3);
    WitnessFirst(pool.freeList, r, 6, 20, 3);
    pool.Free(16);
    WitnessFree();
    r := pool.Alloc(4);
    WitnessExact(pool, r);
    r := pool.Alloc(0);
    WitnessLost(r);
  }

  lemma WitnessFirst(list: seq<FreeBlock>, r: Option<nat>, size: nat, ptr: nat, n: nat)
    requires r.None? <==> forall f | f in [FreeBlock(size, ptr)] :: f.size < n
    requires r.Some? ==> exists e: FreeBlock :: e.ptr == r.value && TakesFrom([FreeBlock(size, ptr)], list, e, n)
    requires n <= size
    ensures r == Some(ptr) && list == [FreeBlock(size - n, ptr + n)]
  {
    hide TakesFrom;
    assert FreeBlock(size, ptr) in [FreeBlock(size, ptr)];
    var e: FreeBlock :| e.ptr == r.value && TakesFrom([FreeBlock(size, ptr)], list, e, n);
    TakenFromOne(list, FreeBlock(size, ptr), e, n);
  }

  lemma WitnessFree()
    ensures Insert([FreeBlock(3, 23)], FreeBlock(4, 16)) == [FreeBlock(3, 23), FreeBlock(4, 16)]
  {
    assert Insert([], FreeBlock(4, 16)) == [FreeBlock(4, 16)];
  }

  lemma WitnessExact(pool: MemoryPool, r: Option<nat>)
    requires pool.Valid() && (r.None? <==> forall f | f in [FreeBlock(3, 23), FreeBlock(4, 16)] :: f.size < 4)
    requires r.Some? ==> exists e: FreeBlock ::
      e.ptr == r.value && TakesFrom([FreeBlock(3, 23), FreeBlock(4, 16)], pool.freeList, e, 4)
    ensures r == Some(16) && pool.freeList == [FreeBlock(0, 20), FreeBlock(3, 23)]
  {
    hide TakesFrom, Solid, FreeOf, Tiles, UsedOk, Sorted;
    var a, b := FreeBlock(3, 23), FreeBlock(4, 16);
    assert [a, b][1] in [a, b];
    var e: FreeBlock :| e.ptr == r.value && TakesFrom([a, b], pool.freeList, e, 4);
    TakenFromTwo(pool.freeList, a, b, e, 4);
    ListOfTwo(pool.freeList, FreeBlock(0, 20), a);
  }

  lemma TakenFromTwo(list': seq<FreeBlock>, a: FreeBlock, b: FreeBlock, e: FreeBlock, size: nat)
    requires TakesFrom([a, b], list', e, size) && a.size < size <= b.size
    ensures e == b && multiset(list') == multiset{FreeBlock(b.size - size, b.ptr + size), a}
  {
    assert multiset([a, b]) == multiset{a, b};
  }

  lemma WitnessLost(r: Option<nat>)
    requires r.None? <==> forall f | f in [FreeBlock(0, 20), FreeBlock(3, 23)] :: f.size < 0
    ensures r.Some?
  {
    assert FreeBlock(0, 20) in [FreeBlock(0, 20), FreeBlock(3, 23)];
  }
}
