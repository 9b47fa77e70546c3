/**
  The state of the TLSF allocator as values, and what it means for that state to be consistent.

  Addresses are numbers and 0 is the null pointer. `mem` holds the headers of the blocks the pools are
  cut into, keyed by address: an address outside it is not the start of a block, so every header the
  allocator reads is checked to be one.
*/
module TlsfHeap {
  import opened Words
  import opened SizeClass

  type Ptr = nat

  const TRUE_SIZE := 16

  /** The 31-bit field `size` of a header. */
  type Size31 = n: nat | n < 0x8000_0000

  /**
    The two words behind a header. A free block keeps its list links there; once a block is handed out
    the same bytes belong to the client, and reading links from them would be an error.
   */
  datatype Payload = FreeLinks(prevFreeAlloc: Ptr, nextFreeAlloc: Ptr) | UserData(bytes: seq<nat>)

  datatype AllocHeader = AllocHeader(prevPhyAlloc: Ptr, size: Size31, free: bool, payload: Payload)

  datatype TLSFPool = TLSFPool(ptr: Ptr, capacity: nat)
  {
    function EndPtr(): Ptr {
      ptr + capacity
    }

    predicate CheckNextContains(p: Ptr) {
      p < ptr + capacity
    }

    predicate Contains(p: Ptr) {
      ptr <= p < ptr + capacity
    }

    /** What `createPool` hands out, within the range of the 31-bit size field. */
    predicate Usable() {
      ptr > 0 && capacity % 16 == 0 && 32 <= capacity < 0x8000_0000 + TRUE_SIZE
    }
  }

  type Memory = map<Ptr, AllocHeader>
  type LinkTable = seq<seq<Ptr>>

  /** `nextPhyAllocation`. */
  function NextPhy(mem: Memory, a: Ptr): Ptr
    requires a in mem
  {
    a + TRUE_SIZE + mem[a].size
  }

  function LevelOf(mem: Memory, a: Ptr): BitmapLevel
    requires a in mem
  {
    QueryBitmapLevelForInsert(mem[a].size)
  }

  // ---------------------------------------------------------------- physical layout

  ghost predicate PoolsOk(pools: seq<TLSFPool>) {
    && (forall i | 0 <= i < |pools| :: pools[i].Usable())
    && (forall i, j | 0 <= i < j < |pools| :: pools[i].EndPtr() <= pools[j].ptr || pools[j].EndPtr() <= pools[i].ptr)
  }

  ghost predicate InSomePool(pools: seq<TLSFPool>, a: Ptr) {
    exists i :: 0 <= i < |pools| && pools[i].Contains(a)
  }

  /** Block a of a pool: well sized, inside, and linked both ways with its physical neighbours. */
  ghost predicate BlockOk(mem: Memory, pool: TLSFPool, a: Ptr)
    requires a in mem
  {
    var next, prev := NextPhy(mem, a), mem[a].prevPhyAlloc;
    && mem[a].size % 16 == 0 && mem[a].size >= 16
    && next <= pool.EndPtr()
    && (next < pool.EndPtr() ==> next in mem && mem[next].prevPhyAlloc == a)
    && (prev == 0 <==> a == pool.ptr)
    && (prev != 0 ==> prev in mem && pool.Contains(prev) && NextPhy(mem, prev) == a)
  }

  ghost predicate Disjoint(mem: Memory) {
    forall a, b {:trigger NextPhy(mem, a), NextPhy(mem, b)} | a in mem && b in mem && a < b :: NextPhy(mem, a) <= b
  }

  ghost predicate PhysOk(mem: Memory, pools: seq<TLSFPool>) {
    && 0 !in mem
    && (forall a {:trigger InSomePool(pools, a)} | a in mem :: InSomePool(pools, a))
    && (forall i {:trigger pools[i].ptr} | 0 <= i < |pools| :: pools[i].ptr in mem)
    && (forall i, a {:trigger BlockOk(mem, pools[i], a)} |
          0 <= i < |pools| && a in mem && pools[i].Contains(a) :: BlockOk(mem, pools[i], a))
    && Disjoint(mem)
  }

  // ---------------------------------------------------------------- free lists and bitmaps

  ghost predicate LinksShape(links: LinkTable) {
    |links| == FLC && forall f | 0 <= f < FLC :: |links[f]| == SLC
  }

  function HeadOf(links: LinkTable, level: BitmapLevel): Ptr
    requires LinksShape(links) && level.InTable()
  {
    links[level.firstLevel][level.secondLevel]
  }

  function SetHead(links: LinkTable, level: BitmapLevel, p: Ptr): (r: LinkTable)
    requires LinksShape(links) && level.InTable()
    ensures LinksShape(r) && HeadOf(r, level) == p
    ensures forall other: BitmapLevel | other.InTable() && other != level :: HeadOf(r, other) == HeadOf(links, other)
  {
    var row: seq<Ptr> := links[level.firstLevel];
    links[level.firstLevel := row[level.secondLevel := p]]
  }

  lemma SetHeadSame(links: LinkTable, level: BitmapLevel)
    requires LinksShape(links) && level.InTable()
    ensures SetHead(links, level, HeadOf(links, level)) == links
  {
    assert SetHead(links, level, HeadOf(links, level))[level.firstLevel] == links[level.firstLevel];
  }

  /**
    `rank` numbers the blocks that are in a free list, increasing along every list: the links cannot
    form a cycle, and following `prevFreeAlloc` from any listed block reaches the head of its level.
   */
  ghost predicate ListedOk(mem: Memory, links: LinkTable, rank: map<Ptr, int>, b: Ptr)
    requires LinksShape(links) && b in rank
  {
    && b != 0 && b in mem && mem[b].free && mem[b].payload.FreeLinks?
    && LevelOf(mem, b).InTable()
    && var next, prev := mem[b].payload.nextFreeAlloc, mem[b].payload.prevFreeAlloc;
    && (next != 0 ==> next in rank && next in mem && mem[next].payload.FreeLinks? && mem[next].payload.prevFreeAlloc == b
                      && rank[b] < rank[next] && LevelOf(mem, next) == LevelOf(mem, b))
    && (prev != 0 ==> prev in rank && prev in mem && mem[prev].payload.FreeLinks? && mem[prev].payload.nextFreeAlloc == b)
    && (prev == 0 ==> HeadOf(links, LevelOf(mem, b)) == b)
  }

  ghost predicate HeadOk(mem: Memory, rank: map<Ptr, int>, level: BitmapLevel, h: Ptr) {
    h != 0 ==> h in rank && h in mem && mem[h].payload.FreeLinks? && mem[h].payload.prevFreeAlloc == 0 && LevelOf(mem, h) == level
  }

  ghost predicate ListsOk(mem: Memory, links: LinkTable, rank: map<Ptr, int>) {
    && LinksShape(links)
    && (forall b {:trigger ListedOk(mem, links, rank, b)} | b in rank :: ListedOk(mem, links, rank, b))
    && (forall level: BitmapLevel {:trigger HeadOk(mem, rank, level, HeadOf(links, level))} |
          level.InTable() :: HeadOk(mem, rank, level, HeadOf(links, level)))
  }

  ghost predicate BitmapsOk(first: nat, second: seq<nat>, links: LinkTable)
    requires LinksShape(links)
  {
    && first < Pow2(FLC) && |second| == FLC
    && (forall f | 0 <= f < FLC :: second[f] < Pow2(32))
    && (forall f | 0 <= f < FLC :: Bit(first, f) <==> second[f] != 0)
    && (forall level: BitmapLevel | level.InTable() :: Bit(second[level.firstLevel], level.secondLevel) <==> HeadOf(links, level) != 0)
  }

  /** A block is in a free list exactly if its header says so, and no two neighbours are both free. */
  ghost predicate FreeOk(mem: Memory, listed: set<Ptr>) {
    && listed <= mem.Keys
    && (forall a | a in mem :: mem[a].free <==> a in listed)
    && (forall a {:trigger mem[a].prevPhyAlloc} | a in listed && a in mem :: mem[a].prevPhyAlloc !in listed)
  }

  ghost predicate HeapOk(mem: Memory, first: nat, second: seq<nat>, links: LinkTable, pools: seq<TLSFPool>, rank: map<Ptr, int>) {
    && PoolsOk(pools)
    && PhysOk(mem, pools)
    && ListsOk(mem, links, rank)
    && BitmapsOk(first, second, links)
    && FreeOk(mem, rank.Keys)
  }

  // ---------------------------------------------------------------- what a client sees

  datatype LiveBlock = LiveBlock(size: nat, payload: Payload)

  /** The blocks handed out and not yet freed. */
  ghost function LiveBlocks(mem: Memory): map<Ptr, LiveBlock> {
    map a | a in mem && !mem[a].free :: LiveBlock(mem[a].size, mem[a].payload)
  }

  /** The same blocks in the same places. */
  ghost predicate SamePhys(m: Memory, m': Memory) {
    && m.Keys == m'.Keys
    && forall a | a in m :: m'[a].prevPhyAlloc == m[a].prevPhyAlloc && m'[a].size == m[a].size
  }

  /** Only free-list links differ. */
  ghost predicate SameLayout(m: Memory, m': Memory) {
    SamePhys(m, m') && forall a | a in m :: m'[a].free == m[a].free
  }

  /** Block b stays in its list, with its size and its place in the order of the listed blocks. */
  ghost predicate Kept(m: Memory, rank: map<Ptr, int>, m': Memory, rank': map<Ptr, int>, b: Ptr) {
    b in rank && b in rank' && rank'[b] == rank[b] && b in m && b in m' && m'[b].size == m[b].size
  }

  /** What an operation did to the lists: apart from c they only lost blocks, and c, if listed, came in as a head. */
  ghost predicate ListsAfter(m: Memory, rank: map<Ptr, int>, m': Memory, links': LinkTable, rank': map<Ptr, int>, c: Ptr)
    requires LinksShape(links')
  {
    && (forall b {:trigger Kept(m, rank, m', rank', b)} {:trigger b in rank'} | b in rank' && b != c :: Kept(m, rank, m', rank', b))
    && (c in rank' ==> c in m' && LevelOf(m', c).InTable() && HeadOf(links', LevelOf(m', c)) == c)
  }

  /** Block a has left the lists, and at most `rest`, what lies behind it, has come in. */
  ghost predicate TakenOut(m: Memory, rank: map<Ptr, int>, m': Memory, links': LinkTable, rank': map<Ptr, int>, a: Ptr, rest: Ptr)
    requires LinksShape(links')
  {
    || (rank'.Keys == rank.Keys - {a} && ListsAfter(m, rank, m', links', rank', 0))
    || (rank'.Keys == rank.Keys - {a} + {rest} && ListsAfter(m, rank, m', links', rank', rest))
  }

  lemma TakenWhole(m: Memory, links: LinkTable, rank: map<Ptr, int>, m': Memory, links': LinkTable, rank': map<Ptr, int>, a: Ptr, rest: Ptr)
    requires ListsOk(m, links, rank) && ListsOk(m', links', rank') && SameLayout(m, m') && rank' == rank - {a}
    ensures LinksShape(links') && TakenOut(m, rank, m', links', rank', a, rest)
  {
    hide QueryBitmapLevelForInsert;
    ListedInMemory(m, links, rank);
    ListedInMemory(m', links', rank');
    assert rank'.Keys == rank.Keys - {a};
  }

  /** Marking the block taken out as allocated is nothing to the lists. */
  lemma MarkedAfter(m: Memory, rank: map<Ptr, int>, s: Memory, m': Memory, links': LinkTable, rank': map<Ptr, int>, a: Ptr)
    requires LinksShape(links') && SamePhys(s, m') && a in s
    requires TakenOut(m, rank, s, links', rank', a, NextPhy(s, a))
    ensures TakenOut(m, rank, m', links', rank', a, NextPhy(m', a))
  {
    hide QueryBitmapLevelForInsert;
    forall b | Kept(m, rank, s, rank', b)
      ensures Kept(m, rank, m', rank', b)
    {
    }
  }

  lemma SameSizesAfter(m: Memory, s: Memory, rank: map<Ptr, int>, m': Memory, links': LinkTable, rank': map<Ptr, int>, c: Ptr)
    requires SamePhys(m, s) && LinksShape(links') && ListsAfter(s, rank, m', links', rank', c)
    ensures ListsAfter(m, rank, m', links', rank', c)
  {
    hide QueryBitmapLevelForInsert;
    forall b | Kept(s, rank, m', rank', b)
      ensures Kept(m, rank, m', rank', b)
    {
    }
  }

  lemma TakenPart(m: Memory, links: LinkTable, rank: map<Ptr, int>, s: Memory, rankS: map<Ptr, int>,
                  m': Memory, links': LinkTable, rank': map<Ptr, int>, a: Ptr, rest: Ptr)
    requires ListsOk(m, links, rank) && SameLayout(m, s) && rankS == rank - {a}
    requires LinksShape(links') && ListsAfter(s, rankS, m', links', rank', rest) && rank'.Keys == rankS.Keys + {rest}
    ensures TakenOut(m, rank, m', links', rank', a, rest)
  {
    hide QueryBitmapLevelForInsert;
    ListedInMemory(m, links, rank);
    assert rankS.Keys == rank.Keys - {a};
    forall b | b in rank' && b != rest
      ensures Kept(m, rank, m', rank', b)
    {
      assert Kept(s, rankS, m', rank', b);
    }
  }

  /** The lists have lost blocks, and nothing else. */
  ghost predicate OnlyLost(m: Memory, rank: map<Ptr, int>, m': Memory, rank': map<Ptr, int>) {
    forall b {:trigger Kept(m, rank, m', rank', b)} {:trigger b in rank'} | b in rank' :: Kept(m, rank, m', rank', b)
  }

  lemma LostTwice(m: Memory, rank: map<Ptr, int>, s: Memory, rankS: map<Ptr, int>, m': Memory, rank': map<Ptr, int>)
    requires OnlyLost(m, rank, s, rankS) && OnlyLost(s, rankS, m', rank')
    ensures OnlyLost(m, rank, m', rank')
  {
    forall b | b in rank'
      ensures Kept(m, rank, m', rank', b)
    {
      assert Kept(s, rankS, m', rank', b);
      assert Kept(m, rank, s, rankS, b);
    }
  }

  /** Taking a block out of the lists, and then changing only what is not listed any more. */
  lemma RemovedLost(m: Memory, links: LinkTable, rank: map<Ptr, int>, s: Memory, m': Memory, rank': map<Ptr, int>, a: Ptr)
    requires ListsOk(m, links, rank) && SameLayout(m, s) && rank' == rank - {a}
    requires forall b | b in rank' && b in s :: b in m' && m'[b].size == s[b].size
    ensures OnlyLost(m, rank, m', rank')
  {
    hide QueryBitmapLevelForInsert;
    ListedInMemory(m, links, rank);
  }

  /** The lists after losing blocks and then taking in c. */
  lemma LostThenPushed(m: Memory, rank: map<Ptr, int>, s: Memory, rankS: map<Ptr, int>, m': Memory, links': LinkTable, rank': map<Ptr, int>, c: Ptr)
    requires OnlyLost(m, rank, s, rankS) && LinksShape(links') && SameLayout(s, m') && c in s
    requires rank'.Keys == rankS.Keys + {c} && forall b | b in rankS :: rank'[b] == rankS[b]
    requires LevelOf(s, c).InTable() && HeadOf(links', LevelOf(s, c)) == c && c !in rankS
    ensures ListsAfter(m, rank, m', links', rank', c)
  {
    hide QueryBitmapLevelForInsert;
    forall b | b in rank' && b != c
      ensures Kept(m, rank, m', rank', b)
    {
      assert Kept(m, rank, s, rankS, b);
    }
  }

  /** The lists after block c was pushed onto those of s, whose listed blocks are blocks of m. */
  lemma PushedAfter(m: Memory, rank: map<Ptr, int>, s: Memory, m': Memory, links': LinkTable, rank': map<Ptr, int>, c: Ptr)
    requires LinksShape(links') && SameLayout(s, m') && c in s
    requires forall b | b in rank' && b != c :: b in rank && rank'[b] == rank[b] && b in m && b in s && s[b].size == m[b].size
    requires LevelOf(s, c).InTable() && HeadOf(links', LevelOf(s, c)) == c
    ensures ListsAfter(m, rank, m', links', rank', c)
  {
    hide QueryBitmapLevelForInsert;
  }

  /** Every listed block is a block. */
  lemma ListedInMemory(m: Memory, links: LinkTable, rank: map<Ptr, int>)
    requires ListsOk(m, links, rank)
    ensures rank.Keys <= m.Keys && LinksShape(links) && 0 !in rank
  {
    hide QueryBitmapLevelForInsert;
    forall b | b in rank
      ensures b in m && b != 0
    {
      assert ListedOk(m, links, rank, b);
    }
  }

  lemma SameBlock(m: Memory, m': Memory, pool: TLSFPool, a: Ptr)
    requires SamePhys(m, m') && a in m && BlockOk(m, pool, a)
    ensures BlockOk(m', pool, a)
  {
    var next, prev := NextPhy(m, a), m[a].prevPhyAlloc;
    assert NextPhy(m', a) == next && m'[a].prevPhyAlloc == prev;
    if next < pool.EndPtr() {
      assert m'[next].prevPhyAlloc == m[next].prevPhyAlloc;
    }
    if prev != 0 {
      assert m'[prev].size == m[prev].size;
    }
  }

  lemma SamePhysOk(m: Memory, m': Memory, pools: seq<TLSFPool>)
    requires SamePhys(m, m') && PhysOk(m, pools)
    ensures PhysOk(m', pools)
  {
    forall i, a | 0 <= i < |pools| && a in m' && pools[i].Contains(a)
      ensures BlockOk(m', pools[i], a)
    {
      assert BlockOk(m, pools[i], a);
      SameBlock(m, m', pools[i], a);
    }
    forall a, b | a in m' && b in m' && a < b
      ensures NextPhy(m', a) <= b
    {
      assert NextPhy(m, b) >= b && NextPhy(m, a) <= b;
    }
  }

  // ---------------------------------------------------------------- lists under push and removal

  /** `target` with the links of a listed block replaced; any other header is left alone. */
  function WithNext(m: Memory, target: Ptr, next: Ptr): Memory
    requires target in m && m[target].payload.FreeLinks?
  {
    m[target := m[target].(payload := m[target].payload.(nextFreeAlloc := next))]
  }

  function WithPrev(m: Memory, target: Ptr, prev: Ptr): Memory
    requires target in m && m[target].payload.FreeLinks?
  {
    m[target := m[target].(payload := m[target].payload.(prevFreeAlloc := prev))]
  }

  /** Block b, wherever it is in its list, can be unlinked: its neighbours are free-list nodes. */
  ghost predicate Unlinkable(m: Memory, b: Ptr) {
    && b in m && m[b].payload.FreeLinks?
    && var next, prev := m[b].payload.nextFreeAlloc, m[b].payload.prevFreeAlloc;
    && (next != 0 ==> next in m && m[next].payload.FreeLinks? && next != b && next != prev)
    && (prev != 0 ==> prev in m && m[prev].payload.FreeLinks? && prev != b)
  }

  /** The header updates of both `removeFreeAllocationAndUpdateBitmap`s. */
  ghost function Unlink(m: Memory, b: Ptr): (r: Memory)
    requires Unlinkable(m, b)
    ensures SameLayout(m, r)
  {
    var next, prev := m[b].payload.nextFreeAlloc, m[b].payload.prevFreeAlloc;
    var m1 := if prev != 0 then WithNext(m, prev, next) else m;
    if next != 0 then WithPrev(m1, next, prev) else m1
  }

  ghost function UnlinkHead(links: LinkTable, m: Memory, b: Ptr, level: BitmapLevel): LinkTable
    requires Unlinkable(m, b) && LinksShape(links) && level.InTable()
  {
    if m[b].payload.prevFreeAlloc != 0 then links else SetHead(links, level, m[b].payload.nextFreeAlloc)
  }

  lemma ListedUnlinkable(m: Memory, links: LinkTable, rank: map<Ptr, int>, b: Ptr)
    requires ListsOk(m, links, rank) && b in rank
    ensures Unlinkable(m, b) && LevelOf(m, b).InTable()
  {
    hide QueryBitmapLevelForInsert;
    assert ListedOk(m, links, rank, b);
    var next, prev := m[b].payload.nextFreeAlloc, m[b].payload.prevFreeAlloc;
    if next != 0 {
      assert ListedOk(m, links, rank, next);
    }
    if prev != 0 {
      assert ListedOk(m, links, rank, prev);
    }
  }

  /** Clients do not see changes to the links of free blocks. */
  lemma SameLive(m: Memory, m': Memory)
    requires SameLayout(m, m') && forall a | a in m && !m[a].free :: m'[a].payload == m[a].payload
    ensures LiveBlocks(m') == LiveBlocks(m)
  {
  }

  lemma UnlinkKeepsLive(m: Memory, links: LinkTable, rank: map<Ptr, int>, b: Ptr)
    requires ListsOk(m, links, rank) && b in rank && Unlinkable(m, b)
    ensures LiveBlocks(Unlink(m, b)) == LiveBlocks(m)
  {
    hide QueryBitmapLevelForInsert;
    assert ListedOk(m, links, rank, b);
    var next, prev := m[b].payload.nextFreeAlloc, m[b].payload.prevFreeAlloc;
    assert next != 0 ==> ListedOk(m, links, rank, next);
    assert prev != 0 ==> ListedOk(m, links, rank, prev);
    SameLive(m, Unlink(m, b));
  }

  /** A block just taken off the head of a list, which is what the links in it still say. */
  ghost predicate PoppedFrom(m: Memory, links: LinkTable, rank: map<Ptr, int>, a: Ptr, level: BitmapLevel)
    requires LinksShape(links) && level.InTable()
  {
    && a in m && a !in rank && m[a].payload == FreeLinks(0, HeadOf(links, level)) && LevelOf(m, a) == level
  }

  /** Unlinking such a block a second time writes back the values that are already there. */
  lemma UnlinkPopped(m: Memory, links: LinkTable, rank: map<Ptr, int>, a: Ptr, level: BitmapLevel)
    requires ListsOk(m, links, rank) && level.InTable() && PoppedFrom(m, links, rank, a, level)
    ensures var next := HeadOf(links, level);
      && (next != 0 ==> next in m && m[next].payload.FreeLinks? && WithPrev(m, next, 0) == m)
      && SetHead(links, level, next) == links
  {
    hide QueryBitmapLevelForInsert;
    var next := HeadOf(links, level);
    assert HeadOk(m, rank, level, next);
    if next != 0 {
      assert m[next].payload.(prevFreeAlloc := 0) == m[next].payload;
    }
    SetHeadSame(links, level);
  }

  lemma UnlinkKeepsLists(m: Memory, links: LinkTable, rank: map<Ptr, int>, b: Ptr)
    requires ListsOk(m, links, rank) && b in rank
    requires Unlinkable(m, b) && LevelOf(m, b).InTable()
    ensures ListsOk(Unlink(m, b), UnlinkHead(links, m, b, LevelOf(m, b)), rank - {b})
  {
    hide QueryBitmapLevelForInsert;
    var m', links' := Unlink(m, b), UnlinkHead(links, m, b, LevelOf(m, b));
    var rank' := rank - {b};
    assert ListedOk(m, links, rank, b);
    forall c | c in rank'
      ensures ListedOk(m', links', rank', c)
    {
      assert ListedOk(m, links, rank, c);
    }
    forall level: BitmapLevel | level.InTable()
      ensures HeadOk(m', rank', level, HeadOf(links', level))
    {
      assert HeadOk(m, rank, level, HeadOf(links, level));
    }
  }

  /** Putting block a at the front of the list of its level. */
  ghost function Push(m: Memory, links: LinkTable, a: Ptr, level: BitmapLevel): (r: Memory)
    requires a in m && LinksShape(links) && level.InTable()
    ensures SameLayout(m, r)
  {
    var head := HeadOf(links, level);
    var m1 := m[a := m[a].(payload := FreeLinks(0, head))];
    if head != 0 && head in m1 && m1[head].payload.FreeLinks? then WithPrev(m1, head, a) else m1
  }

  ghost function PushRank(rank: map<Ptr, int>, a: Ptr, head: Ptr): map<Ptr, int> {
    rank[a := if head in rank then rank[head] - 1 else 0]
  }

  lemma PushKeepsLists(m: Memory, links: LinkTable, rank: map<Ptr, int>, a: Ptr)
    requires ListsOk(m, links, rank) && a in m && a !in rank && a != 0 && m[a].free && LevelOf(m, a).InTable()
    ensures var level := LevelOf(m, a); var head := HeadOf(links, level);
      && (head != 0 ==> head in m && head != a && m[head].payload.FreeLinks?)
      && ListsOk(Push(m, links, a, level), SetHead(links, level, a), PushRank(rank, a, head))
  {
    hide QueryBitmapLevelForInsert;
    var level := LevelOf(m, a);
    var head := HeadOf(links, level);
    assert HeadOk(m, rank, level, head);
    if head != 0 {
      assert ListedOk(m, links, rank, head);
    }
    var m', links', rank' := Push(m, links, a, level), SetHead(links, level, a), PushRank(rank, a, head);
    forall c | c in rank'
      ensures ListedOk(m', links', rank', c)
    {
      if c != a {
        PushKeepsNode(m, links, rank, a, c);
      }
    }
    forall other: BitmapLevel | other.InTable()
      ensures HeadOk(m', rank', other, HeadOf(links', other))
    {
      PushKeepsHead(m, links, rank, a, other);
    }
  }

  lemma PushKeepsHead(m: Memory, links: LinkTable, rank: map<Ptr, int>, a: Ptr, other: BitmapLevel)
    requires ListsOk(m, links, rank) && a in m && a !in rank && LevelOf(m, a).InTable() && other.InTable()
    ensures var level := LevelOf(m, a);
      HeadOk(Push(m, links, a, level), PushRank(rank, a, HeadOf(links, level)), other, HeadOf(SetHead(links, level, a), other))
  {
    hide QueryBitmapLevelForInsert;
    assert HeadOk(m, rank, LevelOf(m, a), HeadOf(links, LevelOf(m, a)));
    assert HeadOk(m, rank, other, HeadOf(links, other));
  }

  lemma PushKeepsNode(m: Memory, links: LinkTable, rank: map<Ptr, int>, a: Ptr, c: Ptr)
    requires ListsOk(m, links, rank) && a in m && a !in rank && a != 0 && m[a].free && LevelOf(m, a).InTable()
    requires c in rank
    ensures var level := LevelOf(m, a);
      ListedOk(Push(m, links, a, level), SetHead(links, level, a), PushRank(rank, a, HeadOf(links, level)), c)
  {
    hide QueryBitmapLevelForInsert;
    var level := LevelOf(m, a);
    assert HeadOk(m, rank, level, HeadOf(links, level));
    assert ListedOk(m, links, rank, c);
  }

  /** The lists do not depend on blocks that are in none of them. */
  lemma OtherBlocks(m: Memory, m': Memory, links: LinkTable, rank: map<Ptr, int>)
    requires ListsOk(m, links, rank)
    requires forall b | b in rank && b in m :: b in m' && m'[b].size == m[b].size && m'[b].free == m[b].free && m'[b].payload == m[b].payload
    ensures ListsOk(m', links, rank)
  {
    hide QueryBitmapLevelForInsert;
    forall b | b in rank
      ensures ListedOk(m', links, rank, b)
    {
      assert ListedOk(m, links, rank, b);
    }
    forall level: BitmapLevel | level.InTable()
      ensures HeadOk(m', rank, level, HeadOf(links, level))
    {
      assert HeadOk(m, rank, level, HeadOf(links, level));
    }
  }

  // ---------------------------------------------------------------- bitmaps under push and removal

  /** `_secondLevelBitmap[f] &= ~(1 << s)`. */
  function ClearedSecond(second: seq<nat>, level: BitmapLevel): seq<nat>
    requires |second| == FLC && level.InTable()
  {
    Pow2Monotone(level.secondLevel, 32);
    second[level.firstLevel := And(second[level.firstLevel], Not(Pow2(level.secondLevel), 32))]
  }

  /** `_firstLevelBitmap &= ~(1 << f)`, done only once row f has become empty. */
  function ClearedFirst(first: nat, second: seq<nat>, level: BitmapLevel): nat
    requires |second| == FLC && level.InTable()
  {
    Pow2Monotone(level.firstLevel, 32);
    if second[level.firstLevel] == 0 then And(first, Not(Pow2(level.firstLevel), 32)) else first
  }

  lemma NonZeroRow(word: nat, k: nat)
    requires Bit(word, k)
    ensures word != 0
  {
    ZeroBits(k);
  }

  lemma ClearKeepsBitmaps(first: nat, second: seq<nat>, links: LinkTable, level: BitmapLevel)
    requires LinksShape(links) && BitmapsOk(first, second, links) && level.InTable()
    ensures var second' := ClearedSecond(second, level);
      BitmapsOk(ClearedFirst(first, second', level), second', SetHead(links, level, 0))
  {
    hide Bit, And, Pow2;
    var f, s := level.firstLevel, level.secondLevel;
    ClearBit(second[f], s, 32);
    Pow2Monotone(FLC, 32);
    ClearBit(first, f, 32);
    AndBound(first, Not(Pow2(f), 32));
    var second' := ClearedSecond(second, level);
    if second[f] == 0 {
      AndBound(second[f], Not(Pow2(s), 32));
    }
  }

  /** Clearing what is already clear changes nothing. */
  lemma ClearTwice(first: nat, second: seq<nat>, links: LinkTable, level: BitmapLevel)
    requires LinksShape(links) && BitmapsOk(first, second, links) && level.InTable() && HeadOf(links, level) == 0
    ensures ClearedSecond(second, level) == second && ClearedFirst(first, second, level) == first
  {
    hide Bit, And, Pow2;
    ClearClear(second[level.firstLevel], level.secondLevel);
    if second[level.firstLevel] == 0 {
      Pow2Monotone(FLC, 32);
      ClearClear(first, level.firstLevel);
    }
  }

  lemma ClearClear(word: nat, k: nat)
    requires word < Pow2(32) && k < 32 && !Bit(word, k)
    ensures Pow2(k) < Pow2(32) && And(word, Not(Pow2(k), 32)) == word
  {
    hide Bit, And, Pow2;
    ClearBit(word, k, 32);
    if And(word, Not(Pow2(k), 32)) != word {
      var j := DifferentBit(And(word, Not(Pow2(k), 32)), word, 32);
      assert false;
    }
  }

  lemma SetKeepsBitmaps(first: nat, second: seq<nat>, links: LinkTable, level: BitmapLevel, a: Ptr)
    requires LinksShape(links) && BitmapsOk(first, second, links) && level.InTable() && a != 0
    ensures var f, s := level.firstLevel, level.secondLevel;
      BitmapsOk(Or(first, Pow2(f)), second[f := Or(second[f], Pow2(s))], SetHead(links, level, a))
  {
    hide Bit, Or, Pow2;
    SetBit(second[level.firstLevel], level.secondLevel, 32);
    SetBit(first, level.firstLevel, FLC);
  }

  /** As long as the head stays non-null its bit is right already. */
  lemma SameBitmaps(first: nat, second: seq<nat>, links: LinkTable, level: BitmapLevel, p: Ptr)
    requires LinksShape(links) && BitmapsOk(first, second, links) && level.InTable()
    requires HeadOf(links, level) != 0 && p != 0
    ensures BitmapsOk(first, second, SetHead(links, level, p))
  {
    hide Bit, Pow2;
  }

  // ---------------------------------------------------------------- splitting and merging blocks

  lemma Apart(m: Memory, a: Ptr, b: Ptr)
    requires Disjoint(m) && a in m && b in m && a < b
    ensures NextPhy(m, a) <= b
  {
    assert NextPhy(m, b) > b;
  }

  /** The layout part of `splitAllocation`: a keeps `size` bytes and the rest becomes a free block. */
  ghost function Split(m: Memory, pool: TLSFPool, a: Ptr, size: Size31, payload: Payload): Memory
    requires a in m && size + TRUE_SIZE <= m[a].size
  {
    var rest, after := a + TRUE_SIZE + size, NextPhy(m, a);
    var m1 := m[a := m[a].(size := size)][rest := AllocHeader(a, m[a].size - size - TRUE_SIZE, true, payload)];
    if after < pool.EndPtr() && after in m then m1[after := m[after].(prevPhyAlloc := rest)] else m1
  }

  /** What a split needs: block a of pool i, and room for a header and 16 bytes behind the part kept. */
  ghost predicate CanSplit(m: Memory, pools: seq<TLSFPool>, i: nat, a: Ptr, size: Size31) {
    && PoolsOk(pools) && PhysOk(m, pools) && i < |pools| && a in m && pools[i].Contains(a)
    && size % 16 == 0 && size >= 16 && m[a].size >= size + 32
  }

  /** `prevPhyAlloc` and `nextPhyAllocation` are inverse to each other, inside a pool. */
  lemma PrevIsBefore(m: Memory, pools: seq<TLSFPool>, x: Ptr)
    requires PhysOk(m, pools) && x in m
    ensures var prev := m[x].prevPhyAlloc; prev != 0 ==> prev in m && NextPhy(m, prev) == x
    ensures forall i | 0 <= i < |pools| && pools[i].Contains(x) && NextPhy(m, x) < pools[i].EndPtr() ::
      NextPhy(m, x) in m && m[NextPhy(m, x)].prevPhyAlloc == x
  {
    assert InSomePool(pools, x);
    var j :| 0 <= j < |pools| && pools[j].Contains(x);
    assert BlockOk(m, pools[j], x);
    forall i | 0 <= i < |pools| && pools[i].Contains(x) && NextPhy(m, x) < pools[i].EndPtr()
      ensures NextPhy(m, x) in m && m[NextPhy(m, x)].prevPhyAlloc == x
    {
      assert BlockOk(m, pools[i], x);
    }
  }

  lemma SplitFresh(m: Memory, pools: seq<TLSFPool>, i: nat, a: Ptr, size: Size31)
    requires CanSplit(m, pools, i, a, size)
    ensures var rest := a + TRUE_SIZE + size;
      rest !in m && rest < NextPhy(m, a) <= pools[i].EndPtr() && BlockOk(m, pools[i], a)
  {
    var rest := a + TRUE_SIZE + size;
    assert BlockOk(m, pools[i], a);
    if rest in m {
      Apart(m, a, rest);
    }
  }

  lemma SplitDisjoint(m: Memory, pools: seq<TLSFPool>, i: nat, a: Ptr, size: Size31, payload: Payload)
    requires CanSplit(m, pools, i, a, size)
    ensures Disjoint(Split(m, pools[i], a, size, payload))
  {
    var rest := a + TRUE_SIZE + size;
    var m' := Split(m, pools[i], a, size, payload);
    SplitFresh(m, pools, i, a, size);
    forall x, y | x in m' && y in m' && x < y
      ensures NextPhy(m', x) <= y
    {
      var x' := if x == rest then a else x;
      var y' := if y == rest then a else y;
      if x' < y' {
        Apart(m, x', y');
      }
    }
  }

  /** The two blocks a split leaves. */
  lemma SplitParts(m: Memory, pools: seq<TLSFPool>, i: nat, a: Ptr, size: Size31, payload: Payload)
    requires CanSplit(m, pools, i, a, size)
    ensures var m' := Split(m, pools[i], a, size, payload); var rest := a + TRUE_SIZE + size;
      a in m' && rest in m' && BlockOk(m', pools[i], a) && BlockOk(m', pools[i], rest)
  {
    SplitFresh(m, pools, i, a, size);
    var m', rest, after := Split(m, pools[i], a, size, payload), a + TRUE_SIZE + size, NextPhy(m, a);
    var prev := m[a].prevPhyAlloc;
    assert after != a && after != rest;
    assert NextPhy(m', a) == rest && m'[a].prevPhyAlloc == prev;
    assert NextPhy(m', rest) == after && m'[rest].prevPhyAlloc == a;
    if prev != 0 {
      assert prev != a && prev != rest;
      assert NextPhy(m', prev) == NextPhy(m, prev);
    }
  }

  /** A split is invisible to every other block, except that the one behind points back to the rest. */
  lemma SplitOther(m: Memory, pools: seq<TLSFPool>, i: nat, a: Ptr, size: Size31, payload: Payload, j: nat, x: Ptr)
    requires CanSplit(m, pools, i, a, size)
    requires j < |pools| && x in m && pools[j].Contains(x) && x != a
    ensures x in Split(m, pools[i], a, size, payload)
    ensures BlockOk(Split(m, pools[i], a, size, payload), pools[j], x)
  {
    var pool, rest, after := pools[i], a + TRUE_SIZE + size, NextPhy(m, a);
    var m' := Split(m, pool, a, size, payload);
    SplitFresh(m, pools, i, a, size);
    assert BlockOk(m, pools[j], x);
    var next, prev := NextPhy(m, x), m[x].prevPhyAlloc;
    assert x != rest && NextPhy(m', x) == next && m'[x].size == m[x].size;
    if next < pools[j].EndPtr() {
      assert next in m && m[next].prevPhyAlloc == x;
      assert m'[next].prevPhyAlloc == x;
    }
    if x == after && x < pool.EndPtr() {
      assert m'[x].prevPhyAlloc == rest && rest in m' && NextPhy(m', rest) == x;
    } else {
      assert m'[x].prevPhyAlloc == prev;
      if prev == a {
      } else if prev != 0 {
        assert prev != rest && NextPhy(m', prev) == NextPhy(m, prev);
      }
    }
  }

  lemma SplitPhys(m: Memory, pools: seq<TLSFPool>, i: nat, a: Ptr, size: Size31, payload: Payload)
    requires CanSplit(m, pools, i, a, size)
    ensures PhysOk(Split(m, pools[i], a, size, payload), pools)
  {
    var pool, rest := pools[i], a + TRUE_SIZE + size;
    var m' := Split(m, pool, a, size, payload);
    SplitFresh(m, pools, i, a, size);
    assert m'.Keys == m.Keys + {rest};
    assert InSomePool(pools, rest) by { assert pools[i].Contains(rest); }
    forall j, x | 0 <= j < |pools| && x in m' && pools[j].Contains(x)
      ensures BlockOk(m', pools[j], x)
    {
      if x == rest || x == a {
        SplitParts(m, pools, i, a, size, payload);
      } else {
        SplitOther(m, pools, i, a, size, payload, j, x);
      }
    }
    SplitDisjoint(m, pools, i, a, size, payload);
  }

  /** What a merge needs: block a of pool i and the block physically behind it in the same pool. */
  ghost predicate CanAbsorb(m: Memory, pools: seq<TLSFPool>, i: nat, a: Ptr) {
    && PoolsOk(pools) && PhysOk(m, pools) && i < |pools| && a in m && pools[i].Contains(a)
    && NextPhy(m, a) < pools[i].EndPtr()
  }

  lemma AbsorbFits(m: Memory, pools: seq<TLSFPool>, i: nat, a: Ptr)
    requires CanAbsorb(m, pools, i, a)
    ensures var b := NextPhy(m, a);
      && b in m && a < b && pools[i].Contains(b) && BlockOk(m, pools[i], a) && BlockOk(m, pools[i], b)
      && m[a].size + TRUE_SIZE + m[b].size < 0x8000_0000
  {
    assert BlockOk(m, pools[i], a);
    assert BlockOk(m, pools[i], NextPhy(m, a));
  }

  /** The layout part of a merge in `insertFreeAllocation`: a takes over the block behind it. */
  ghost function Absorb(m: Memory, pool: TLSFPool, a: Ptr): Memory
    requires a in m && NextPhy(m, a) in m && m[a].size + TRUE_SIZE + m[NextPhy(m, a)].size < 0x8000_0000
  {
    var b := NextPhy(m, a);
    var after := NextPhy(m, b);
    var m1 := (m - {b})[a := m[a].(size := m[a].size + TRUE_SIZE + m[b].size)];
    if after < pool.EndPtr() && after in m then m1[after := m[after].(prevPhyAlloc := a)] else m1
  }

  lemma AbsorbSelf(m: Memory, pools: seq<TLSFPool>, i: nat, a: Ptr)
    requires CanAbsorb(m, pools, i, a)
    ensures NextPhy(m, a) in m && m[a].size + TRUE_SIZE + m[NextPhy(m, a)].size < 0x8000_0000
    ensures a in Absorb(m, pools[i], a) && BlockOk(Absorb(m, pools[i], a), pools[i], a)
  {
    AbsorbFits(m, pools, i, a);
    var b := NextPhy(m, a);
    var m', after, prev := Absorb(m, pools[i], a), NextPhy(m, b), m[a].prevPhyAlloc;
    assert after != a && after != b && NextPhy(m', a) == after && m'[a].prevPhyAlloc == prev;
    if prev != 0 {
      assert prev != a && prev != b && NextPhy(m', prev) == NextPhy(m, prev);
    }
  }

  lemma AbsorbOther(m: Memory, pools: seq<TLSFPool>, i: nat, a: Ptr, j: nat, x: Ptr)
    requires CanAbsorb(m, pools, i, a)
    requires j < |pools| && x in m && pools[j].Contains(x) && x != a && x != NextPhy(m, a)
    ensures NextPhy(m, a) in m && m[a].size + TRUE_SIZE + m[NextPhy(m, a)].size < 0x8000_0000
    ensures x in Absorb(m, pools[i], a) && BlockOk(Absorb(m, pools[i], a), pools[j], x)
  {
    AbsorbFits(m, pools, i, a);
    var pool, b := pools[i], NextPhy(m, a);
    var m', after := Absorb(m, pool, a), NextPhy(m, b);
    assert BlockOk(m, pools[j], x);
    var next, prev := NextPhy(m, x), m[x].prevPhyAlloc;
    assert NextPhy(m', x) == next;
    if next < pools[j].EndPtr() {
      assert m[next].prevPhyAlloc == x;
      assert next != b && m'[next].prevPhyAlloc == x;
    }
    if x == after && x < pool.EndPtr() {
      assert m'[x].prevPhyAlloc == a && NextPhy(m', a) == x;
    } else {
      assert m'[x].prevPhyAlloc == prev;
      if prev == a || prev == b {
      } else if prev != 0 {
        assert NextPhy(m', prev) == NextPhy(m, prev);
      }
    }
  }

  lemma AbsorbDisjoint(m: Memory, pools: seq<TLSFPool>, i: nat, a: Ptr)
    requires CanAbsorb(m, pools, i, a)
    ensures NextPhy(m, a) in m && m[a].size + TRUE_SIZE + m[NextPhy(m, a)].size < 0x8000_0000
    ensures Disjoint(Absorb(m, pools[i], a))
  {
    AbsorbFits(m, pools, i, a);
    var b := NextPhy(m, a);
    var m' := Absorb(m, pools[i], a);
    forall x, y | x in m' && y in m' && x < y
      ensures NextPhy(m', x) <= y
    {
      Apart(m, x, y);
      if x == a {
        assert b < y;
        Apart(m, b, y);
      }
    }
  }

  lemma AbsorbPhys(m: Memory, pools: seq<TLSFPool>, i: nat, a: Ptr)
    requires CanAbsorb(m, pools, i, a)
    ensures NextPhy(m, a) in m && m[a].size + TRUE_SIZE + m[NextPhy(m, a)].size < 0x8000_0000
    ensures PhysOk(Absorb(m, pools[i], a), pools)
  {
    AbsorbFits(m, pools, i, a);
    var b := NextPhy(m, a);
    var m' := Absorb(m, pools[i], a);
    assert m'.Keys == m.Keys - {b};
    forall j | 0 <= j < |pools|
      ensures pools[j].ptr in m'
    {
      if pools[j].Contains(b) {
      }
    }
    forall j, x | 0 <= j < |pools| && x in m' && pools[j].Contains(x)
      ensures BlockOk(m', pools[j], x)
    {
      if x == a {
        AbsorbSelf(m, pools, i, a);
      } else {
        AbsorbOther(m, pools, i, a, j, x);
      }
    }
    AbsorbDisjoint(m, pools, i, a);
  }

  // ---------------------------------------------------------------- free blocks under splitting and merging

  /** The same memory with block c counted as allocated. */
  ghost function Held(m: Memory, c: Ptr): Memory
    requires c in m
  {
    m[c := m[c].(free := false)]
  }

  /** The same memory with the block behind c pointing back to c. */
  function WithBack(m: Memory, pool: TLSFPool, c: Ptr): Memory
    requires c in m
  {
    var next := NextPhy(m, c);
    if next < pool.EndPtr() && next in m then m[next := m[next].(prevPhyAlloc := c)] else m
  }

  lemma SameFree(m: Memory, m': Memory, a: Ptr, listed: set<Ptr>)
    requires SameLayout(m, m') && a in m && FreeOk(Held(m, a), listed)
    ensures FreeOk(Held(m', a), listed)
  {
    forall x | x in listed
      ensures Held(m', a)[x].prevPhyAlloc !in listed
    {
      assert Held(m', a)[x].prevPhyAlloc == Held(m, a)[x].prevPhyAlloc;
    }
  }

  lemma FreeIsListed(m: Memory, a: Ptr, x: Ptr, listed: set<Ptr>)
    requires a in m && x in m && x != a && FreeOk(Held(m, a), listed)
    ensures m[x].free <==> x in listed
  {
  }

  lemma PrevNotListed(m: Memory, a: Ptr, prev: Ptr, listed: set<Ptr>)
    requires a in m && prev != a && FreeOk(Held(m, a), listed)
    requires prev in m ==> !m[prev].free
    ensures prev !in listed
  {
  }

  lemma SameLiveBlocks(m: Memory, m': Memory)
    requires m.Keys == m'.Keys
    requires forall a | a in m :: m'[a].size == m[a].size && m'[a].free == m[a].free && m'[a].payload == m[a].payload
    ensures LiveBlocks(m') == LiveBlocks(m)
  {
  }

  lemma SplitSizes(m: Memory, pools: seq<TLSFPool>, i: nat, a: Ptr, size: Size31, payload: Payload)
    requires CanSplit(m, pools, i, a, size)
    ensures var m' := Split(m, pools[i], a, size, payload); var rest := a + TRUE_SIZE + size;
      && rest !in m && a in m' && m'[a].size == size && m'[a].free == m[a].free
      && rest in m' && m'[rest].free && m'[rest].size >= 16
  {
    SplitFresh(m, pools, i, a, size);
  }

  /** Blocks other than the one split are as they were, but for a back pointer. */
  lemma SplitOthers(m: Memory, pools: seq<TLSFPool>, i: nat, a: Ptr, size: Size31, payload: Payload, links: LinkTable, rank: map<Ptr, int>)
    requires CanSplit(m, pools, i, a, size) && ListsOk(m, links, rank) && a !in rank
    ensures var m' := Split(m, pools[i], a, size, payload);
      forall b | b in rank ::
        b in m && b in m' && m'[b].size == m[b].size && m'[b].free == m[b].free && m'[b].payload == m[b].payload
  {
    ListedInMemory(m, links, rank);
    SplitFresh(m, pools, i, a, size);
  }

  lemma SplitLive(m: Memory, pools: seq<TLSFPool>, i: nat, a: Ptr, size: Size31, payload: Payload)
    requires CanSplit(m, pools, i, a, size) && m[a].free
    ensures LiveBlocks(Split(m, pools[i], a, size, payload)) == LiveBlocks(m)
  {
    SplitFresh(m, pools, i, a, size);
  }

  /** After a split the rest may be listed: its neighbours are the block kept and an allocated block. */
  lemma SplitFree(m: Memory, pools: seq<TLSFPool>, i: nat, a: Ptr, size: Size31, payload: Payload, listed: set<Ptr>)
    requires CanSplit(m, pools, i, a, size) && a !in listed && FreeOk(m, listed + {a})
    ensures var m' := Split(m, pools[i], a, size, payload);
      && a in m' && FreeOk(Held(m', a), listed + {a + TRUE_SIZE + size})
      && LiveBlocks(m') == LiveBlocks(m)
  {
    hide LiveBlocks;
    SplitFresh(m, pools, i, a, size);
    SplitLive(m, pools, i, a, size, payload);
    var rest := a + TRUE_SIZE + size;
    var m' := Split(m, pools[i], a, size, payload);
    var h, listed' := Held(m', a), listed + {rest};
    forall x | x in listed' && x in h
      ensures h[x].prevPhyAlloc !in listed'
    {
      if x != rest {
        SplitNeighbour(m, pools, i, a, size, x);
        assert m[x].prevPhyAlloc !in listed + {a};
      }
    }
  }

  /** No block points back to an address that is not a block. */
  lemma SplitNeighbour(m: Memory, pools: seq<TLSFPool>, i: nat, a: Ptr, size: Size31, x: Ptr)
    requires CanSplit(m, pools, i, a, size) && x in m
    ensures m[x].prevPhyAlloc != a + TRUE_SIZE + size
  {
    SplitFresh(m, pools, i, a, size);
    PrevIsBefore(m, pools, x);
  }

  /** Merging a freed block into a free block before it. */
  lemma MergePrev(m: Memory, pools: seq<TLSFPool>, i: nat, a: Ptr, p: Ptr, listed: set<Ptr>)
    requires PoolsOk(pools) && PhysOk(m, pools) && i < |pools| && a in m && pools[i].Contains(a)
    requires p == m[a].prevPhyAlloc && p != 0 && m[a].free
    requires p !in listed && a !in listed && FreeOk(Held(m, a), listed + {p})
    ensures p in m && NextPhy(m, p) == a && pools[i].Contains(p) && m[p].size + TRUE_SIZE + m[a].size < 0x8000_0000
    ensures var m' := (m - {a})[p := m[p].(size := m[p].size + TRUE_SIZE + m[a].size)];
      && PhysOk(WithBack(m', pools[i], p), pools)
      && FreeOk(Held(WithBack(m', pools[i], p), p), listed)
      && m'[p].prevPhyAlloc !in listed && m'[p].prevPhyAlloc == m[p].prevPhyAlloc
      && LiveBlocks(m') == LiveBlocks(m)
  {
    assert BlockOk(m, pools[i], a);
    assert NextPhy(m, p) == a;
    AbsorbPhys(m, pools, i, p);
    AbsorbFits(m, pools, i, p);
    var m' := (m - {a})[p := m[p].(size := m[p].size + TRUE_SIZE + m[a].size)];
    assert NextPhy(m', p) == NextPhy(m, a);
    assert WithBack(m', pools[i], p) == Absorb(m, pools[i], p);
    var h := Held(m, a);
    assert h[p].prevPhyAlloc !in listed + {p};
    MergePrevFree(m, pools[i], a, p, listed);
  }

  lemma MergePrevFree(m: Memory, pool: TLSFPool, a: Ptr, p: Ptr, listed: set<Ptr>)
    requires a in m && p in m && p != a && m[a].free && p !in listed && a !in listed && FreeOk(Held(m, a), listed + {p})
    requires m[p].size + TRUE_SIZE + m[a].size < 0x8000_0000
    ensures var m' := (m - {a})[p := m[p].(size := m[p].size + TRUE_SIZE + m[a].size)];
      FreeOk(Held(WithBack(m', pool, p), p), listed) && LiveBlocks(m') == LiveBlocks(m)
  {
    var m' := (m - {a})[p := m[p].(size := m[p].size + TRUE_SIZE + m[a].size)];
    var h := Held(WithBack(m', pool, p), p);
    var h0 := Held(m, a);
    forall x | x in h
      ensures h[x].free <==> x in listed
      ensures x in listed ==> h[x].prevPhyAlloc !in listed
    {
      assert x in h0 && (h0[x].free <==> x in listed + {p});
      assert x in listed ==> h0[x].prevPhyAlloc !in listed + {p};
    }
  }

  lemma AbsorbLive(m: Memory, pool: TLSFPool, c: Ptr)
    requires c in m && m[c].free && NextPhy(m, c) in m && NextPhy(m, c) != c && m[NextPhy(m, c)].free
    requires m[c].size + TRUE_SIZE + m[NextPhy(m, c)].size < 0x8000_0000
    ensures LiveBlocks(Absorb(m, pool, c)) == LiveBlocks(m)
  {
  }

  /** Merging a free block into the freed block before it. */
  lemma MergeNext(m: Memory, pools: seq<TLSFPool>, i: nat, c: Ptr, listed: set<Ptr>)
    requires PoolsOk(pools) && i < |pools| && c in m && pools[i].Contains(c) && m[c].free
    requires PhysOk(WithBack(m, pools[i], c), pools)
    requires var next := NextPhy(m, c);
      && next < pools[i].EndPtr() && next in m && next !in listed && m[next].free
      && FreeOk(Held(WithBack(m, pools[i], c), c), listed + {next})
    requires c !in listed && m[c].prevPhyAlloc !in listed
    ensures m[c].size + TRUE_SIZE + m[NextPhy(m, c)].size < 0x8000_0000
    ensures var m' := Absorb(m, pools[i], c); var after := NextPhy(m, NextPhy(m, c));
      && PhysOk(m', pools) && FreeOk(m', listed + {c}) && LiveBlocks(m') == LiveBlocks(m)
      && after != c && after != NextPhy(m, c) && (after < pools[i].EndPtr() ==> after in m)
  {
    hide LiveBlocks;
    var next := NextPhy(m, c);
    var w := WithBack(m, pools[i], c);
    assert next != c && NextPhy(w, c) == next;
    AbsorbFits(w, pools, i, c);
    AbsorbPhys(w, pools, i, c);
    assert NextPhy(w, next) == NextPhy(m, next);
    var m' := Absorb(m, pools[i], c);
    assert m' == Absorb(w, pools[i], c);
    AbsorbLive(m, pools[i], c);
    var h := Held(w, c);
    forall x | x in m'
      ensures m'[x].free <==> x in listed + {c}
      ensures x in listed + {c} ==> m'[x].prevPhyAlloc !in listed + {c}
    {
      assert x in h && (h[x].free <==> x in listed + {next});
      assert x in listed ==> h[x].prevPhyAlloc !in listed + {next};
      if x in listed && m'[x].prevPhyAlloc == c {
        MergedNeighbour(m, w, pools, i, c, x);
        assert false;
      }
      SelfPrev(w, pools, i, c);
    }
  }

  lemma SelfPrev(m: Memory, pools: seq<TLSFPool>, i: nat, c: Ptr)
    requires PhysOk(m, pools) && i < |pools| && c in m && pools[i].Contains(c)
    ensures m[c].prevPhyAlloc != c
  {
    assert BlockOk(m, pools[i], c);
  }

  /** Only the blocks behind c point back to it, and the block behind a listed one is not listed. */
  lemma MergedNeighbour(m: Memory, w: Memory, pools: seq<TLSFPool>, i: nat, c: Ptr, x: Ptr)
    requires PoolsOk(pools) && PhysOk(w, pools) && i < |pools| && c in m && pools[i].Contains(c)
    requires w == WithBack(m, pools[i], c) && NextPhy(m, c) < pools[i].EndPtr() && NextPhy(m, c) in m && NextPhy(m, c) != c
    requires m[c].size + TRUE_SIZE + m[NextPhy(m, c)].size < 0x8000_0000
    requires x in Absorb(m, pools[i], c) && Absorb(m, pools[i], c)[x].prevPhyAlloc == c && x != c
    ensures x in w && w[x].prevPhyAlloc == NextPhy(m, c)
  {
    var next := NextPhy(m, c);
    AbsorbFits(w, pools, i, c);
    var after := NextPhy(w, next);
    if x != after || after >= pools[i].EndPtr() {
      PrevIsBefore(w, pools, x);
      assert false;
    } else {
      assert BlockOk(w, pools[i], next);
    }
  }

  lemma LevelInTable(m: Memory, a: Ptr)
    requires a in m && m[a].size >= 16
    ensures LevelOf(m, a).InTable()
    ensures QueryLevelSize(LevelOf(m, a)) <= m[a].size
  {
    InsertLevelBounds(m[a].size);
  }

  lemma PushKeepsLive(m: Memory, links: LinkTable, rank: map<Ptr, int>, a: Ptr)
    requires ListsOk(m, links, rank) && a in m && a !in rank && m[a].free && LevelOf(m, a).InTable()
    ensures LiveBlocks(Push(m, links, a, LevelOf(m, a))) == LiveBlocks(m)
  {
    hide QueryBitmapLevelForInsert;
    var head := HeadOf(links, LevelOf(m, a));
    assert HeadOk(m, rank, LevelOf(m, a), head);
    if head != 0 {
      assert ListedOk(m, links, rank, head);
    }
    SameLive(m, Push(m, links, a, LevelOf(m, a)));
  }

  lemma BlockSize(m: Memory, pools: seq<TLSFPool>, a: Ptr)
    requires PhysOk(m, pools) && a in m
    ensures InSomePool(pools, a)
    ensures m[a].size >= 16 && m[a].size % 16 == 0 && a > 0
  {
    assert InSomePool(pools, a);
    var j :| 0 <= j < |pools| && pools[j].Contains(a);
    assert BlockOk(m, pools[j], a);
  }

  lemma BackAlready(m: Memory, pools: seq<TLSFPool>, i: nat, a: Ptr)
    requires PhysOk(m, pools) && i < |pools| && a in m && pools[i].Contains(a)
    ensures WithBack(m, pools[i], a) == m
    ensures var prev := m[a].prevPhyAlloc; prev != a && (if prev == 0 then prev !in m else prev in m && pools[i].Contains(prev))
  {
    assert BlockOk(m, pools[i], a);
    var next := NextPhy(m, a);
    if next < pools[i].EndPtr() {
      assert m[next].(prevPhyAlloc := a) == m[next];
    }
  }

  lemma BackInMemory(m: Memory, pools: seq<TLSFPool>, i: nat, c: Ptr)
    requires i < |pools| && c in m && pools[i].Contains(c) && PhysOk(WithBack(m, pools[i], c), pools)
    requires NextPhy(m, c) < pools[i].EndPtr()
    ensures NextPhy(m, c) in m && NextPhy(m, c) != c
  {
    var w := WithBack(m, pools[i], c);
    assert BlockOk(w, pools[i], c);
    assert NextPhy(w, c) == NextPhy(m, c);
  }

  /** Links of listed blocks do not matter to the layout around c. */
  lemma SameAround(m: Memory, m': Memory, pools: seq<TLSFPool>, i: nat, c: Ptr, listed: set<Ptr>)
    requires SameLayout(m, m') && i < |pools| && c in m
    requires PhysOk(WithBack(m, pools[i], c), pools) && FreeOk(Held(WithBack(m, pools[i], c), c), listed)
    ensures PhysOk(WithBack(m', pools[i], c), pools) && FreeOk(Held(WithBack(m', pools[i], c), c), listed)
  {
    var w, w' := WithBack(m, pools[i], c), WithBack(m', pools[i], c);
    SamePhysOk(w, w', pools);
    SameFree(w, w', c, listed);
  }

  /** With an allocated block, or the end of the pool, behind it a merged block may be listed. */
  lemma NoNext(m: Memory, pools: seq<TLSFPool>, i: nat, c: Ptr, listed: set<Ptr>)
    requires PoolsOk(pools) && PhysOk(m, pools) && i < |pools| && c in m && pools[i].Contains(c) && m[c].free
    requires NextPhy(m, c) < pools[i].EndPtr() && NextPhy(m, c) in m ==> !m[NextPhy(m, c)].free
    requires FreeOk(Held(m, c), listed) && m[c].prevPhyAlloc !in listed
    ensures FreeOk(m, listed + {c})
  {
    var h := Held(m, c);
    forall x | x in listed
      ensures m[x].prevPhyAlloc !in listed + {c}
    {
      assert h[x].prevPhyAlloc !in listed;
      if m[x].prevPhyAlloc == c {
        PrevIsBefore(m, pools, x);
        BehindInPool(m, pools, i, c, x);
      }
    }
    SelfPrev(m, pools, i, c);
  }

  lemma BehindInPool(m: Memory, pools: seq<TLSFPool>, i: nat, c: Ptr, x: Ptr)
    requires PoolsOk(pools) && PhysOk(m, pools) && i < |pools| && c in m && pools[i].Contains(c)
    requires x in m && m[x].prevPhyAlloc == c
    ensures x == NextPhy(m, c) && x < pools[i].EndPtr()
  {
    assert InSomePool(pools, x);
    var j :| 0 <= j < |pools| && pools[j].Contains(x);
    assert BlockOk(m, pools[j], x);
  }

  lemma SameFreeAll(m: Memory, m': Memory, listed: set<Ptr>)
    requires SameLayout(m, m') && FreeOk(m, listed)
    ensures FreeOk(m', listed)
  {
    forall x | x in listed
      ensures m'[x].prevPhyAlloc !in listed
    {
      assert m'[x].prevPhyAlloc == m[x].prevPhyAlloc;
    }
  }

  /** A listed block leaves the free blocks when it is marked allocated. */
  lemma PoppedFree(m: Memory, a: Ptr, listed: set<Ptr>)
    requires a in m && a !in listed && FreeOk(m, listed + {a})
    ensures FreeOk(Held(m, a), listed)
  {
    forall x | x in listed
      ensures m[x].prevPhyAlloc !in listed
    {
      assert m[x].prevPhyAlloc !in listed + {a};
    }
  }

  /** `initialize`: the whole pool becomes one free block. */
  ghost function WithPool(m: Memory, pool: TLSFPool): Memory
    requires pool.Usable()
  {
    m[pool.ptr := AllocHeader(0, pool.capacity - TRUE_SIZE, true, UserData([]))]
  }

  /** A pool that does not overlap the ones already there. */
  ghost predicate Separate(pools: seq<TLSFPool>, pool: TLSFPool) {
    pool.Usable() && forall p | p in pools :: pool.EndPtr() <= p.ptr || p.EndPtr() <= pool.ptr
  }

  lemma AddPool(m: Memory, pools: seq<TLSFPool>, pool: TLSFPool, listed: set<Ptr>)
    requires PoolsOk(pools) && PhysOk(m, pools) && FreeOk(m, listed) && Separate(pools, pool)
    ensures pool.ptr !in m
    ensures PoolsOk(pools + [pool]) && PhysOk(WithPool(m, pool), pools + [pool])
    ensures FreeOk(WithPool(m, pool), listed + {pool.ptr}) && LiveBlocks(WithPool(m, pool)) == LiveBlocks(m)
  {
    hide LiveBlocks, FreeOk, BlockOk, InSomePool, Disjoint;
    if pool.ptr in m {
      OldBlockOutside(m, pools, pool, pool.ptr);
    }
    AddPoolPhys(m, pools, pool);
    AddPoolDisjoint(m, pools, pool);
    AddPoolFree(m, pools, pool, listed);
  }

  lemma AddPoolFree(m: Memory, pools: seq<TLSFPool>, pool: TLSFPool, listed: set<Ptr>)
    requires PhysOk(m, pools) && FreeOk(m, listed) && Separate(pools, pool) && pool.ptr !in m
    ensures FreeOk(WithPool(m, pool), listed + {pool.ptr}) && LiveBlocks(WithPool(m, pool)) == LiveBlocks(m)
  {
    var m' := WithPool(m, pool);
    forall a | a in listed + {pool.ptr}
      ensures m'[a].prevPhyAlloc !in listed + {pool.ptr}
    {
      if a != pool.ptr {
        OldBlockOutside(m, pools, pool, a);
      }
    }
  }

  lemma AddPoolDisjoint(m: Memory, pools: seq<TLSFPool>, pool: TLSFPool)
    requires PhysOk(m, pools) && Separate(pools, pool) && pool.ptr !in m
    ensures Disjoint(WithPool(m, pool))
  {
    var m' := WithPool(m, pool);
    forall a, b | a in m' && b in m' && a < b
      ensures NextPhy(m', a) <= b
    {
      if a == pool.ptr {
        OldBlockOutside(m, pools, pool, b);
      } else if b == pool.ptr {
        OldBlockOutside(m, pools, pool, a);
      } else {
        Apart(m, a, b);
      }
    }
  }

  lemma AddPoolPhys(m: Memory, pools: seq<TLSFPool>, pool: TLSFPool)
    requires PhysOk(m, pools) && Separate(pools, pool) && pool.ptr !in m
    ensures forall a | a in WithPool(m, pool) :: InSomePool(pools + [pool], a)
    ensures forall i, a | 0 <= i < |pools + [pool]| && a in WithPool(m, pool) && (pools + [pool])[i].Contains(a) ::
      BlockOk(WithPool(m, pool), (pools + [pool])[i], a)
  {
    var pools', m', n := pools + [pool], WithPool(m, pool), |pools|;
    forall a | a in m'
      ensures InSomePool(pools', a)
    {
      if a == pool.ptr {
        assert pools'[n].Contains(a);
      } else {
        OldBlockOutside(m, pools, pool, a);
      }
    }
    forall i, a | 0 <= i < |pools'| && a in m' && pools'[i].Contains(a)
      ensures BlockOk(m', pools'[i], a)
    {
      assert i < n ==> pools'[i] in pools;
      if a != pool.ptr {
        OldBlockOutside(m, pools, pool, a);
        assert i < n && BlockOk(m, pools[i], a);
      }
    }
  }

  lemma OldBlockOutside(m: Memory, pools: seq<TLSFPool>, pool: TLSFPool, a: Ptr)
    requires PhysOk(m, pools) && a in m && Separate(pools, pool)
    ensures !(pool.ptr <= a < pool.EndPtr()) && InSomePool(pools + [pool], a)
    ensures a < pool.ptr ==> NextPhy(m, a) <= pool.ptr
    ensures m[a].prevPhyAlloc != pool.ptr
  {
    assert InSomePool(pools, a);
    var j :| 0 <= j < |pools| && pools[j].Contains(a);
    assert pools[j] in pools && BlockOk(m, pools[j], a);
    assert (pools + [pool])[j].Contains(a);
  }

}
