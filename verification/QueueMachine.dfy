/**
  The bounded lock-free queue of util/LockFreeQueue.h under any interleaving of any number of threads.

  Every atomic load, compare-exchange and store, and every access to a node's value, is one step of one
  thread. Indices are unbounded, and `None` stands for the constant that never equals an index.
 */
module QueueMachine {
  import opened Ring
  import opened Wrappers

  datatype Node<T> = Node(val: Option<T>, readIndex: Option<nat>, storeIndex: nat)

  type Tid = nat

  /** Where a thread is inside Push, Pop, Empty or Size, with the locals that matter there. */
  datatype Pc<T> =
    | Idle
    | PushLoadTail(v: T)
    | PushLoadStoreIndex(v: T, tail: nat)
    | PushCas(v: T, tail: nat)
    | PushWrite(v: T, ticket: nat)
    | PushPublish(v: T, ticket: nat)
    | PushDone(v: T, at: Option<nat>)
    | PopLoadHead
    | PopLoadReadIndex(head: nat)
    | PopCas(head: nat)
    | PopMove(ticket: nat)
    | PopDestroy(ticket: nat, v: T)
    | PopRelease(ticket: nat, v: T)
    | PopDone(result: Option<(nat, T)>)
    | EmptyLoadHead
    | EmptyLoadReadIndex(head: nat)
    | EmptyDone(empty: bool)
    | SizeLoadHead
    | SizeLoadTail(head: nat)
    | SizeDone(size: int)

  /**
    `pushed` lists the values of the successful tail exchanges in order, so the ticket of a push is its
    position there; `popped` records what each head ticket took out of the queue. A push or pop that has
    returned true remembers its ticket, one that has returned false has none.
   */
  datatype State<T> = State(
    capacity: nat,
    nodes: seq<Node<T>>,
    head: nat,
    tail: nat,
    pcs: map<Tid, Pc<T>>,
    pushed: seq<T>,
    popped: map<nat, T>)

  function PcOf<T>(s: State<T>, t: Tid): Pc<T> {
    if t in s.pcs then s.pcs[t] else Idle
  }

  function WithPc<T>(s: State<T>, t: Tid, pc: Pc<T>): State<T> {
    s.(pcs := s.pcs[t := pc])
  }

  /** `index & _capacityMask`. */
  function NodeIndex<T>(s: State<T>, index: nat): (i: nat)
    requires s.capacity >= 1
    ensures i < s.capacity
  {
    Slot(index, s.capacity)
  }

  ghost predicate Shape<T>(s: State<T>) {
    s.capacity >= 1 && |s.nodes| == s.capacity
  }

  function NodeAt<T>(s: State<T>, index: nat): Node<T>
    requires Shape(s)
  {
    s.nodes[NodeIndex(s, index)]
  }

  function WithNode<T>(s: State<T>, index: nat, node: Node<T>): State<T>
    requires Shape(s)
  {
    s.(nodes := s.nodes[NodeIndex(s, index) := node])
  }

  // ---------------------------------------------------------------- steps

  datatype Call<T> = CallPush(v: T) | CallPop | CallEmpty | CallSize

  /** An idle thread, or one whose last call has returned, calls an operation. */
  function Invoke<T>(s: State<T>, t: Tid, call: Call<T>): State<T> {
    WithPc(s, t, match call
                 case CallPush(v) => PushLoadTail(v)
                 case CallPop => PopLoadHead
                 case CallEmpty => EmptyLoadHead
                 case CallSize => SizeLoadHead)
  }

  predicate Resting<T>(pc: Pc<T>) {
    pc.Idle? || pc.PushDone? || pc.PopDone? || pc.EmptyDone? || pc.SizeDone?
  }

  /** One step of Push; a weak compare-exchange may fail for no reason. */
  function PushStep<T>(s: State<T>, t: Tid, spurious: bool): State<T>
    requires Shape(s)
  {
    match PcOf(s, t)
    case PushLoadTail(v) => WithPc(s, t, PushLoadStoreIndex(v, s.tail))
    case PushLoadStoreIndex(v, tail) =>
      WithPc(s, t, if NodeAt(s, tail).storeIndex != tail then PushDone(v, None) else PushCas(v, tail))
    case PushCas(v, tail) =>
      if s.tail == tail && !spurious then
        WithPc(s.(tail := tail + 1, pushed := s.pushed + [v]), t, PushWrite(v, tail))
      else WithPc(s, t, PushLoadTail(v))
    case PushWrite(v, ticket) =>
      WithPc(WithNode(s, ticket, NodeAt(s, ticket).(val := Some(v))), t, PushPublish(v, ticket))
    case PushPublish(v, ticket) =>
      WithPc(WithNode(s, ticket, NodeAt(s, ticket).(readIndex := Some(ticket))), t, PushDone(v, Some(ticket)))
    case _ => s
  }

  /** One step of Pop. */
  function PopStep<T>(s: State<T>, t: Tid, spurious: bool): State<T>
    requires Shape(s)
  {
    match PcOf(s, t)
    case PopLoadHead => WithPc(s, t, PopLoadReadIndex(s.head))
    case PopLoadReadIndex(head) =>
      WithPc(s, t, if NodeAt(s, head).readIndex != Some(head) then PopDone(None) else PopCas(head))
    case PopCas(head) =>
      if s.head == head && !spurious then WithPc(s.(head := head + 1), t, PopMove(head))
      else WithPc(s, t, PopLoadHead)
    case PopMove(ticket) =>
      (match NodeAt(s, ticket).val
       case Some(v) => WithPc(s.(popped := s.popped[ticket := v]), t, PopDestroy(ticket, v))
       case None => s)
    case PopDestroy(ticket, v) =>
      WithPc(WithNode(s, ticket, NodeAt(s, ticket).(val := None)), t, PopRelease(ticket, v))
    case PopRelease(ticket, v) =>
      WithPc(WithNode(s, ticket, NodeAt(s, ticket).(storeIndex := ticket + s.capacity)), t, PopDone(Some((ticket, v))))
    case _ => s
  }

  /** One step of Empty or Size. */
  function QueryStep<T>(s: State<T>, t: Tid): State<T>
    requires Shape(s)
  {
    match PcOf(s, t)
    case EmptyLoadHead => WithPc(s, t, EmptyLoadReadIndex(s.head))
    case EmptyLoadReadIndex(head) => WithPc(s, t, EmptyDone(NodeAt(s, head).readIndex != Some(head)))
    case SizeLoadHead => WithPc(s, t, SizeLoadTail(s.head))
    case SizeLoadTail(head) => WithPc(s, t, SizeDone(s.tail - head))
    case _ => s
  }

  ghost predicate Next<T(!new)>(s: State<T>, s': State<T>) {
    && Shape(s)
    && (|| (exists t: Tid, call: Call<T> :: Resting(PcOf(s, t)) && s' == Invoke(s, t, call))
        || (exists t: Tid, spurious: bool :: s' == PushStep(s, t, spurious))
        || (exists t: Tid, spurious: bool :: s' == PopStep(s, t, spurious))
        || (exists t: Tid :: s' == QueryStep(s, t)))
  }

  /** What the constructor leaves: node i is ready for ticket i and published for nobody. */
  ghost predicate Init<T>(s: State<T>) {
    && Shape(s) && s.head == 0 && s.tail == 0 && s.pcs == map[] && s.pushed == [] && s.popped == map[]
    && forall i | 0 <= i < s.capacity :: s.nodes[i].storeIndex == i && s.nodes[i].readIndex == None
  }

  // ---------------------------------------------------------------- invariant

  predicate Writing<T>(pc: Pc<T>) {
    pc.PushWrite? || pc.PushPublish?
  }

  predicate Reading<T>(pc: Pc<T>) {
    pc.PopMove? || pc.PopDestroy? || pc.PopRelease?
  }

  predicate Writes<T>(pc: Pc<T>, ticket: nat) {
    Writing(pc) && pc.ticket == ticket
  }

  predicate Reads<T>(pc: Pc<T>, ticket: nat) {
    Reading(pc) && pc.ticket == ticket
  }

  ghost predicate HasWriter<T>(s: State<T>, ticket: nat) {
    exists t :: t in s.pcs && Writes(s.pcs[t], ticket)
  }

  ghost predicate HasReader<T>(s: State<T>, ticket: nat) {
    exists t :: t in s.pcs && Reads(s.pcs[t], ticket)
  }

  ghost predicate CountersOk<T>(s: State<T>) {
    && s.head <= s.tail <= s.head + s.capacity
    && |s.pushed| == s.tail
  }

  /** Ticket S of a node is in one of four phases: free, being written, published, being read. */
  ghost predicate NodeOk<T>(s: State<T>, i: nat)
    requires Shape(s) && CountersOk(s) && i < s.capacity
  {
    var node := s.nodes[i];
    var ticket := node.storeIndex;
    && NodeIndex(s, ticket) == i
    && s.tail <= ticket + s.capacity && ticket < s.tail + s.capacity
    && (node.readIndex.Some? ==> node.readIndex.value <= ticket && node.readIndex.value < s.tail)
    && (ticket < s.head ==> node.readIndex == Some(ticket) && HasReader(s, ticket))
    && (ticket < s.tail && node.readIndex != Some(ticket) ==> HasWriter(s, ticket))
    && (s.head <= ticket < s.tail && node.readIndex == Some(ticket) ==> node.val == Some(s.pushed[ticket]))
  }

  /** Every ticket between head and tail is what its node is working on. */
  ghost predicate TicketsOk<T>(s: State<T>)
    requires Shape(s)
  {
    forall k: nat {:trigger NodeAt(s, k)} | s.head <= k < s.tail :: NodeAt(s, k).storeIndex == k
  }

  ghost predicate PcOk<T>(s: State<T>, pc: Pc<T>)
    requires Shape(s) && CountersOk(s)
  {
    match pc
    case PushLoadStoreIndex(v, tail) => tail <= s.tail
    case PushCas(v, tail) => tail <= s.tail && (tail == s.tail ==> NodeAt(s, tail).storeIndex == tail)
    case PushWrite(v, ticket) => WriterOk(s, v, ticket)
    case PushPublish(v, ticket) => WriterOk(s, v, ticket) && NodeAt(s, ticket).val == Some(v)
    case PushDone(v, Some(ticket)) => ticket < s.tail && s.pushed[ticket] == v
    case PopLoadReadIndex(head) => head <= s.head
    case PopCas(head) => head <= s.head && (head == s.head ==> NodeAt(s, head).readIndex == Some(head))
    case PopMove(ticket) => ReaderOk(s, ticket) && NodeAt(s, ticket).val == Some(s.pushed[ticket]) && ticket !in s.popped
    case PopDestroy(ticket, v) => ReaderOk(s, ticket) && TookOut(s, ticket, v)
    case PopRelease(ticket, v) => ReaderOk(s, ticket) && TookOut(s, ticket, v)
    case PopDone(Some((ticket, v))) => ticket < s.head && TookOut(s, ticket, v)
    case EmptyLoadReadIndex(head) => head <= s.head
    case SizeLoadTail(head) => head <= s.head
    case _ => true
  }

  ghost predicate WriterOk<T>(s: State<T>, v: T, ticket: nat)
    requires Shape(s) && CountersOk(s)
  {
    ticket < s.tail && NodeAt(s, ticket).storeIndex == ticket && NodeAt(s, ticket).readIndex != Some(ticket) && s.pushed[ticket] == v
  }

  ghost predicate ReaderOk<T>(s: State<T>, ticket: nat)
    requires Shape(s) && CountersOk(s)
  {
    ticket < s.head && NodeAt(s, ticket).storeIndex == ticket && NodeAt(s, ticket).readIndex == Some(ticket)
  }

  ghost predicate TookOut<T>(s: State<T>, ticket: nat, v: T)
    requires CountersOk(s)
  {
    ticket < s.head && ticket in s.popped && s.popped[ticket] == v && v == s.pushed[ticket]
  }

  /** No two threads hold the same ticket. */
  ghost predicate TicketsUnique<T>(s: State<T>) {
    forall t, u {:trigger Clash(s.pcs[t], s.pcs[u])} | t in s.pcs && u in s.pcs && t != u :: !Clash(s.pcs[t], s.pcs[u])
  }

  predicate Clash<T>(p: Pc<T>, q: Pc<T>) {
    || (Writing(p) && Writing(q) && p.ticket == q.ticket)
    || (Reading(p) && Reading(q) && p.ticket == q.ticket)
  }

  /** What has left the queue is what was pushed under the same ticket; the rest is being taken out. */
  ghost predicate PoppedOk<T>(s: State<T>)
    requires CountersOk(s)
  {
    && (forall k | k in s.popped :: k < s.head && s.popped[k] == s.pushed[k])
    && (forall k: nat {:trigger HasReader(s, k)} | k < s.head && k !in s.popped :: HasReader(s, k))
  }

  ghost predicate Inv<T>(s: State<T>) {
    && Shape(s) && CountersOk(s) && TicketsOk(s) && TicketsUnique(s) && PoppedOk(s)
    && (forall i {:trigger NodeOk(s, i)} | 0 <= i < s.capacity :: NodeOk(s, i))
    && (forall t {:trigger PcOk(s, s.pcs[t])} | t in s.pcs :: PcOk(s, s.pcs[t]))
  }

  // ---------------------------------------------------------------- initial state

  lemma InitInv<T>(s: State<T>)
    requires Init(s)
    ensures Inv(s)
  {
    forall i | 0 <= i < s.capacity
      ensures NodeOk(s, i)
    {
      SmallSlot(i, s.capacity);
    }
  }

  // ---------------------------------------------------------------- every step keeps the invariant

  /** Only thread t has moved. */
  ghost predicate OnlyMoved<T>(s: State<T>, s': State<T>, t: Tid) {
    && t in s'.pcs
    && forall u :: u != t ==> (u in s.pcs <==> u in s'.pcs) && (u in s.pcs ==> s.pcs[u] == s'.pcs[u])
  }

  /** Whoever else held a ticket still does; t holds what its new position says. */
  lemma Owners<T>(s: State<T>, s': State<T>, t: Tid)
    requires OnlyMoved(s, s', t)
    ensures forall k: nat :: HasWriter(s, k) ==> HasWriter(s', k) || Writes(PcOf(s, t), k)
    ensures forall k: nat :: HasReader(s, k) ==> HasReader(s', k) || Reads(PcOf(s, t), k)
    ensures forall k: nat :: Writes(s'.pcs[t], k) ==> HasWriter(s', k)
    ensures forall k: nat :: Reads(s'.pcs[t], k) ==> HasReader(s', k)
  {
    forall k: nat | HasWriter(s, k) && !Writes(PcOf(s, t), k)
      ensures HasWriter(s', k)
    {
      var u :| u in s.pcs && Writes(s.pcs[u], k);
      assert u in s'.pcs && Writes(s'.pcs[u], k);
    }
    forall k: nat | HasReader(s, k) && !Reads(PcOf(s, t), k)
      ensures HasReader(s', k)
    {
      var u :| u in s.pcs && Reads(s.pcs[u], k);
      assert u in s'.pcs && Reads(s'.pcs[u], k);
    }
  }

  /** Tickets stay unique if nobody else holds what t holds now. */
  lemma StillUnique<T>(s: State<T>, s': State<T>, t: Tid)
    requires OnlyMoved(s, s', t) && TicketsUnique(s)
    requires forall u :: u in s.pcs && u != t ==> !Clash(s'.pcs[t], s.pcs[u])
    ensures TicketsUnique(s')
  {
    forall x, y | x in s'.pcs && y in s'.pcs && x != y
      ensures !Clash(s'.pcs[x], s'.pcs[y])
    {
      if x != t && y != t {
        assert !Clash(s.pcs[x], s.pcs[y]);
      } else {
        var u := if x == t then y else x;
        assert !Clash(s'.pcs[t], s.pcs[u]);
      }
    }
  }

  /** Both positions hold the same ticket in the same way, or neither holds one. */
  predicate SameTicket<T>(p: Pc<T>, q: Pc<T>) {
    && (Writing(p) <==> Writing(q)) && (Reading(p) <==> Reading(q))
    && (Writing(p) || Reading(p) ==> p.ticket == q.ticket)
  }

  lemma KeepsTicket<T>(s: State<T>, s': State<T>, t: Tid)
    requires OnlyMoved(s, s', t) && TicketsUnique(s) && SameTicket(PcOf(s, t), s'.pcs[t])
    ensures TicketsUnique(s')
    ensures forall k: nat :: HasWriter(s, k) ==> HasWriter(s', k)
    ensures forall k: nat :: HasReader(s, k) ==> HasReader(s', k)
  {
    Owners(s, s', t);
    forall u | u in s.pcs && u != t
      ensures !Clash(s'.pcs[t], s.pcs[u])
    {
      assert t in s.pcs ==> !Clash(s.pcs[t], s.pcs[u]);
    }
    StillUnique(s, s', t);
  }

  predicate Owns<T>(pc: Pc<T>) {
    Writing(pc) || Reading(pc)
  }

  /** Two threads that own values own values of different nodes. */
  lemma OtherOwner<T>(s: State<T>, t: Tid, u: Tid)
    requires Inv(s) && t != u && t in s.pcs && u in s.pcs && Owns(s.pcs[t]) && Owns(s.pcs[u])
    ensures NodeIndex(s, s.pcs[t].ticket) != NodeIndex(s, s.pcs[u].ticket)
  {
    assert PcOk(s, s.pcs[t]) && PcOk(s, s.pcs[u]);
    assert !Clash(s.pcs[t], s.pcs[u]);
  }

  /** A step that only moves a thread, together with the ticket it holds. */
  lemma MovePc<T>(s: State<T>, t: Tid, pc: Pc<T>)
    requires Inv(s) && PcOk(s, pc) && SameTicket(PcOf(s, t), pc)
    ensures Inv(WithPc(s, t, pc))
  {
    var s' := WithPc(s, t, pc);
    KeepsTicket(s, s', t);
    forall k: nat | s.head <= k < s.tail
      ensures NodeAt(s', k).storeIndex == k
    {
      assert NodeAt(s, k).storeIndex == k;
    }
    forall i | 0 <= i < s.capacity
      ensures NodeOk(s', i)
    {
      assert NodeOk(s, i);
    }
    forall u | u in s'.pcs
      ensures PcOk(s', s'.pcs[u])
    {
      if u != t {
        assert PcOk(s, s.pcs[u]);
      }
    }
  }

  // ---- the tail exchange: the node of the new ticket goes from free to being written

  ghost function AfterTailCas<T>(s: State<T>, t: Tid, v: T): State<T> {
    WithPc(s.(tail := s.tail + 1, pushed := s.pushed + [v]), t, PushWrite(v, s.tail))
  }

  lemma TailCas<T>(s: State<T>, t: Tid, v: T)
    requires Inv(s) && PcOf(s, t) == PushCas(v, s.tail)
    ensures Inv(AfterTailCas(s, t, v))
  {
    hide NodeOk, PcOk, Clash;
    var s' := AfterTailCas(s, t, v);
    Owners(s, s', t);
    RoomBehindTail(s, t, v);
    forall k: nat | s'.head <= k < s'.tail
      ensures NodeAt(s', k).storeIndex == k
    {
      assert k < s.tail ==> NodeAt(s, k).storeIndex == k;
    }
    forall i | 0 <= i < s.capacity
      ensures NodeOk(s', i)
    {
      TailCasNode(s, t, v, i);
    }
    forall u | u in s'.pcs
      ensures PcOk(s', s'.pcs[u])
      ensures u != t ==> !Clash(s'.pcs[t], s.pcs[u])
    {
      TailCasPc(s, t, v, u);
    }
    StillUnique(s, s', t);
  }

  lemma RoomBehindTail<T>(s: State<T>, t: Tid, v: T)
    requires Inv(s) && PcOf(s, t) == PushCas(v, s.tail)
    ensures s.tail < s.head + s.capacity && NodeAt(s, s.tail).storeIndex == s.tail
  {
    assert PcOk(s, s.pcs[t]);
    NextRound(s.head, s.capacity);
    if s.head < s.tail {
      assert NodeAt(s, s.head).storeIndex == s.head;
    }
  }

  lemma TailCasNode<T>(s: State<T>, t: Tid, v: T, i: nat)
    requires Inv(s) && PcOf(s, t) == PushCas(v, s.tail) && i < s.capacity
    ensures CountersOk(AfterTailCas(s, t, v)) && NodeOk(AfterTailCas(s, t, v), i)
  {
    RoomBehindTail(s, t, v);
    Owners(s, AfterTailCas(s, t, v), t);
    assert NodeOk(s, i);
    NextRound(s.nodes[i].storeIndex, s.capacity);
  }

  lemma TailCasPc<T>(s: State<T>, t: Tid, v: T, u: Tid)
    requires Inv(s) && PcOf(s, t) == PushCas(v, s.tail) && u in s.pcs
    ensures CountersOk(AfterTailCas(s, t, v)) && PcOk(AfterTailCas(s, t, v), AfterTailCas(s, t, v).pcs[u])
    ensures u != t ==> !Clash(AfterTailCas(s, t, v).pcs[t], s.pcs[u])
  {
    RoomBehindTail(s, t, v);
    assert NodeOk(s, NodeIndex(s, s.tail));
    assert PcOk(s, s.pcs[u]);
  }

  // ---- a thread works on the node whose ticket it holds

  /** Only the node of ticket k differs, and only thread t has moved. */
  ghost predicate NodeStep<T>(s: State<T>, s': State<T>, t: Tid, k: nat)
    requires Shape(s)
  {
    && Shape(s') && OnlyMoved(s, s', t) && s'.capacity == s.capacity && s'.head == s.head && s'.tail == s.tail && s'.pushed == s.pushed
    && s'.nodes == s.nodes[NodeIndex(s, k) := NodeAt(s', k)]
  }

  lemma OtherNode<T>(s: State<T>, s': State<T>, t: Tid, k: nat, j: nat)
    requires Shape(s) && NodeStep(s, s', t, k) && NodeIndex(s, j) != NodeIndex(s, k)
    ensures NodeAt(s', j) == NodeAt(s, j)
  {
  }

  /** No thread but the owner depends on a node that is being written or read. */
  lemma OtherPc<T>(s: State<T>, s': State<T>, t: Tid, k: nat, u: Tid)
    requires OwnStep(s, s', t, k) && u in s.pcs && u != t
    ensures PcOk(s', s.pcs[u])
  {
    assert PcOk(s, s.pcs[u]) && PcOk(s, s.pcs[t]);
    if Owns(s.pcs[u]) {
      OtherOwner(s, t, u);
      OtherNode(s, s', t, k, s.pcs[u].ticket);
    } else if s.pcs[u].PushCas? && s.pcs[u].tail == s.tail {
      OtherNode(s, s', t, k, s.tail);
    } else if s.pcs[u].PopCas? && s.pcs[u].head == s.head {
      HeadNode(s, t, k);
      OtherNode(s, s', t, k, s.head);
    }
  }

  /** A published head ticket sits in a node nobody owns. */
  lemma HeadNode<T>(s: State<T>, t: Tid, k: nat)
    requires Inv(s) && t in s.pcs && Owns(s.pcs[t]) && s.pcs[t].ticket == k
    requires NodeAt(s, s.head).readIndex == Some(s.head)
    ensures NodeIndex(s, s.head) != NodeIndex(s, k)
  {
    assert PcOk(s, s.pcs[t]);
    assert NodeOk(s, NodeIndex(s, s.head));
    assert s.head < s.tail && NodeAt(s, s.head).storeIndex == s.head;
  }

  /** A step of the owner of ticket k on the node of that ticket. */
  ghost predicate OwnStep<T>(s: State<T>, s': State<T>, t: Tid, k: nat) {
    && Inv(s) && NodeStep(s, s', t, k) && t in s.pcs && Owns(s.pcs[t]) && s.pcs[t].ticket == k
    && s.popped.Keys <= s'.popped.Keys <= s.popped.Keys + {k} && (forall j | j in s.popped :: s'.popped[j] == s.popped[j])
    && (s.head <= k ==> NodeAt(s', k).storeIndex == k)
  }

  /** Such a step keeps the invariant if it does so for that node and that thread. */
  lemma OwnStepInv<T>(s: State<T>, s': State<T>, t: Tid, k: nat)
    requires OwnStep(s, s', t, k) && PcOk(s', s'.pcs[t]) && NodeOk(s', NodeIndex(s, k))
    requires Owns(s'.pcs[t]) ==> SameTicket(s.pcs[t], s'.pcs[t])
    requires forall j | j in s'.popped :: j < s.head && s'.popped[j] == s.pushed[j]
    requires Owns(s'.pcs[t]) || Writing(s.pcs[t]) || k in s'.popped
    ensures Inv(s')
  {
    hide PcOk;
    Owners(s, s', t);
    forall u | u in s.pcs && u != t
      ensures !Clash(s'.pcs[t], s.pcs[u])
    {
      assert !Clash(s.pcs[t], s.pcs[u]);
    }
    StillUnique(s, s', t);
    forall j: nat | s.head <= j < s.tail
      ensures NodeAt(s', j).storeIndex == j
    {
      assert NodeAt(s, j).storeIndex == j;
      OwnTicket(s, t, k);
      if NodeIndex(s, j) != NodeIndex(s, k) {
        OtherNode(s, s', t, k, j);
      }
    }
    forall i | 0 <= i < s.capacity
      ensures NodeOk(s', i)
    {
      if i != NodeIndex(s, k) {
        OtherNodeOk(s, s', t, k, i);
      }
    }
    forall u | u in s'.pcs
      ensures PcOk(s', s'.pcs[u])
    {
      if u != t {
        OtherPc(s, s', t, k, u);
      }
    }
  }

  lemma OwnTicket<T>(s: State<T>, t: Tid, k: nat)
    requires Inv(s) && t in s.pcs && Owns(s.pcs[t]) && s.pcs[t].ticket == k
    ensures NodeAt(s, k).storeIndex == k && k < s.tail
  {
    assert PcOk(s, s.pcs[t]);
  }

  lemma OtherNodeOk<T>(s: State<T>, s': State<T>, t: Tid, k: nat, i: nat)
    requires OwnStep(s, s', t, k) && i < s.capacity && i != NodeIndex(s, k)
    ensures NodeOk(s', i)
  {
    assert NodeOk(s, i);
    OwnTicket(s, t, k);
    Owners(s, s', t);
    assert s.nodes[i].storeIndex != k;
  }

  lemma WriteValue<T>(s: State<T>, t: Tid, v: T, k: nat)
    requires Inv(s) && PcOf(s, t) == PushWrite(v, k)
    ensures Inv(WithPc(WithNode(s, k, NodeAt(s, k).(val := Some(v))), t, PushPublish(v, k)))
  {
    var s' := WithPc(WithNode(s, k, NodeAt(s, k).(val := Some(v))), t, PushPublish(v, k));
    assert PcOk(s, s.pcs[t]) && NodeOk(s, NodeIndex(s, k));
    Owners(s, s', t);
    assert Writes(s'.pcs[t], k);
    OwnStepInv(s, s', t, k);
  }

  lemma Publish<T>(s: State<T>, t: Tid, v: T, k: nat)
    requires Inv(s) && PcOf(s, t) == PushPublish(v, k)
    ensures Inv(WithPc(WithNode(s, k, NodeAt(s, k).(readIndex := Some(k))), t, PushDone(v, Some(k))))
  {
    var s' := WithPc(WithNode(s, k, NodeAt(s, k).(readIndex := Some(k))), t, PushDone(v, Some(k)));
    assert PcOk(s, s.pcs[t]) && NodeOk(s, NodeIndex(s, k));
    OwnStepInv(s, s', t, k);
  }

  lemma MoveValue<T>(s: State<T>, t: Tid, k: nat, v: T)
    requires Inv(s) && PcOf(s, t) == PopMove(k) && NodeAt(s, k).val == Some(v)
    ensures Inv(WithPc(s.(popped := s.popped[k := v]), t, PopDestroy(k, v)))
  {
    var s' := WithPc(s.(popped := s.popped[k := v]), t, PopDestroy(k, v));
    assert PcOk(s, s.pcs[t]) && NodeOk(s, NodeIndex(s, k));
    Owners(s, s', t);
    assert Reads(s'.pcs[t], k);
    assert s'.nodes == s.nodes[NodeIndex(s, k) := NodeAt(s', k)];
    OwnStepInv(s, s', t, k);
  }

  lemma Destroy<T>(s: State<T>, t: Tid, k: nat, v: T)
    requires Inv(s) && PcOf(s, t) == PopDestroy(k, v)
    ensures Inv(WithPc(WithNode(s, k, NodeAt(s, k).(val := None)), t, PopRelease(k, v)))
  {
    var s' := WithPc(WithNode(s, k, NodeAt(s, k).(val := None)), t, PopRelease(k, v));
    assert PcOk(s, s.pcs[t]) && NodeOk(s, NodeIndex(s, k));
    Owners(s, s', t);
    assert Reads(s'.pcs[t], k);
    OwnStepInv(s, s', t, k);
  }

  lemma Release<T>(s: State<T>, t: Tid, k: nat, v: T)
    requires Inv(s) && PcOf(s, t) == PopRelease(k, v)
    ensures Inv(WithPc(WithNode(s, k, NodeAt(s, k).(storeIndex := k + s.capacity)), t, PopDone(Some((k, v)))))
  {
    var s' := WithPc(WithNode(s, k, NodeAt(s, k).(storeIndex := k + s.capacity)), t, PopDone(Some((k, v))));
    assert PcOk(s, s.pcs[t]) && NodeOk(s, NodeIndex(s, k));
    NextRound(k, s.capacity);
    OwnStepInv(s, s', t, k);
  }

  // ---- the head exchange: the node of the head ticket goes from published to being read

  ghost function AfterHeadCas<T>(s: State<T>, t: Tid): State<T> {
    WithPc(s.(head := s.head + 1), t, PopMove(s.head))
  }

  lemma HeadPublished<T>(s: State<T>, t: Tid)
    requires Inv(s) && PcOf(s, t) == PopCas(s.head)
    ensures s.head < s.tail && NodeAt(s, s.head) == Node(Some(s.pushed[s.head]), Some(s.head), s.head)
  {
    assert PcOk(s, s.pcs[t]);
    assert NodeOk(s, NodeIndex(s, s.head));
    assert s.head < s.tail && NodeAt(s, s.head).storeIndex == s.head;
  }

  lemma HeadCas<T>(s: State<T>, t: Tid)
    requires Inv(s) && PcOf(s, t) == PopCas(s.head)
    ensures Inv(AfterHeadCas(s, t))
  {
    hide NodeOk, PcOk, Clash;
    var s' := AfterHeadCas(s, t);
    HeadPublished(s, t);
    Owners(s, s', t);
    assert Reads(s'.pcs[t], s.head);
    forall k: nat | s'.head <= k < s'.tail
      ensures NodeAt(s', k).storeIndex == k
    {
      assert NodeAt(s, k).storeIndex == k;
    }
    forall i | 0 <= i < s.capacity
      ensures NodeOk(s', i)
    {
      HeadCasNode(s, t, i);
    }
    forall u | u in s'.pcs
      ensures PcOk(s', s'.pcs[u])
      ensures u != t ==> !Clash(s'.pcs[t], s.pcs[u])
    {
      HeadCasPc(s, t, u);
    }
    StillUnique(s, s', t);
  }

  lemma HeadCasNode<T>(s: State<T>, t: Tid, i: nat)
    requires Inv(s) && PcOf(s, t) == PopCas(s.head) && i < s.capacity
    ensures CountersOk(AfterHeadCas(s, t)) && NodeOk(AfterHeadCas(s, t), i)
  {
    HeadPublished(s, t);
    Owners(s, AfterHeadCas(s, t), t);
    assert NodeOk(s, i);
  }

  lemma HeadCasPc<T>(s: State<T>, t: Tid, u: Tid)
    requires Inv(s) && PcOf(s, t) == PopCas(s.head) && u in s.pcs
    ensures CountersOk(AfterHeadCas(s, t)) && PcOk(AfterHeadCas(s, t), AfterHeadCas(s, t).pcs[u])
    ensures u != t ==> !Clash(AfterHeadCas(s, t).pcs[t], s.pcs[u])
  {
    HeadPublished(s, t);
    assert PcOk(s, s.pcs[u]);
  }

  // ---------------------------------------------------------------- every reachable state

  lemma PushStepInv<T>(s: State<T>, t: Tid, spurious: bool)
    requires Inv(s)
    ensures Inv(PushStep(s, t, spurious))
  {
    if t in s.pcs {
      assert PcOk(s, s.pcs[t]);
      match s.pcs[t]
      case PushLoadTail(v) => MovePc(s, t, PushLoadStoreIndex(v, s.tail));
      case PushLoadStoreIndex(v, tail) =>
        MovePc(s, t, if NodeAt(s, tail).storeIndex != tail then PushDone(v, None) else PushCas(v, tail));
      case PushCas(v, tail) =>
        if s.tail == tail && !spurious {
          TailCas(s, t, v);
        } else {
          MovePc(s, t, PushLoadTail(v));
        }
      case PushWrite(v, k) => WriteValue(s, t, v, k);
      case PushPublish(v, k) => Publish(s, t, v, k);
      case _ =>
    }
  }

  lemma PopStepInv<T>(s: State<T>, t: Tid, spurious: bool)
    requires Inv(s)
    ensures Inv(PopStep(s, t, spurious))
  {
    if t in s.pcs {
      assert PcOk(s, s.pcs[t]);
      match s.pcs[t]
      case PopLoadHead => MovePc(s, t, PopLoadReadIndex(s.head));
      case PopLoadReadIndex(head) =>
        MovePc(s, t, if NodeAt(s, head).readIndex != Some(head) then PopDone(None) else PopCas(head));
      case PopCas(head) =>
        if s.head == head && !spurious {
          HeadCas(s, t);
        } else {
          MovePc(s, t, PopLoadHead);
        }
      case PopMove(k) => MoveValue(s, t, k, s.pushed[k]);
      case PopDestroy(k, v) => Destroy(s, t, k, v);
      case PopRelease(k, v) => Release(s, t, k, v);
      case _ =>
    }
  }

  lemma QueryStepInv<T>(s: State<T>, t: Tid)
    requires Inv(s)
    ensures Inv(QueryStep(s, t))
  {
    if t in s.pcs {
      match s.pcs[t]
      case EmptyLoadHead => MovePc(s, t, EmptyLoadReadIndex(s.head));
      case EmptyLoadReadIndex(head) => MovePc(s, t, EmptyDone(NodeAt(s, head).readIndex != Some(head)));
      case SizeLoadHead => MovePc(s, t, SizeLoadTail(s.head));
      case SizeLoadTail(head) => MovePc(s, t, SizeDone(s.tail - head));
      case _ =>
    }
  }

  lemma InvokeInv<T>(s: State<T>, t: Tid, call: Call<T>)
    requires Inv(s) && Resting(PcOf(s, t))
    ensures Inv(Invoke(s, t, call))
  {
    MovePc(s, t, Invoke(s, t, call).pcs[t]);
  }

  lemma NextInv<T(!new)>(s: State<T>, s': State<T>)
    requires Inv(s) && Next(s, s')
    ensures Inv(s') && Extends(s, s')
  {
    hide Inv, PushStep, PopStep, QueryStep, Invoke;
    if t: Tid, call: Call<T> :| Resting(PcOf(s, t)) && s' == Invoke(s, t, call) {
      InvokeInv(s, t, call);
      OtherStepExtends(s, t, call, false);
    } else if t: Tid, spurious: bool :| s' == PushStep(s, t, spurious) {
      PushStepInv(s, t, spurious);
      OtherStepExtends(s, t, CallPop, spurious);
    } else if t: Tid, spurious: bool :| s' == PopStep(s, t, spurious) {
      PopStepInv(s, t, spurious);
      PopStepExtends(s, t, spurious);
    } else {
      var t: Tid :| s' == QueryStep(s, t);
      QueryStepInv(s, t);
      OtherStepExtends(s, t, CallPop, false);
    }
  }

  lemma OtherStepExtends<T>(s: State<T>, t: Tid, call: Call<T>, spurious: bool)
    requires Inv(s)
    ensures Extends(s, Invoke(s, t, call)) && Extends(s, PushStep(s, t, spurious)) && Extends(s, QueryStep(s, t))
  {
  }

  /** History is only ever added to. */
  ghost predicate Extends<T>(s: State<T>, s': State<T>) {
    && s.pushed <= s'.pushed && s.head <= s'.head && s.capacity == s'.capacity
    && forall k | k in s.popped :: k in s'.popped && s'.popped[k] == s.popped[k]
  }

  lemma PopStepExtends<T>(s: State<T>, t: Tid, spurious: bool)
    requires Inv(s)
    ensures Extends(s, PopStep(s, t, spurious))
  {
    if t in s.pcs {
      assert PcOk(s, s.pcs[t]);
    }
  }

  /** A run: any finite interleaving from the state the constructor leaves. */
  ghost predicate Run<T(!new)>(trace: seq<State<T>>) {
    && |trace| >= 1 && Init(trace[0])
    && forall i | 0 <= i < |trace| - 1 :: Next(trace[i], trace[i + 1])
  }

  lemma {:induction false} RunInv<T(!new)>(trace: seq<State<T>>, i: nat)
    requires Run(trace) && i < |trace|
    ensures Inv(trace[i])
  {
    if i == 0 {
      InitInv(trace[0]);
    } else {
      RunInv(trace, i - 1);
      assert Next(trace[i - 1], trace[i - 1 + 1]);
      NextInv(trace[i - 1], trace[i]);
    }
  }

  lemma {:induction false} RunExtends<T(!new)>(trace: seq<State<T>>, i: nat, j: nat)
    requires Run(trace) && i <= j < |trace|
    ensures Extends(trace[i], trace[j])
    decreases j
  {
    hide Next, Inv;
    if i < j {
      RunExtends(trace, i, j - 1);
      RunInv(trace, j - 1);
      assert Next(trace[j - 1], trace[j - 1 + 1]);
      NextInv(trace[j - 1], trace[j]);
    }
  }

  // ---------------------------------------------------------------- what the invariant means

  /**
    First in, first out: in any interleaving, whatever the pop with head ticket k has returned at time i
    is what the push with tail ticket k put in, and it stays so at every later time j.
   */
  lemma Fifo<T(!new)>(trace: seq<State<T>>, i: nat, j: nat, t: Tid, k: nat, v: T)
    requires Run(trace) && i <= j < |trace|
    requires PcOf(trace[i], t) == PopDone(Some((k, v)))
    ensures k < |trace[j].pushed| && trace[j].pushed[k] == v
    ensures k in trace[j].popped && trace[j].popped[k] == v
  {
    RunInv(trace, i);
    RunExtends(trace, i, j);
    assert PcOk(trace[i], trace[i].pcs[t]);
  }

  lemma PushReturned<T>(s: State<T>, t: Tid, k: nat, v: T)
    requires Inv(s) && PcOf(s, t) == PushDone(v, Some(k))
    ensures k < |s.pushed| && s.pushed[k] == v
  {
    assert PcOk(s, s.pcs[t]);
  }

  /** The two ends meet: a push and a pop that have returned with the same ticket have the same value. */
  lemma Delivered<T(!new)>(trace: seq<State<T>>, i: nat, j: nat, t: Tid, u: Tid, k: nat, v: T, w: T)
    requires Run(trace) && i < |trace| && j < |trace|
    requires PcOf(trace[i], t) == PushDone(v, Some(k)) && PcOf(trace[j], u) == PopDone(Some((k, w)))
    ensures v == w
  {
    hide Inv, Run;
    var n := if i < j then j else i;
    Fifo(trace, j, n, u, k, w);
    RunInv(trace, i);
    RunExtends(trace, i, n);
    PushReturned(trace[i], t, k, v);
  }

  /** Nothing is lost or taken twice: a ticket below head is out of the queue or held by exactly one thread. */
  lemma TakenOnce<T>(s: State<T>, k: nat)
    requires Inv(s)
    ensures k in s.popped ==> k < s.head && s.popped[k] == s.pushed[k]
    ensures k < s.head && k !in s.popped ==> HasReader(s, k)
    ensures forall t, u | t in s.pcs && u in s.pcs && Reads(s.pcs[t], k) && Reads(s.pcs[u], k) :: t == u
    ensures forall t | t in s.pcs && s.pcs[t] == PopMove(k) :: k !in s.popped
  {
    forall t, u | t in s.pcs && u in s.pcs && Reads(s.pcs[t], k) && Reads(s.pcs[u], k)
      ensures t == u
    {
      assert t != u ==> !Clash(s.pcs[t], s.pcs[u]);
    }
    forall t | t in s.pcs && s.pcs[t] == PopMove(k)
      ensures k !in s.popped
    {
      assert PcOk(s, s.pcs[t]);
    }
  }

  datatype Phase = Free | BeingWritten | Published | BeingRead

  function PhaseOf<T>(s: State<T>, i: nat): Phase
    requires Shape(s) && i < s.capacity
  {
    var ticket := s.nodes[i].storeIndex;
    if ticket >= s.tail then Free
    else if s.nodes[i].readIndex != Some(ticket) then BeingWritten
    else if ticket >= s.head then Published
    else BeingRead
  }

  /**
    The phase of a node says who may touch its value: nobody while it is free, exactly one pusher while it
    is being written, nobody while it is published, and exactly one popper while it is being read.
   */
  lemma PhaseOwners<T>(s: State<T>, i: nat, t: Tid)
    requires Inv(s) && i < s.capacity && t in s.pcs
    ensures var ticket := s.nodes[i].storeIndex;
      && (PhaseOf(s, i) == BeingWritten ==> HasWriter(s, ticket) && s.head <= ticket)
      && (PhaseOf(s, i) == BeingRead ==> HasReader(s, ticket))
      && (PhaseOf(s, i) == Published ==> s.nodes[i].val == Some(s.pushed[ticket]))
    ensures Owns(s.pcs[t]) && NodeIndex(s, s.pcs[t].ticket) == i ==>
      && s.pcs[t].ticket == s.nodes[i].storeIndex
      && PhaseOf(s, i) == (if Writing(s.pcs[t]) then BeingWritten else BeingRead)
    ensures forall u | u in s.pcs && u != t && Owns(s.pcs[t]) && Owns(s.pcs[u]) ::
      NodeIndex(s, s.pcs[t].ticket) != NodeIndex(s, s.pcs[u].ticket)
  {
    assert NodeOk(s, i);
    assert PcOk(s, s.pcs[t]);
    forall u | u in s.pcs && u != t && Owns(s.pcs[t]) && Owns(s.pcs[u])
      ensures NodeIndex(s, s.pcs[t].ticket) != NodeIndex(s, s.pcs[u].ticket)
    {
      OtherOwner(s, t, u);
    }
  }

  /** No thread is inside an operation that holds a ticket. */
  ghost predicate Quiet<T>(s: State<T>) {
    forall t | t in s.pcs :: !Owns(s.pcs[t])
  }

  /**
    When no ticket is held the queue is exactly the values pushed and not popped, in order: each sits
    published in its node, every earlier one has been returned, and all other nodes are free.
   */
  lemma QuietContents<T>(s: State<T>)
    requires Inv(s) && Quiet(s)
    ensures forall k: nat | k < s.head :: k in s.popped && s.popped[k] == s.pushed[k]
    ensures forall k: nat | s.head <= k < s.tail :: NodeAt(s, k) == Node(Some(s.pushed[k]), Some(k), k)
    ensures forall i | 0 <= i < s.capacity :: PhaseOf(s, i) == Free || PhaseOf(s, i) == Published
  {
    forall k: nat | k < s.head
      ensures k in s.popped
    {
      assert !HasReader(s, k);
    }
    forall k: nat | s.head <= k < s.tail
      ensures NodeAt(s, k) == Node(Some(s.pushed[k]), Some(k), k)
    {
      assert NodeAt(s, k).storeIndex == k;
      assert NodeOk(s, NodeIndex(s, k));
    }
    forall i | 0 <= i < s.capacity
      ensures PhaseOf(s, i) == Free || PhaseOf(s, i) == Published
    {
      assert NodeOk(s, i);
    }
  }

  // ---------------------------------------------------------------- what a failure means

  /**
    A push that captured tail index k fails at its second load exactly if the node is not ready for k, and
    that means: other pushes have moved the tail on since, or the node still belongs to ticket
    k - capacity, which has been pushed and whose pop has not released the node.
   */
  lemma PushFails<T>(s: State<T>, t: Tid, v: T, k: nat)
    requires Inv(s) && PcOf(s, t) == PushLoadStoreIndex(v, k)
    ensures var s' := PushStep(s, t, false);
      PcOf(s', t) == PushDone(v, None) ==>
        || s.tail > k
        || (s.tail == k && k >= s.capacity && NodeAt(s, k).storeIndex == k - s.capacity
            && (s.head <= k - s.capacity || HasReader(s, k - s.capacity)))
    ensures s.tail == k && k >= s.capacity && NodeAt(s, k).storeIndex == k - s.capacity ==>
      PcOf(PushStep(s, t, false), t) == PushDone(v, None)
  {
    assert PcOk(s, s.pcs[t]);
    var ticket := NodeAt(s, k).storeIndex;
    assert NodeOk(s, NodeIndex(s, k));
    if s.tail == k && ticket != k {
      if ticket < k {
        NextRound(ticket, s.capacity);
        SameSlot(ticket + s.capacity, k, s.capacity);
      } else {
        SameSlot(ticket, k, s.capacity);
      }
    }
  }

  /**
    A pop that captured head index k fails at its second load only if other pops have moved the head on
    since, or the queue holds nothing, or ticket k has been claimed by a push that has not published it.
   */
  lemma PopFails<T>(s: State<T>, t: Tid, k: nat)
    requires Inv(s) && PcOf(s, t) == PopLoadReadIndex(k)
    ensures PcOf(PopStep(s, t, false), t) == PopDone(None) ==>
      s.head > k || s.tail == k || (s.head == k && HasWriter(s, k))
    ensures s.head == k && (s.tail == k || HasWriter(s, k)) ==> PcOf(PopStep(s, t, false), t) == PopDone(None)
  {
    assert PcOk(s, s.pcs[t]);
    assert NodeOk(s, NodeIndex(s, k));
    if s.head == k && k < s.tail {
      assert NodeAt(s, k).storeIndex == k;
    }
    if HasWriter(s, k) {
      var u :| u in s.pcs && Writes(s.pcs[u], k);
      assert PcOk(s, s.pcs[u]);
    }
  }

  /**
    What the two answers of Empty mean for the head index k it captured. "Empty": pops have moved the head on
    since, or nothing is in the queue, or the push of k has not published yet. "Not empty": k has been
    published, and its value is still in the queue unless pops have moved the head on since. As long as the
    head has not moved, the answer is "empty" exactly in the two cases named.
   */
  lemma EmptyMeaning<T>(s: State<T>, t: Tid, k: nat)
    requires Inv(s) && PcOf(s, t) == EmptyLoadReadIndex(k)
    ensures var pc := PcOf(QueryStep(s, t), t);
      && pc.EmptyDone?
      && (pc.empty ==> s.head > k || s.tail == k || (s.head == k && HasWriter(s, k)))
      && (!pc.empty ==> k < s.tail && !HasWriter(s, k) && (s.head > k || NodeAt(s, k).val == Some(s.pushed[k])))
      && (s.head == k ==> (pc.empty <==> s.tail == k || HasWriter(s, k)))
  {
    assert PcOk(s, s.pcs[t]);
    assert NodeOk(s, NodeIndex(s, k));
    if s.head == k && k < s.tail {
      assert NodeAt(s, k).storeIndex == k;
    }
    if HasWriter(s, k) {
      var u :| u in s.pcs && Writes(s.pcs[u], k);
      assert PcOk(s, s.pcs[u]);
    }
  }

  /**
    Size never underflows: it reports what is in the queue when it finishes, and on top of that as many
    values as have been popped since it loaded the head.
   */
  lemma SizeMeaning<T>(s: State<T>, t: Tid, k: nat)
    requires Inv(s) && PcOf(s, t) == SizeLoadTail(k)
    ensures k <= s.head <= s.tail
    ensures PcOf(QueryStep(s, t), t) == SizeDone(|s.pushed[s.head..]| + |s.pushed[k..s.head]|)
  {
    assert PcOk(s, s.pcs[t]);
  }
}
