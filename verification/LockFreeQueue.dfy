/** The queue of util/LockFreeQueue.h as one thread alone sees it: a bounded FIFO. */
module LockFreeQueue {
  import opened Words
  import opened Ring
  import opened QueueMachine
  import opened Wrappers

  lemma {:induction false} TopBit(n: nat)
    requires n >= 1
    ensures Bit(n, Log2(n))
  {
    if n >= 2 {
      TopBit(n / 2);
    }
  }

  /** A word with all of its n low bits set. */
  lemma AllOnes(word: nat, n: nat)
    requires word < Pow2(n)
    requires forall b: nat | b < n :: Bit(word, b)
    ensures word == Pow2(n) - 1
  {
    if word != Pow2(n) - 1 {
      var b := DifferentBit(word, Pow2(n) - 1, n);
      BitNot(0, n, b);
      ZeroBits(b);
      assert false;
    }
  }

  /** The mask loop of the constructor smears the highest bit of n over all lower ones. */
  method CapacityMask(n: nat) returns (mask: nat)
    ensures mask == Pow2(BitLength(n)) - 1
  {
    hide Bit, Or, Pow2;
    var capMaskRef: nat := n;
    mask := 0;
    BitLengthBounds(n);
    while capMaskRef != 0
      invariant BitLength(capMaskRef) <= BitLength(n) && capMaskRef < Pow2(BitLength(n))
      invariant mask < Pow2(BitLength(n))
      invariant forall b: nat | BitLength(capMaskRef) <= b < BitLength(n) :: Bit(mask, b)
      decreases capMaskRef
    {
      ghost var before := mask;
      OrBound(mask, capMaskRef, BitLength(n));
      mask := Or(mask, capMaskRef);
      TopBit(capMaskRef);
      forall b: nat | Log2(capMaskRef) <= b < BitLength(n)
        ensures Bit(mask, b)
      {
        BitOr(before, capMaskRef, b);
      }
      capMaskRef := capMaskRef / 2;
    }
    AllOnes(mask, BitLength(n));
  }

  // ---------------------------------------------------------------- one thread alone

  /** The number of the only thread. */
  const ME: Tid := 0

  /** n steps of this thread inside Push, or inside Pop, with exchanges that do not fail for no reason. */
  ghost function PushSteps<T>(s: State<T>, n: nat): (r: State<T>)
    requires Shape(s)
    ensures Shape(r)
    decreases n
  {
    if n == 0 then s else PushSteps(PushStep(s, ME, false), n - 1)
  }

  ghost function PopSteps<T>(s: State<T>, n: nat): (r: State<T>)
    requires Shape(s)
    ensures Shape(r)
    decreases n
  {
    if n == 0 then s else PopSteps(PopStep(s, ME, false), n - 1)
  }

  /** A whole call of the machine: after five steps a push is through, after six a pop. */
  ghost function PushCall<T>(s: State<T>, v: T): State<T>
    requires Shape(s)
  {
    PushSteps(Invoke(s, ME, CallPush(v)), 5)
  }

  ghost function PopCall<T>(s: State<T>): State<T>
    requires Shape(s)
  {
    PopSteps(Invoke(s, ME, CallPop), 6)
  }

  lemma PushCallEffect<T>(s: State<T>, v: T)
    requires Shape(s)
    ensures PushCall(s, v) ==
      if NodeAt(s, s.tail).storeIndex != s.tail then WithPc(s, ME, PushDone(v, None))
      else WithPc(WithNode(s.(tail := s.tail + 1, pushed := s.pushed + [v]), s.tail, Node(Some(v), Some(s.tail), s.tail)),
                  ME, PushDone(v, Some(s.tail)))
  {
    hide PushStep;
    var s0 := Invoke(s, ME, CallPush(v));
    var s1 := WithPc(s, ME, PushLoadStoreIndex(v, s.tail));
    assert PushStep(s0, ME, false) == s1 by { FirstPushStep(s, v); }
    assert PushCall(s, v) == PushSteps(s1, 4);
    SecondPushStep(s, v);
    if NodeAt(s, s.tail).storeIndex != s.tail {
      PushStops(WithPc(s, ME, PushDone(v, None)), v, 3);
    } else {
      LastPushSteps(s, v);
    }
  }

  lemma FirstPushStep<T>(s: State<T>, v: T)
    requires Shape(s)
    ensures PushStep(Invoke(s, ME, CallPush(v)), ME, false) == WithPc(s, ME, PushLoadStoreIndex(v, s.tail))
  {
  }

  lemma SecondPushStep<T>(s: State<T>, v: T)
    requires Shape(s)
    ensures PushStep(WithPc(s, ME, PushLoadStoreIndex(v, s.tail)), ME, false) ==
      WithPc(s, ME, if NodeAt(s, s.tail).storeIndex != s.tail then PushDone(v, None) else PushCas(v, s.tail))
  {
  }

  lemma {:induction false} PushStops<T>(s: State<T>, v: T, n: nat)
    requires Shape(s) && PcOf(s, ME) == PushDone(v, None)
    ensures PushSteps(s, n) == s
  {
    if n > 0 {
      PushStops(s, v, n - 1);
    }
  }

  lemma LastPushSteps<T>(s: State<T>, v: T)
    requires Shape(s) && NodeAt(s, s.tail).storeIndex == s.tail
    ensures PushSteps(WithPc(s, ME, PushCas(v, s.tail)), 3) ==
      WithPc(WithNode(s.(tail := s.tail + 1, pushed := s.pushed + [v]), s.tail, Node(Some(v), Some(s.tail), s.tail)),
             ME, PushDone(v, Some(s.tail)))
  {
    var k := s.tail;
    var s1 := s.(tail := k + 1, pushed := s.pushed + [v]);
    var s2 := WithPc(WithNode(s1, k, NodeAt(s1, k).(val := Some(v))), ME, PushPublish(v, k));
    assert PushStep(WithPc(s, ME, PushCas(v, k)), ME, false) == WithPc(s1, ME, PushWrite(v, k));
    assert PushStep(WithPc(s1, ME, PushWrite(v, k)), ME, false) == s2;
    var s3 := WithPc(WithNode(s1, k, Node(Some(v), Some(k), k)), ME, PushDone(v, Some(k)));
    assert PushStep(s2, ME, false) == s3;
    assert PushSteps(s2, 1) == PushSteps(s3, 0);
    assert PushSteps(WithPc(s1, ME, PushWrite(v, k)), 2) == PushSteps(s2, 1);
  }

  lemma PopCallEffect<T>(s: State<T>)
    requires Shape(s) && (NodeAt(s, s.head).readIndex == Some(s.head) ==> NodeAt(s, s.head).val.Some?)
    ensures PopCall(s) ==
      var node := NodeAt(s, s.head);
      if node.readIndex != Some(s.head) then WithPc(s, ME, PopDone(None))
      else
        WithPc(WithNode(s.(head := s.head + 1, popped := s.popped[s.head := node.val.value]),
                        s.head, Node(None, node.readIndex, s.head + s.capacity)),
               ME, PopDone(Some((s.head, node.val.value))))
  {
    hide PopStep;
    var s0, s1 := Invoke(s, ME, CallPop), WithPc(s, ME, PopLoadReadIndex(s.head));
    FirstPopSteps(s);
    assert PopCall(s) == PopSteps(s1, 5);
    var found := NodeAt(s, s.head).readIndex == Some(s.head);
    assert PopCall(s) == PopSteps(WithPc(s, ME, if found then PopCas(s.head) else PopDone(None)), 4);
    if found {
      LastPopSteps(s);
    } else {
      PopStops(WithPc(s, ME, PopDone(None)), 4);
    }
  }

  lemma FirstPopSteps<T>(s: State<T>)
    requires Shape(s)
    ensures PopStep(Invoke(s, ME, CallPop), ME, false) == WithPc(s, ME, PopLoadReadIndex(s.head))
    ensures PopStep(WithPc(s, ME, PopLoadReadIndex(s.head)), ME, false) ==
      WithPc(s, ME, if NodeAt(s, s.head).readIndex == Some(s.head) then PopCas(s.head) else PopDone(None))
  {
  }

  lemma {:induction false} PopStops<T>(s: State<T>, n: nat)
    requires Shape(s) && PcOf(s, ME) == PopDone(None)
    ensures PopSteps(s, n) == s
  {
    if n > 0 {
      PopStops(s, n - 1);
    }
  }

  lemma LastPopSteps<T>(s: State<T>)
    requires Shape(s) && NodeAt(s, s.head).val.Some?
    ensures var node := NodeAt(s, s.head);
      PopSteps(WithPc(s, ME, PopCas(s.head)), 4) ==
      WithPc(WithNode(s.(head := s.head + 1, popped := s.popped[s.head := node.val.value]),
                      s.head, Node(None, node.readIndex, s.head + s.capacity)),
             ME, PopDone(Some((s.head, node.val.value))))
  {
    hide PopStep, PopSteps, WithNode;
    var k, node := s.head, NodeAt(s, s.head);
    var v := node.val.value;
    var s2 := s.(head := k + 1, popped := s.popped[k := v]);
    TakeSteps(s);
    ReleaseSteps(s2, k, v);
    FourSteps(WithPc(s, ME, PopCas(k)));
  }

  lemma PopShape<T>(s: State<T>)
    requires Shape(s)
    ensures Shape(PopStep(s, ME, false))
  {
  }

  lemma FourSteps<T>(s: State<T>)
    requires Shape(s)
    ensures var s1 := PopStep(s, ME, false);
      Shape(s1) && var s2 := PopStep(s1, ME, false);
      Shape(s2) && var s3 := PopStep(s2, ME, false);
      Shape(s3) && PopSteps(s, 4) == PopStep(s3, ME, false)
  {
    hide PopStep;
    PopShape(s);
    var s1 := PopStep(s, ME, false);
    PopShape(s1);
    var s2 := PopStep(s1, ME, false);
    PopShape(s2);
    assert PopSteps(s, 4) == PopSteps(s1, 3) == PopSteps(s2, 2);
  }

  lemma TakeSteps<T>(s: State<T>)
    requires Shape(s) && NodeAt(s, s.head).val.Some?
    ensures var k, v := s.head, NodeAt(s, s.head).val.value;
      var s1 := WithPc(s.(head := k + 1), ME, PopMove(k));
      && PopStep(WithPc(s, ME, PopCas(k)), ME, false) == s1
      && PopStep(s1, ME, false) == WithPc(s.(head := k + 1, popped := s.popped[k := v]), ME, PopDestroy(k, v))
  {
  }

  lemma ReleaseSteps<T>(s: State<T>, k: nat, v: T)
    requires Shape(s)
    ensures var node := NodeAt(s, k);
      var s3 := WithPc(WithNode(s, k, node.(val := None)), ME, PopRelease(k, v));
      && PopStep(WithPc(s, ME, PopDestroy(k, v)), ME, false) == s3
      && PopStep(s3, ME, false) ==
         WithPc(WithNode(s, k, Node(None, node.readIndex, k + s.capacity)), ME, PopDone(Some((k, v))))
  {
    var node := NodeAt(s, k);
    var s3 := WithPc(WithNode(s, k, node.(val := None)), ME, PopRelease(k, v));
    assert WithNode(WithNode(s, k, node.(val := None)), k, Node(None, node.readIndex, k + s.capacity)).nodes
      == WithNode(s, k, Node(None, node.readIndex, k + s.capacity)).nodes;
  }

  lemma ExtendRun<T(!new)>(trace: seq<State<T>>, s': State<T>)
    requires Run(trace) && Next(trace[|trace| - 1], s')
    ensures Run(trace + [s'])
  {
    hide Next, Init;
    var longer := trace + [s'];
    forall i | 0 <= i < |longer| - 1
      ensures Next(longer[i], longer[i + 1])
    {
      assert i < |trace| - 1 ==> Next(trace[i], trace[i + 1]);
    }
  }

  lemma LastShape<T(!new)>(trace: seq<State<T>>)
    requires Run(trace)
    ensures Shape(trace[|trace| - 1])
  {
    RunInv(trace, |trace| - 1);
  }

  lemma {:induction false} PushRun<T(!new)>(trace: seq<State<T>>, s: State<T>, n: nat) returns (longer: seq<State<T>>)
    requires Run(trace) && s == trace[|trace| - 1] && Shape(s)
    ensures Run(longer) && trace <= longer && longer[|longer| - 1] == PushSteps(s, n)
    decreases n
  {
    hide PushStep, Run;
    longer := trace;
    if n > 0 {
      ExtendRun(trace, PushStep(s, ME, false));
      LastShape(trace + [PushStep(s, ME, false)]);
      longer := PushRun(trace + [PushStep(s, ME, false)], PushStep(s, ME, false), n - 1);
    }
  }

  lemma {:induction false} PopRun<T(!new)>(trace: seq<State<T>>, s: State<T>, n: nat) returns (longer: seq<State<T>>)
    requires Run(trace) && s == trace[|trace| - 1] && Shape(s)
    ensures Run(longer) && trace <= longer && longer[|longer| - 1] == PopSteps(s, n)
    decreases n
  {
    hide PopStep, Run;
    longer := trace;
    if n > 0 {
      ExtendRun(trace, PopStep(s, ME, false));
      LastShape(trace + [PopStep(s, ME, false)]);
      longer := PopRun(trace + [PopStep(s, ME, false)], PopStep(s, ME, false), n - 1);
    }
  }

  /** Every call by the only thread is a run of the machine: it takes a run to a longer one. */
  lemma CallsAreRuns<T(!new)>(trace: seq<State<T>>, v: T) returns (pushed: seq<State<T>>, popped: seq<State<T>>)
    requires Run(trace) && Resting(PcOf(trace[|trace| - 1], ME))
    ensures Shape(trace[|trace| - 1])
    ensures Run(pushed) && trace <= pushed && pushed[|pushed| - 1] == PushCall(trace[|trace| - 1], v)
    ensures Run(popped) && trace <= popped && popped[|popped| - 1] == PopCall(trace[|trace| - 1])
  {
    hide PushSteps, PopSteps, PushStep, PopStep, Init;
    LastShape(trace);
    var s := trace[|trace| - 1];
    var s1, s2 := Invoke(s, ME, CallPush(v)), Invoke(s, ME, CallPop);
    ExtendRun(trace, s1);
    ExtendRun(trace, s2);
    pushed := PushRun(trace + [s1], s1, 5);
    popped := PopRun(trace + [s2], s2, 6);
  }

  class LockFreeQueue<T> {
    var nodeArray: array<Node<T>>
    var capacity: nat
    var capacityMask: nat
    var head: nat
    var tail: nat
    ghost var pushed: seq<T>

    /** Where the machine's threads are, and what its pops have taken out. */
    ghost var pcs: map<Tid, Pc<T>>
    ghost var popped: map<nat, T>

    /** This queue as a state of the machine. */
    ghost function Machine(): (s: State<T>)
      reads this, nodeArray
    {
      State(capacity, nodeArray[..], head, tail, pcs, pushed, popped)
    }

    ghost predicate Valid()
      reads this, nodeArray
    {
      && capacity >= 1 && nodeArray.Length == capacity && Resting(PcOf(Machine(), ME))
      && (forall k: nat :: And(k, capacityMask) == Slot(k, capacity))
      && head <= tail <= head + capacity && |pushed| == tail
      && (forall k: nat {:trigger FullNode(k)} | head <= k < tail :: FullNode(k))
      && (forall k: nat {:trigger FreeNode(k)} | tail <= k < head + capacity :: FreeNode(k))
    }

    /** The node of ticket k holds the value pushed under it. */
    ghost predicate FullNode(k: nat)
      reads this`capacity, this`nodeArray, this`pushed, nodeArray
      requires capacity >= 1 && nodeArray.Length == capacity && k < |pushed|
    {
      nodeArray[Slot(k, capacity)] == Node(Some(pushed[k]), Some(k), k)
    }

    /** The node of ticket k waits for it. */
    ghost predicate FreeNode(k: nat)
      reads this`capacity, this`nodeArray, nodeArray
      requires capacity >= 1 && nodeArray.Length == capacity
    {
      nodeArray[Slot(k, capacity)].storeIndex == k && nodeArray[Slot(k, capacity)].readIndex != Some(k)
    }

    ghost function Contents(): seq<T>
      reads this, nodeArray
      requires Valid()
    {
      pushed[head..tail]
    }

    /** The capacity is rounded up to a power of two; a capacity of 0 is not a request for a queue. */
    constructor (size: nat)
      requires size >= 1
      ensures Valid() && Contents() == [] && fresh(nodeArray)
      ensures capacity == Pow2(BitLength(size - 1))
      ensures Init(Machine())
    {
      hide And, Pow2, BitLength;
      var mask := CapacityMask(size - 1);
      capacityMask := mask;
      capacity := mask + 1;
      nodeArray := new Node<T>[mask + 1](i => Node(None, None, i));
      head, tail, pushed := 0, 0, [];
      pcs, popped := map[], map[];
      new;
      forall k: nat
        ensures And(k, capacityMask) == Slot(k, capacity)
      {
        MaskSelectsSlot(k, BitLength(size - 1));
      }
      forall k: nat | k < capacity
        ensures FreeNode(k)
      {
        SmallSlot(k, capacity);
      }
    }

    /** `Push`: with no other thread the exchange succeeds at once, so the loop runs a single round. */
    method Push(v: T) returns (ok: bool)
      requires Valid()
      modifies this`tail, this`pushed, this`pcs, nodeArray
      ensures Valid() && Machine() == PushCall(old(Machine()), v)
      ensures ok <==> |old(Contents())| < capacity
      ensures Contents() == if ok then old(Contents()) + [v] else old(Contents())
    {
      hide And, Slot, PushCall, Invoke;
      DistinctSlots(tail, capacity);
      DistinctSlots(head, capacity);
      assert tail < head + capacity ==> FreeNode(tail);
      assert head < tail ==> FullNode(head);
      var tailCapture := tail;
      var i := And(tailCapture, capacityMask);
      if nodeArray[i].storeIndex != tailCapture {
        pcs := pcs[ME := PushDone(v, None)];
        PushCallEffect(old(Machine()), v);
        return false;
      }
      assert tail < head + capacity;
      tail := tailCapture + 1;
      nodeArray[i] := nodeArray[i].(val := Some(v));
      nodeArray[i] := nodeArray[i].(readIndex := Some(tailCapture));
      pushed := pushed + [v];
      pcs := pcs[ME := PushDone(v, Some(tailCapture))];
      assert Machine() == PushCall(old(Machine()), v) by {
        PushCallEffect(old(Machine()), v);
        assert nodeArray[..] == old(nodeArray[..])[i := Node(Some(v), Some(tailCapture), tailCapture)];
      }
      forall k: nat | head <= k < tail
        ensures FullNode(k)
      {
        assert k < tailCapture ==> old(FullNode(k));
      }
      forall k: nat | tail <= k < head + capacity
        ensures FreeNode(k)
      {
        assert old(FreeNode(k));
      }
      assert Contents() == old(Contents()) + [v];
      return true;
    }

    /** `Pop`, likewise. */
    method Pop() returns (r: Option<T>)
      requires Valid()
      modifies this`head, this`popped, this`pcs, nodeArray
      ensures Valid() && Machine() == PopCall(old(Machine()))
      ensures r.None? <==> old(Contents()) == []
      ensures r.Some? ==> r.value == old(Contents())[0] && Contents() == old(Contents())[1..]
      ensures r.None? ==> Contents() == old(Contents())
    {
      hide And, Slot, PopCall, Invoke;
      DistinctSlots(head, capacity);
      assert head == tail ==> FreeNode(head);
      assert head < tail ==> FullNode(head);
      var headCapture := head;
      var i := And(headCapture, capacityMask);
      PopCallEffect(Machine());
      if nodeArray[i].readIndex != Some(headCapture) {
        pcs := pcs[ME := PopDone(None)];
        return None;
      }
      head := headCapture + 1;
      r := nodeArray[i].val;
      popped := popped[headCapture := r.value];
      pcs := pcs[ME := PopDone(Some((headCapture, r.value)))];
      nodeArray[i] := nodeArray[i].(val := None);
      nodeArray[i] := nodeArray[i].(storeIndex := headCapture + capacity);
      assert nodeArray[..] == old(nodeArray[..])[i := Node(None, Some(headCapture), headCapture + capacity)];
      forall k: nat | head <= k < tail
        ensures FullNode(k)
      {
        assert old(FullNode(k));
      }
      forall k: nat | tail <= k < head + capacity
        ensures FreeNode(k)
      {
        assert k < headCapture + capacity ==> old(FreeNode(k));
      }
      assert Contents() == old(Contents())[1..];
    }

    method Empty() returns (r: bool)
      requires Valid()
      ensures r <==> Contents() == []
    {
      hide And, Slot;
      assert head == tail ==> FreeNode(head);
      assert head < tail ==> FullNode(head);
      var headCapture := head;
      var i := And(headCapture, capacityMask);
      r := nodeArray[i].readIndex != Some(headCapture);
    }

    /** `Size`, truncated to uint32_t. */
    method Size() returns (n: nat)
      requires Valid()
      ensures n == |Contents()| % WORD32
    {
      var headCapture := head;
      var tailCapture := tail;
      n := (tailCapture - headCapture) % WORD32;
    }
  }

  /** The capacity the constructor picks is the least power of two that is large enough. */
  lemma LeastPower(size: nat, k: nat)
    requires size >= 1
    ensures size <= Pow2(BitLength(size - 1))
    ensures size <= Pow2(k) ==> Pow2(BitLength(size - 1)) <= Pow2(k)
  {
    BitLengthBounds(size - 1);
    if k < BitLength(size - 1) {
      Pow2Monotone(k, BitLength(size - 1) - 1);
    } else {
      Pow2Monotone(BitLength(size - 1), k);
    }
  }
}
