/** What the answers of Push, Pop, Empty and Size mean over a whole run of the queue, whoever else is at work. */
module QueueRuns {
  import opened Ring
  import opened Wrappers
  import opened QueueMachine

  /** Inside a push of v, or inside a pop, and not returned yet. */
  predicate InPush<T(==)>(pc: Pc<T>, v: T) {
    (pc.PushLoadTail? || pc.PushLoadStoreIndex? || pc.PushCas? || pc.PushWrite? || pc.PushPublish?) && pc.v == v
  }

  predicate InPop<T>(pc: Pc<T>) {
    pc.PopLoadHead? || pc.PopLoadReadIndex? || pc.PopCas? || pc.PopMove? || pc.PopDestroy? || pc.PopRelease?
  }

  // ---------------------------------------------------------------- one step

  /** How a thread can have come to a position, and what its step saw or did. */
  ghost predicate Arrives<T>(s: State<T>, s': State<T>, t: Tid)
    requires Shape(s)
  {
    var from := PcOf(s, t);
    && (s'.tail == s.tail || PcOf(s', t).PushWrite?)
    && (s'.head == s.head || PcOf(s', t).PopMove?)
    && match PcOf(s', t)
    case Idle => false
    case PushLoadTail(v) => Resting(from) || (from.PushCas? && from.v == v)
    case PushLoadStoreIndex(v, tail) => from == PushLoadTail(v) && tail == s.tail
    case PushCas(v, tail) => from == PushLoadStoreIndex(v, tail) && NodeAt(s, tail).storeIndex == tail
    case PushWrite(v, k) => from == PushCas(v, k) && s.tail == k && s'.tail == k + 1 && s'.pushed == s.pushed + [v]
    case PushPublish(v, k) => from == PushWrite(v, k)
    case PushDone(v, None) => from.PushLoadStoreIndex? && from.v == v && NodeAt(s, from.tail).storeIndex != from.tail
    case PushDone(v, Some(k)) => from == PushPublish(v, k)
    case PopLoadHead => Resting(from) || from.PopCas?
    case PopLoadReadIndex(head) => from == PopLoadHead && head == s.head
    case PopCas(head) => from == PopLoadReadIndex(head) && NodeAt(s, head).readIndex == Some(head)
    case PopMove(k) => from == PopCas(k) && s.head == k && s'.head == k + 1
    case PopDestroy(k, v) => from == PopMove(k) && NodeAt(s, k).val == Some(v)
    case PopRelease(k, v) => from == PopDestroy(k, v)
    case PopDone(None) => from.PopLoadReadIndex? && NodeAt(s, from.head).readIndex != Some(from.head)
    case PopDone(Some((k, v))) => from == PopRelease(k, v)
    case EmptyLoadHead => Resting(from)
    case EmptyLoadReadIndex(head) => from == EmptyLoadHead && head == s.head
    case EmptyDone(empty) => from.EmptyLoadReadIndex? && (empty <==> NodeAt(s, from.head).readIndex != Some(from.head))
    case SizeLoadHead => Resting(from)
    case SizeLoadTail(head) => from == SizeLoadHead && head == s.head
    case SizeDone(size) => from.SizeLoadTail? && size == s.tail - from.head
  }

  lemma InvokeMoves<T>(s: State<T>, t: Tid, call: Call<T>)
    requires Shape(s) && Resting(PcOf(s, t)) && PcOf(Invoke(s, t, call), t) != PcOf(s, t)
    ensures Arrives(s, Invoke(s, t, call), t)
  {
  }

  lemma PushMoves<T>(s: State<T>, t: Tid, spurious: bool)
    requires Shape(s) && PcOf(PushStep(s, t, spurious), t) != PcOf(s, t)
    ensures Arrives(s, PushStep(s, t, spurious), t)
  {
  }

  lemma PopMoves<T>(s: State<T>, t: Tid, spurious: bool)
    requires Shape(s) && PcOf(PopStep(s, t, spurious), t) != PcOf(s, t)
    ensures Arrives(s, PopStep(s, t, spurious), t)
  {
  }

  lemma QueryMoves<T>(s: State<T>, t: Tid)
    requires Shape(s) && PcOf(QueryStep(s, t), t) != PcOf(s, t)
    ensures Arrives(s, QueryStep(s, t), t)
  {
  }

  /** A step moves the thread that takes it and no other. */
  lemma OthersStay<T>(s: State<T>, t: Tid, u: Tid, call: Call<T>, spurious: bool)
    requires Shape(s) && u != t
    ensures PcOf(Invoke(s, u, call), t) == PcOf(s, t) && PcOf(QueryStep(s, u), t) == PcOf(s, t)
    ensures PcOf(PushStep(s, u, spurious), t) == PcOf(s, t) && PcOf(PopStep(s, u, spurious), t) == PcOf(s, t)
  {
  }

  /** Whatever step the machine takes, a thread whose position changes has made one of these moves. */
  lemma Moves<T(!new)>(s: State<T>, s': State<T>, t: Tid)
    requires Next(s, s') && PcOf(s', t) != PcOf(s, t)
    ensures Arrives(s, s', t)
  {
    hide Arrives, PcOf, Invoke, PushStep, PopStep, QueryStep;
    if u: Tid, call: Call<T> :| Resting(PcOf(s, u)) && s' == Invoke(s, u, call) {
      if u != t { OthersStay(s, t, u, call, false); } else { InvokeMoves(s, t, call); }
    } else if u: Tid, spurious: bool :| s' == PushStep(s, u, spurious) {
      if u != t { OthersStay(s, t, u, CallPop, spurious); } else { PushMoves(s, t, spurious); }
    } else if u: Tid, spurious: bool :| s' == PopStep(s, u, spurious) {
      if u != t { OthersStay(s, t, u, CallPop, spurious); } else { PopMoves(s, t, spurious); }
    } else {
      var u: Tid :| s' == QueryStep(s, u);
      if u != t { OthersStay(s, t, u, CallPop, false); } else { QueryMoves(s, t); }
    }
  }

  // ---------------------------------------------------------------- along a run

  /** Thread t has stood at one position since it arrived there with step j - 1. */
  ghost predicate StoodSince<T>(trace: seq<State<T>>, j: nat, i: nat, t: Tid)
    requires i < |trace|
  {
    && 1 <= j <= i && PcOf(trace[j - 1], t) != PcOf(trace[i], t)
    && forall m | j <= m <= i :: PcOf(trace[m], t) == PcOf(trace[i], t)
  }

  /** A thread that is not idle has come to where it is by a step of its own, and stood there since. */
  lemma {:induction false} LastArrival<T(!new)>(trace: seq<State<T>>, i: nat, t: Tid) returns (j: nat)
    requires Run(trace) && i < |trace| && !PcOf(trace[i], t).Idle?
    ensures StoodSince(trace, j, i, t) && Shape(trace[j - 1]) && Arrives(trace[j - 1], trace[j], t)
  {
    hide Arrives, Init, Next;
    if i == 0 {
      OnlyIdle(trace[0]);
      assert false;
    }
    assert Next(trace[i - 1], trace[i - 1 + 1]);
    NextShape(trace[i - 1], trace[i]);
    if PcOf(trace[i - 1], t) == PcOf(trace[i], t) {
      j := LastArrival(trace, i - 1, t);
    } else {
      j := i;
      Moves(trace[i - 1], trace[i], t);
    }
  }

  lemma NextShape<T(!new)>(s: State<T>, s': State<T>)
    requires Next(s, s')
    ensures Shape(s)
  {
  }

  lemma OnlyIdle<T>(s: State<T>)
    requires Init(s)
    ensures s.pcs == map[]
  {
  }

  /** Thread t called Push(v) with step c - 1 and has been inside that call since. */
  ghost predicate PushingSince<T>(trace: seq<State<T>>, c: nat, i: nat, t: Tid, v: T)
    requires i < |trace|
  {
    && 1 <= c <= i && Resting(PcOf(trace[c - 1], t)) && PcOf(trace[c], t) == PushLoadTail(v)
    && forall m | c <= m <= i :: InPush(PcOf(trace[m], t), v)
  }

  ghost predicate PoppingSince<T>(trace: seq<State<T>>, c: nat, i: nat, t: Tid)
    requires i < |trace|
  {
    && 1 <= c <= i && Resting(PcOf(trace[c - 1], t)) && PcOf(trace[c], t) == PopLoadHead
    && forall m | c <= m <= i :: InPop(PcOf(trace[m], t))
  }

  lemma {:induction false} PushBegan<T(!new)>(trace: seq<State<T>>, i: nat, t: Tid, v: T) returns (c: nat)
    requires Run(trace) && i < |trace| && InPush(PcOf(trace[i], t), v)
    ensures PushingSince(trace, c, i, t, v)
  {
    hide Run;
    var j := LastArrival(trace, i, t);
    if Resting(PcOf(trace[j - 1], t)) {
      c := j;
    } else {
      c := PushBegan(trace, j - 1, t, v);
    }
  }

  lemma {:induction false} PopBegan<T(!new)>(trace: seq<State<T>>, i: nat, t: Tid) returns (c: nat)
    requires Run(trace) && i < |trace| && InPop(PcOf(trace[i], t))
    ensures PoppingSince(trace, c, i, t)
  {
    hide Run;
    var j := LastArrival(trace, i, t);
    if Resting(PcOf(trace[j - 1], t)) {
      c := j;
    } else {
      c := PopBegan(trace, j - 1, t);
    }
  }

  /** Step i is the one with which thread t returns from its call with this result. */
  ghost predicate Returns<T>(trace: seq<State<T>>, i: nat, t: Tid, result: Pc<T>) {
    i + 1 < |trace| && PcOf(trace[i + 1], t) == result && PcOf(trace[i], t) != result
  }

  lemma Return<T(!new)>(trace: seq<State<T>>, i: nat, t: Tid, result: Pc<T>)
    requires Run(trace) && Returns(trace, i, t, result)
    ensures Inv(trace[i]) && Arrives(trace[i], trace[i + 1], t)
  {
    hide Arrives, Inv;
    RunInv(trace, i);
    assert Next(trace[i], trace[i + 1]);
    Moves(trace[i], trace[i + 1], t);
  }

  // ---------------------------------------------------------------- false

  /**
    A push that returns false has been told so by the node of the tail k it loaded last, in the same call. Either
    other pushes have moved the tail past k since, or ticket k - capacity still has that node: it has been pushed,
    and no pop has released it. A failed exchange alone never makes a push return false, and the call held no ticket.
   */
  lemma PushReturnsFalse<T(!new)>(trace: seq<State<T>>, i: nat, t: Tid, v: T) returns (c: nat, j: nat, k: nat)
    requires Run(trace) && Returns(trace, i, t, PushDone(v, None))
    ensures PushingSince(trace, c, i, t, v) && c < j <= i && trace[j - 1].tail == k
    ensures forall m | j <= m <= i :: PcOf(trace[m], t) == PushLoadStoreIndex(v, k)
    ensures forall m | c <= m <= i :: !Writing(PcOf(trace[m], t))
    ensures Inv(trace[i]) && NodeAt(trace[i], k).storeIndex != k
    ensures var s := trace[i];
      || s.tail > k
      || (s.tail == k >= s.capacity && NodeAt(s, k).storeIndex == k - s.capacity
          && (s.head <= k - s.capacity || HasReader(s, k - s.capacity)))
  {
    hide Run, Inv, HasReader;
    Return(trace, i, t, PushDone(v, None));
    k := PcOf(trace[i], t).tail;
    c := PushBegan(trace, i, t, v);
    j := LastArrival(trace, i, t);
    PushFails(trace[i], t, v, k);
    forall m | c <= m <= i
      ensures !Writing(PcOf(trace[m], t))
    {
      if Writing(PcOf(trace[m], t)) {
        NoWayBack(trace, m, i, c, i, t, v);
      }
    }
    InvShape(trace[i]);
  }

  lemma InvShape<T>(s: State<T>)
    requires Inv(s)
    ensures Shape(s)
  {
  }

  /**
    A pop that returns false has been told so by the node of the head k it loaded last, in the same call. Either
    other pops have moved the head past k since, or nothing is in the queue, or the push of k has not published.
   */
  lemma PopReturnsFalse<T(!new)>(trace: seq<State<T>>, i: nat, t: Tid) returns (c: nat, j: nat, k: nat)
    requires Run(trace) && Returns(trace, i, t, PopDone(None))
    ensures PoppingSince(trace, c, i, t) && c < j <= i && trace[j - 1].head == k
    ensures forall m | j <= m <= i :: PcOf(trace[m], t) == PopLoadReadIndex(k)
    ensures forall m | c <= m <= i :: !Reading(PcOf(trace[m], t))
    ensures Inv(trace[i]) && NodeAt(trace[i], k).readIndex != Some(k)
    ensures var s := trace[i]; s.head > k || s.tail == k || (s.head == k && HasWriter(s, k))
  {
    hide Run, Inv, HasWriter;
    Return(trace, i, t, PopDone(None));
    k := PcOf(trace[i], t).head;
    c := PopBegan(trace, i, t);
    j := LastArrival(trace, i, t);
    PopFails(trace[i], t, k);
    forall m | c <= m <= i
      ensures !Reading(PcOf(trace[m], t))
    {
      if Reading(PcOf(trace[m], t)) {
        NoWayBackPop(trace, m, i, c, i, t);
      }
    }
    InvShape(trace[i]);
  }

  // ---------------------------------------------------------------- true

  lemma {:induction false} TailExchange<T(!new)>(trace: seq<State<T>>, i: nat, t: Tid, v: T, k: nat) returns (j: nat)
    requires Run(trace) && i < |trace| && (PcOf(trace[i], t) == PushWrite(v, k) || PcOf(trace[i], t) == PushPublish(v, k))
    ensures j < i && PcOf(trace[j], t) == PushCas(v, k) && trace[j].tail == k && trace[j + 1].pushed == trace[j].pushed + [v]
    ensures forall m | j < m <= i :: Writes(PcOf(trace[m], t), k)
  {
    hide Run;
    var a := LastArrival(trace, i, t);
    if PcOf(trace[i], t).PushWrite? {
      j := a - 1;
    } else {
      j := TailExchange(trace, a - 1, t, v, k);
    }
  }

  lemma {:induction false} HeadExchange<T(!new)>(trace: seq<State<T>>, i: nat, t: Tid, k: nat) returns (j: nat)
    requires Run(trace) && i < |trace| && Reads(PcOf(trace[i], t), k)
    ensures j < i && PcOf(trace[j], t) == PopCas(k) && trace[j].head == k && trace[j + 1].head == k + 1
    ensures forall m | j < m <= i :: Reads(PcOf(trace[m], t), k)
  {
    hide Run;
    var a := LastArrival(trace, i, t);
    if PcOf(trace[i], t).PopMove? {
      j := a - 1;
    } else {
      j := HeadExchange(trace, a - 1, t, k);
    }
  }

  /**
    A push that returns true has put its value into the queue once, with one tail exchange j between the call and
    the return: the one that gave it the ticket it returns with. Before it the call holds no ticket.
   */
  lemma PushReturnsTrue<T(!new)>(trace: seq<State<T>>, i: nat, t: Tid, v: T, k: nat) returns (c: nat, j: nat)
    requires Run(trace) && Returns(trace, i, t, PushDone(v, Some(k)))
    ensures PushingSince(trace, c, i, t, v) && c <= j < i
    ensures trace[j].tail == k && trace[j + 1].pushed == trace[j].pushed + [v]
    ensures PcOf(trace[j], t) == PushCas(v, k) && forall m | j < m <= i :: Writes(PcOf(trace[m], t), k)
    ensures forall m | c <= m <= j :: !Writing(PcOf(trace[m], t))
  {
    hide Run, Inv;
    Return(trace, i, t, PushDone(v, Some(k)));
    c := PushBegan(trace, i, t, v);
    j := TailExchange(trace, i, t, v, k);
    forall m | c <= m <= j
      ensures !Writing(PcOf(trace[m], t))
    {
      if Writing(PcOf(trace[m], t)) {
        NoWayBack(trace, m, j, c, i, t, v);
      }
    }
  }

  /** A call that holds a ticket keeps it until it returns. */
  lemma {:induction false} NoWayBack<T(!new)>(trace: seq<State<T>>, m: nat, j: nat, c: nat, i: nat, t: Tid, v: T)
    requires Run(trace) && i < |trace| && PushingSince(trace, c, i, t, v) && c <= m <= j <= i && Writing(PcOf(trace[m], t))
    ensures Writing(PcOf(trace[j], t))
    decreases j
  {
    hide Run;
    if m < j {
      var a := LastArrival(trace, j, t);
      if m < a {
        NoWayBack(trace, m, a - 1, c, i, t, v);
      }
    }
  }

  /**
    A pop that returns true has taken one value, with one head exchange j between the call and the return, and
    what it returns is what the push with the same ticket put in.
   */
  lemma PopReturnsTrue<T(!new)>(trace: seq<State<T>>, i: nat, t: Tid, k: nat, v: T) returns (c: nat, j: nat)
    requires Run(trace) && Returns(trace, i, t, PopDone(Some((k, v))))
    ensures PoppingSince(trace, c, i, t) && c <= j < i
    ensures trace[j].head == k && trace[j + 1].head == k + 1 && PcOf(trace[j], t) == PopCas(k)
    ensures forall m | j < m <= i :: Reads(PcOf(trace[m], t), k)
    ensures forall m | c <= m <= j :: !Reading(PcOf(trace[m], t))
    ensures k < |trace[j].pushed| && trace[j].pushed[k] == v
  {
    hide Run, Inv, Arrives;
    Return(trace, i, t, PopDone(Some((k, v))));
    InvShape(trace[i]);
    assert PcOf(trace[i], t) == PopRelease(k, v) by { ReturnedFrom(trace[i], trace[i + 1], t, k, v); }
    c := PopBegan(trace, i, t);
    j := HeadExchange(trace, i, t, k);
    forall m | c <= m <= j
      ensures !Reading(PcOf(trace[m], t))
    {
      if Reading(PcOf(trace[m], t)) {
        NoWayBackPop(trace, m, j, c, i, t);
      }
    }
    RunInv(trace, j);
    TicketAtExchange(trace[j], t, k);
    RunExtends(trace, j, i + 1);
    Fifo(trace, i + 1, i + 1, t, k, v);
  }

  lemma ReturnedFrom<T>(s: State<T>, s': State<T>, t: Tid, k: nat, v: T)
    requires Shape(s) && Arrives(s, s', t) && PcOf(s', t) == PopDone(Some((k, v)))
    ensures PcOf(s, t) == PopRelease(k, v)
  {
  }

  lemma TicketAtExchange<T>(s: State<T>, t: Tid, k: nat)
    requires Inv(s) && PcOf(s, t) == PopCas(k) && s.head == k
    ensures k < |s.pushed|
  {
    HeadPublished(s, t);
  }

  lemma {:induction false} NoWayBackPop<T(!new)>(trace: seq<State<T>>, m: nat, j: nat, c: nat, i: nat, t: Tid)
    requires Run(trace) && i < |trace| && PoppingSince(trace, c, i, t) && c <= m <= j <= i && Reading(PcOf(trace[m], t))
    ensures Reading(PcOf(trace[j], t))
    decreases j
  {
    hide Run;
    if m < j {
      var a := LastArrival(trace, j, t);
      if m < a {
        NoWayBackPop(trace, m, a - 1, c, i, t);
      }
    }
  }

  // ---------------------------------------------------------------- order in time

  /** A push that is called after another one has returned true gets the later ticket: its value comes out later. */
  lemma PushesInOrder<T(!new)>(trace: seq<State<T>>, a: nat, t: Tid, v: T, k: nat, c: nat, b: nat, u: Tid, w: T, l: nat)
    requires Run(trace) && Returns(trace, a, t, PushDone(v, Some(k))) && Returns(trace, b, u, PushDone(w, Some(l)))
    requires a < c && PushingSince(trace, c, b, u, w)
    ensures k < l
  {
    hide Inv, Run, PushingSince, Extends, Writes, Writing;
    var c', j := PushReturnsTrue(trace, b, u, w, l);
    SamePush(trace, c, c', b, u, w);
    RunInv(trace, a + 1);
    PushReturned(trace[a + 1], t, k, v);
    LaterPushed(trace, a + 1, j);
    RunInv(trace, j);
    CountersMeet(trace[j]);
  }

  /** Within one call there is only one beginning. */
  lemma SamePush<T>(trace: seq<State<T>>, c: nat, c': nat, i: nat, t: Tid, v: T)
    requires i < |trace| && PushingSince(trace, c, i, t, v) && PushingSince(trace, c', i, t, v)
    ensures c == c'
  {
  }

  lemma SamePop<T>(trace: seq<State<T>>, c: nat, c': nat, i: nat, t: Tid)
    requires i < |trace| && PoppingSince(trace, c, i, t) && PoppingSince(trace, c', i, t)
    ensures c == c'
  {
  }

  lemma LaterPushed<T(!new)>(trace: seq<State<T>>, i: nat, j: nat)
    requires Run(trace) && i <= j < |trace|
    ensures |trace[i].pushed| <= |trace[j].pushed| && trace[i].head <= trace[j].head
  {
    hide Run;
    RunExtends(trace, i, j);
  }

  lemma CountersMeet<T>(s: State<T>)
    requires Inv(s)
    ensures |s.pushed| == s.tail
  {
  }

  /** The same for pops: called after another one has returned true, a pop gets a later value. */
  lemma PopsInOrder<T(!new)>(trace: seq<State<T>>, a: nat, t: Tid, k: nat, v: T, c: nat, b: nat, u: Tid, l: nat, w: T)
    requires Run(trace) && Returns(trace, a, t, PopDone(Some((k, v)))) && Returns(trace, b, u, PopDone(Some((l, w))))
    requires a < c && PoppingSince(trace, c, b, u)
    ensures k < l
  {
    hide Inv, Run, PoppingSince, Extends, Reads, Reading;
    var c', j := PopReturnsTrue(trace, b, u, l, w);
    SamePop(trace, c, c', b, u);
    RunInv(trace, a + 1);
    PopReturned(trace[a + 1], t, k, v);
    LaterPushed(trace, a + 1, j);
  }

  lemma PopReturned<T>(s: State<T>, t: Tid, k: nat, v: T)
    requires Inv(s) && PcOf(s, t) == PopDone(Some((k, v)))
    ensures k < s.head
  {
    assert PcOk(s, s.pcs[t]);
  }

  // ---------------------------------------------------------------- Empty and Size

  /** What Empty answers, in terms of the head k it loaded within the same call. */
  lemma EmptyReturns<T(!new)>(trace: seq<State<T>>, i: nat, t: Tid, empty: bool) returns (j: nat, k: nat)
    requires Run(trace) && Returns(trace, i, t, EmptyDone(empty))
    ensures 1 <= j <= i && trace[j - 1].head == k && PcOf(trace[j - 1], t) == EmptyLoadHead
    ensures forall m | j <= m <= i :: PcOf(trace[m], t) == EmptyLoadReadIndex(k)
    ensures Inv(trace[i])
    ensures var s := trace[i];
      && k <= s.head
      && (empty ==> s.head > k || s.tail == k || HasWriter(s, k))
      && (!empty ==> k < s.tail && !HasWriter(s, k) && (s.head > k || NodeAt(s, k).val == Some(s.pushed[k])))
      && (s.head == k ==> (empty <==> s.tail == k || HasWriter(s, k)))
  {
    hide Run, Inv, HasWriter;
    Return(trace, i, t, EmptyDone(empty));
    InvShape(trace[i]);
    k := PcOf(trace[i], t).head;
    j := LastArrival(trace, i, t);
    EmptyMeaning(trace[i], t, k);
    CapturedHead(trace[i], t);
  }

  lemma CapturedHead<T>(s: State<T>, t: Tid)
    requires Inv(s) && (PcOf(s, t).EmptyLoadReadIndex? || PcOf(s, t).SizeLoadTail?)
    ensures PcOf(s, t).head <= s.head <= s.tail == |s.pushed|
  {
    assert PcOk(s, s.pcs[t]);
  }

  /** Size answers with what is in the queue when it returns and what has been popped since it loaded the head. */
  lemma SizeReturns<T(!new)>(trace: seq<State<T>>, i: nat, t: Tid, size: int) returns (j: nat)
    requires Run(trace) && Returns(trace, i, t, SizeDone(size))
    ensures 1 <= j <= i && PcOf(trace[j - 1], t) == SizeLoadHead && forall m | j <= m <= i :: PcOf(trace[m], t).SizeLoadTail?
    ensures trace[j - 1].head <= trace[i].head <= trace[i].tail
    ensures size == (trace[i].tail - trace[i].head) + (trace[i].head - trace[j - 1].head)
  {
    hide Run, Inv;
    Return(trace, i, t, SizeDone(size));
    j := LastArrival(trace, i, t);
    CapturedHead(trace[i], t);
  }

  // ---------------------------------------------------------------- progress

  /** Steps of its own after which a push is sure to have returned, as long as nobody else moves the tail. */
  function PushLeft<T>(s: State<T>, t: Tid): nat {
    match PcOf(s, t)
    case PushLoadTail(v) => 5
    case PushLoadStoreIndex(v, tail) => if tail == s.tail then 4 else 7
    case PushCas(v, tail) => if tail == s.tail then 3 else 6
    case PushWrite(v, k) => 2
    case PushPublish(v, k) => 1
    case _ => 0
  }

  function PopLeft<T>(s: State<T>, t: Tid): nat {
    match PcOf(s, t)
    case PopLoadHead => 6
    case PopLoadReadIndex(head) => if head == s.head then 5 else 8
    case PopCas(head) => if head == s.head then 4 else 7
    case PopMove(k) => 3
    case PopDestroy(k, v) => 2
    case PopRelease(k, v) => 1
    case _ => 0
  }

  function PushSteps<T>(s: State<T>, t: Tid, n: nat): State<T>
    requires Shape(s)
    decreases n
  {
    if n == 0 then s else PushSteps(PushStep(s, t, false), t, n - 1)
  }

  function PopSteps<T>(s: State<T>, t: Tid, n: nat): State<T>
    requires Shape(s)
    decreases n
  {
    if n == 0 then s else PopSteps(PopStep(s, t, false), t, n - 1)
  }

  /**
    No thread can block another: from wherever the others have stopped, a push left alone returns within seven
    steps of its own.
   */
  lemma {:induction false} PushAlone<T>(s: State<T>, t: Tid, v: T, n: nat)
    requires Inv(s) && InPush(PcOf(s, t), v) && PushLeft(s, t) <= n
    ensures PushLeft(s, t) <= 7
    ensures PcOf(PushSteps(s, t, n), t).PushDone? && PcOf(PushSteps(s, t, n), t).v == v
    decreases n
  {
    hide Inv;
    InvShape(s);
    PushStepInv(s, t, false);
    var s' := PushStep(s, t, false);
    if InPush(PcOf(s', t), v) {
      PushAlone(s', t, v, n - 1);
    } else {
      PushStays(s', t, n - 1);
    }
  }

  lemma {:induction false} PushStays<T>(s: State<T>, t: Tid, n: nat)
    requires Shape(s) && PcOf(s, t).PushDone?
    ensures PushSteps(s, t, n) == s
    decreases n
  {
    if n > 0 {
      PushStays(s, t, n - 1);
    }
  }

  /** A pop left alone returns within eight. */
  lemma {:induction false} PopAlone<T>(s: State<T>, t: Tid, n: nat)
    requires Inv(s) && InPop(PcOf(s, t)) && PopLeft(s, t) <= n
    ensures PopLeft(s, t) <= 8
    ensures PcOf(PopSteps(s, t, n), t).PopDone?
    decreases n
  {
    hide Inv;
    InvShape(s);
    PopStepInv(s, t, false);
    if PcOf(s, t).PopMove? {
      ValueThere(s, t);
    }
    var s' := PopStep(s, t, false);
    if InPop(PcOf(s', t)) {
      PopAlone(s', t, n - 1);
    } else {
      PopStays(s', t, n - 1);
    }
  }

  lemma ValueThere<T>(s: State<T>, t: Tid)
    requires Inv(s) && PcOf(s, t).PopMove?
    ensures Shape(s) && NodeAt(s, PcOf(s, t).ticket).val.Some?
  {
    assert PcOk(s, s.pcs[t]);
  }

  lemma {:induction false} PopStays<T>(s: State<T>, t: Tid, n: nat)
    requires Shape(s) && PcOf(s, t).PopDone?
    ensures PopSteps(s, t, n) == s
    decreases n
  {
    if n > 0 {
      PopStays(s, t, n - 1);
    }
  }
}
