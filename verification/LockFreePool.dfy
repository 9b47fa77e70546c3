/**
  The thread pool of thread/LockFreeThreadPool.* on top of the lock-free queue: what is guaranteed about
  its tasks once it has been destroyed.

  Workers and enqueuing threads are threads of the queue of `QueueMachine`; a step of theirs inside Push,
  Pop or Empty is a step of that queue. As its users must, they do not call `enqueue` once the destructor
  has been called, nor call the destructor while an `enqueue` is going on.
 */
module LockFreePool {
  import opened QueueMachine
  import opened Wrappers

  datatype Worker =
    | Starting
    | Popping
    | Running(ticket: nat)
    | Locking
    | CheckStop
    | CheckEmpty
    | Sleeping
    | RecheckStop
    | RecheckEmpty
    | Returned

  datatype Client<T> = CIdle | CPushing(task: T) | CNotifyAll(task: T) | CNotifyOne

  datatype Destroyer = NotStarted | DLocking | DHolding | DNotify | DJoining(next: nat) | DDone

  datatype Owner = Nobody | ByWorker(i: nat) | ByDestroyer

  /** An enqueued task, and the ticket under which its push succeeded. */
  datatype Enqueued<T> = Enqueued(task: T, ticket: nat)

  /**
    `called` lists the tasks `enqueue` was called with, `enqueued` the calls whose push has returned true, and
    `finished` the tickets that were run.
   */
  datatype Pool<T> = Pool(
    q: State<T>,
    workers: seq<Worker>,
    clients: seq<Client<T>>,
    destroyer: Destroyer,
    mutex: Owner,
    stop: bool,
    enqueued: seq<Enqueued<T>>,
    finished: set<nat>,
    called: seq<T>)

  /** The threads of the queue: workers have even numbers and clients odd ones. */
  function WorkerTid(i: nat): Tid {
    2 * i
  }

  function ClientTid(c: nat): Tid {
    2 * c + 1
  }

  ghost predicate PoolInit<T>(p: Pool<T>) {
    && Init(p.q)
    && (forall i | 0 <= i < |p.workers| :: p.workers[i] == Starting)
    && (forall c | 0 <= c < |p.clients| :: p.clients[c] == CIdle)
    && p.destroyer == NotStarted && p.mutex == Nobody && !p.stop && p.enqueued == [] && p.finished == {} && p.called == []
  }

  // ---------------------------------------------------------------- steps

  function MoveWorker<T>(p: Pool<T>, i: nat, w: Worker): Pool<T>
    requires i < |p.workers|
  {
    p.(workers := p.workers[i := w])
  }

  /** Worker i starts an operation of the queue. */
  function WorkerCalls<T>(p: Pool<T>, i: nat, w: Worker, call: Call<T>): Pool<T>
    requires i < |p.workers|
  {
    MoveWorker(p, i, w).(q := Invoke(p.q, WorkerTid(i), call))
  }

  ghost predicate WorkerStep<T>(p: Pool<T>, p': Pool<T>, i: nat)
    requires Shape(p.q) && i < |p.workers|
  {
    var t := WorkerTid(i);
    var pc := PcOf(p.q, t);
    match p.workers[i]
    case Starting => p' == WorkerCalls(p, i, Popping, CallPop)
    case Popping =>
      (match pc
       case PopDone(Some((k, v))) => p' == MoveWorker(p, i, Running(k))
       case PopDone(None) => p' == MoveWorker(p, i, Locking)
       case _ => exists spurious: bool :: p' == p.(q := PopStep(p.q, t, spurious)))
    case Running(k) => p' == WorkerCalls(p, i, Popping, CallPop).(finished := p.finished + {k})
    case Locking => p.mutex == Nobody && p' == MoveWorker(p, i, CheckStop).(mutex := ByWorker(i))
    case CheckStop =>
      if p.stop then p' == MoveWorker(p, i, RecheckStop) else p' == WorkerCalls(p, i, CheckEmpty, CallEmpty)
    case CheckEmpty =>
      (match pc
       case EmptyDone(true) => p' == MoveWorker(p, i, Sleeping).(mutex := Nobody)
       case EmptyDone(false) => p' == MoveWorker(p, i, RecheckStop)
       case _ => p' == p.(q := QueryStep(p.q, t)))
    case RecheckStop =>
      if p.stop then p' == WorkerCalls(p, i, RecheckEmpty, CallEmpty)
      else p' == WorkerCalls(p, i, Popping, CallPop).(mutex := Nobody)
    case RecheckEmpty =>
      (match pc
       case EmptyDone(true) => p' == MoveWorker(p, i, Returned).(mutex := Nobody)
       case EmptyDone(false) => p' == WorkerCalls(p, i, Popping, CallPop).(mutex := Nobody)
       case _ => p' == p.(q := QueryStep(p.q, t)))
    case Sleeping => false
    case Returned => false
  }

  /** Some sleepers, as many as the notification reaches, go back to fight for the mutex. */
  ghost predicate Awakens(workers: seq<Worker>, workers': seq<Worker>) {
    && |workers'| == |workers|
    && forall i | 0 <= i < |workers| :: workers'[i] == workers[i] || (workers[i] == Sleeping && workers'[i] == Locking)
  }

  ghost predicate SomeSleeping(workers: seq<Worker>) {
    exists i :: 0 <= i < |workers| && workers[i] == Sleeping
  }

  /** `notify_one`: one sleeper, whichever, if there is one. */
  ghost predicate AwakensOne(workers: seq<Worker>, workers': seq<Worker>) {
    && Awakens(workers, workers')
    && if SomeSleeping(workers)
       then exists i :: 0 <= i < |workers| && workers[i] == Sleeping && workers' == workers[i := Locking]
       else workers' == workers
  }

  ghost predicate ClientStep<T>(p: Pool<T>, p': Pool<T>, c: nat)
    requires Shape(p.q) && c < |p.clients|
  {
    var t := ClientTid(c);
    match p.clients[c]
    case CIdle => false
    case CPushing(task) =>
      (match PcOf(p.q, t)
       case PushDone(_, Some(k)) => p' == p.(clients := p.clients[c := CNotifyOne], enqueued := p.enqueued + [Enqueued(task, k)])
       case PushDone(_, None) => p' == p.(clients := p.clients[c := CNotifyAll(task)])
       case _ => exists spurious: bool :: p' == p.(q := PushStep(p.q, t, spurious)))
    case CNotifyAll(task) =>
      && Awakens(p.workers, p'.workers)
      && (forall i | 0 <= i < |p.workers| :: p'.workers[i] != Sleeping)
      && p' == p.(workers := p'.workers, clients := p.clients[c := CPushing(task)], q := Invoke(p.q, t, CallPush(task)))
    case CNotifyOne =>
      && AwakensOne(p.workers, p'.workers)
      && p' == p.(workers := p'.workers, clients := p.clients[c := CIdle])
  }

  ghost predicate DestroyerStep<T>(p: Pool<T>, p': Pool<T>) {
    match p.destroyer
    case NotStarted => false
    case DLocking => p.mutex == Nobody && p' == p.(destroyer := DHolding, mutex := ByDestroyer)
    case DHolding => p' == p.(destroyer := DNotify, mutex := Nobody, stop := true)
    case DNotify =>
      && Awakens(p.workers, p'.workers)
      && (forall i | 0 <= i < |p.workers| :: p'.workers[i] != Sleeping)
      && p' == p.(destroyer := DJoining(0), workers := p'.workers)
    case DJoining(k) =>
      if k < |p.workers| then p.workers[k] == Returned && p' == p.(destroyer := DJoining(k + 1))
      else p' == p.(destroyer := DDone)
    case DDone => false
  }

  /** Client c calls `enqueue`. */
  function Enqueues<T>(p: Pool<T>, c: nat, task: T): Pool<T>
    requires c < |p.clients|
  {
    p.(clients := p.clients[c := CPushing(task)], q := Invoke(p.q, ClientTid(c), CallPush(task)), called := p.called + [task])
  }

  /** Calls from outside, within what users may do, and spurious wake-ups. */
  ghost predicate OutsideStep<T(!new)>(p: Pool<T>, p': Pool<T>) {
    || (p.destroyer == NotStarted && exists c, task: T :: 0 <= c < |p.clients| && p.clients[c] == CIdle && p' == Enqueues(p, c, task))
    || (p.destroyer == NotStarted && (forall c | 0 <= c < |p.clients| :: p.clients[c] == CIdle)
          && p' == p.(destroyer := DLocking))
    || (Awakens(p.workers, p'.workers) && p' == p.(workers := p'.workers))
  }

  ghost predicate PoolNext<T(!new)>(p: Pool<T>, p': Pool<T>) {
    && Shape(p.q)
    && (|| (exists i :: 0 <= i < |p.workers| && WorkerStep(p, p', i))
        || (exists c :: 0 <= c < |p.clients| && ClientStep(p, p', c))
        || DestroyerStep(p, p')
        || OutsideStep(p, p'))
  }

  // ---------------------------------------------------------------- invariant

  predicate InPop<T>(pc: Pc<T>) {
    pc.PopLoadHead? || pc.PopLoadReadIndex? || pc.PopCas? || Reading(pc) || pc.PopDone?
  }

  predicate InEmpty<T>(pc: Pc<T>) {
    pc.EmptyLoadHead? || pc.EmptyLoadReadIndex? || pc.EmptyDone?
  }

  predicate InPush<T>(pc: Pc<T>) {
    pc.PushLoadTail? || pc.PushLoadStoreIndex? || pc.PushCas? || Writing(pc) || pc.PushDone?
  }

  /** The place of a worker in its loop and in the queue fit together. */
  predicate WorkerFits<T>(w: Worker, pc: Pc<T>) {
    match w
    case Popping => InPop(pc)
    case CheckEmpty => InEmpty(pc)
    case RecheckEmpty => InEmpty(pc)
    case _ => Resting(pc)
  }

  predicate ClientFits<T>(c: Client<T>, pc: Pc<T>) {
    pc.Idle? || (InPush(pc) && (c.CPushing? || pc.PushDone?))
  }

  ghost predicate ThreadsOk<T>(p: Pool<T>) {
    && (forall i | 0 <= i < |p.workers| :: WorkerFits(p.workers[i], PcOf(p.q, WorkerTid(i))))
    && (forall i | 0 <= i < |p.workers| :: !InPush(PcOf(p.q, WorkerTid(i))))
    && (forall c | 0 <= c < |p.clients| :: ClientFits(p.clients[c], PcOf(p.q, ClientTid(c))))
    && (forall t | t in p.q.pcs :: IsWorker(p, t) || IsClient(p, t))
  }

  predicate IsWorker<T>(p: Pool<T>, t: Tid) {
    t % 2 == 0 && t / 2 < |p.workers|
  }

  predicate IsClient<T>(p: Pool<T>, t: Tid) {
    t % 2 == 1 && t / 2 < |p.clients|
  }

  /** Worker i has taken ticket k out of the queue and not finished it. */
  predicate Carries<T>(w: Worker, pc: Pc<T>, k: nat) {
    || w == Running(k)
    || (w == Popping && (Reads(pc, k) || (pc.PopDone? && pc.result.Some? && pc.result.value.0 == k)))
  }

  ghost predicate CarriedBy<T>(p: Pool<T>, i: nat, k: nat) {
    i < |p.workers| && Carries(p.workers[i], PcOf(p.q, WorkerTid(i)), k)
  }

  /** Every ticket taken is finished or carried by one worker, never both. */
  ghost predicate CarryOk<T>(p: Pool<T>) {
    && (forall k | k in p.finished :: k < p.q.head)
    && (forall i: nat, k: nat {:trigger CarriedBy(p, i, k)} | CarriedBy(p, i, k) :: k < p.q.head && k !in p.finished)
    && (forall i: nat, j: nat, k: nat {:trigger CarriedBy(p, i, k), CarriedBy(p, j, k)} | CarriedBy(p, i, k) && CarriedBy(p, j, k) :: i == j)
    && (forall k: nat {:trigger Accounted(p, k)} | k < p.q.head :: Accounted(p, k))
  }

  ghost predicate Accounted<T>(p: Pool<T>, k: nat) {
    k in p.finished || exists i: nat :: CarriedBy(p, i, k)
  }

  /** After stop, a worker that finds the queue empty is right, and stays so. */
  ghost predicate StopOk<T>(p: Pool<T>)
    requires Shape(p.q)
  {
    && (p.stop ==> p.destroyer != NotStarted)
    && (p.destroyer != NotStarted ==> forall c | 0 <= c < |p.clients| :: p.clients[c] == CIdle)
    && (forall i | 0 <= i < |p.workers| :: FoundEmptyOk(p, p.workers[i], PcOf(p.q, WorkerTid(i))))
  }

  ghost predicate FoundEmptyOk<T>(p: Pool<T>, w: Worker, pc: Pc<T>)
    requires Shape(p.q)
  {
    && (w == Returned ==> p.stop && p.q.head == p.q.tail)
    && (w == RecheckEmpty ==>
          && p.stop
          && (pc == EmptyDone(true) ==> p.q.head == p.q.tail)
          && (pc.EmptyLoadReadIndex? ==> pc.head >= p.q.tail || NodeAt(p.q, pc.head).readIndex == Some(pc.head)))
  }

  ghost predicate PoolInv<T>(p: Pool<T>) {
    Inv(p.q) && ThreadsOk(p) && CarryOk(p) && StopOk(p)
  }

  lemma PoolInitInv<T>(p: Pool<T>)
    requires PoolInit(p)
    ensures PoolInv(p)
  {
    InitInv(p.q);
  }

  /** Nobody is pushing once the destructor has been called. */
  lemma NoWriters<T>(p: Pool<T>)
    requires PoolInv(p) && p.destroyer != NotStarted
    ensures forall t | t in p.q.pcs :: !Writing(p.q.pcs[t])
  {
    forall t | t in p.q.pcs
      ensures !Writing(p.q.pcs[t])
    {
      if IsWorker(p, t) {
        assert WorkerTid(t / 2) == t && !InPush(PcOf(p.q, WorkerTid(t / 2)));
      } else {
        assert ClientTid(t / 2) == t && ClientFits(p.clients[t / 2], PcOf(p.q, ClientTid(t / 2)));
      }
    }
  }

  // ---------------------------------------------------------------- steps inside the queue

  /** What a step of Pop leaves alone, and which ticket it may take. */
  lemma PopStepEffect<T>(q: State<T>, t: Tid, spurious: bool)
    requires Inv(q) && t in q.pcs && InPop(q.pcs[t]) && !q.pcs[t].PopDone?
    ensures var q' := PopStep(q, t, spurious);
      && q'.tail == q.tail && q'.capacity == q.capacity && Shape(q') && OnlyMoved(q, q', t) && InPop(q'.pcs[t])
      && (forall j: nat :: NodeAt(q', j).readIndex == NodeAt(q, j).readIndex)
      && (q'.head == q.head || (q'.head == q.head + 1 && q'.pcs[t] == PopMove(q.head)))
      && (forall k: nat :: Carries(Popping, q'.pcs[t], k) <==> Carries(Popping, q.pcs[t], k) || q.head <= k < q'.head)
  {
    assert PcOk(q, q.pcs[t]);
  }

  /** Threads other than t are where they were, in the pool and in the queue. */
  lemma OtherThreads<T>(p: Pool<T>, p': Pool<T>, t: Tid)
    requires ThreadsOk(p) && OnlyMoved(p.q, p'.q, t) && (IsWorker(p, t) || IsClient(p, t))
    requires p'.workers == p.workers && p'.clients == p.clients
    requires IsWorker(p, t) ==> WorkerFits(p.workers[t / 2], p'.q.pcs[t]) && !InPush(p'.q.pcs[t])
    requires IsClient(p, t) ==> ClientFits(p.clients[t / 2], p'.q.pcs[t])
    ensures ThreadsOk(p')
  {
  }

  lemma PoppingInv<T>(p: Pool<T>, i: nat, spurious: bool)
    requires PoolInv(p) && i < |p.workers| && p.workers[i] == Popping && !PcOf(p.q, WorkerTid(i)).PopDone?
    ensures PoolInv(p.(q := PopStep(p.q, WorkerTid(i), spurious)))
  {
    var t := WorkerTid(i);
    var p' := p.(q := PopStep(p.q, t, spurious));
    PopStepInv(p.q, t, spurious);
    PopStepEffect(p.q, t, spurious);
    OtherThreads(p, p', t);
    PoppingCarry(p, p', i);
    PoppingStop(p, p', i);
  }

  /** A worker that took a new ticket carries it; nobody else is affected. */
  lemma PoppingCarry<T>(p: Pool<T>, p': Pool<T>, i: nat)
    requires CarryOk(p) && i < |p.workers| && p.workers[i] == Popping && WorkerTid(i) in p.q.pcs
    requires p' == p.(q := p'.q) && OnlyMoved(p.q, p'.q, WorkerTid(i)) && p.q.head <= p'.q.head
    requires forall k: nat :: Carries(Popping, p'.q.pcs[WorkerTid(i)], k) <==>
      Carries(Popping, p.q.pcs[WorkerTid(i)], k) || p.q.head <= k < p'.q.head
    ensures CarryOk(p')
  {
    forall j: nat, k: nat
      ensures CarriedBy(p', j, k) <==> CarriedBy(p, j, k) || (j == i && p.q.head <= k < p'.q.head)
    {
      if j < |p.workers| && j != i {
        assert WorkerTid(j) != WorkerTid(i);
        assert PcOf(p'.q, WorkerTid(j)) == PcOf(p.q, WorkerTid(j));
      }
    }
    forall k: nat | k < p'.q.head
      ensures Accounted(p', k)
    {
      if k < p.q.head {
        assert Accounted(p, k);
        if k !in p.finished {
          var j: nat :| CarriedBy(p, j, k);
          assert CarriedBy(p', j, k);
        }
      } else {
        assert CarriedBy(p', i, k);
      }
    }
  }

  lemma PoppingStop<T>(p: Pool<T>, p': Pool<T>, i: nat)
    requires PoolInv(p) && i < |p.workers| && p.workers[i] == Popping
    requires p' == p.(q := p'.q) && OnlyMoved(p.q, p'.q, WorkerTid(i)) && Inv(p'.q)
    requires p'.q.tail == p.q.tail && p.q.head <= p'.q.head && p'.q.capacity == p.q.capacity
    requires forall j: nat :: NodeAt(p'.q, j).readIndex == NodeAt(p.q, j).readIndex
    ensures StopOk(p')
  {
    forall j | 0 <= j < |p.workers|
      ensures FoundEmptyOk(p', p.workers[j], PcOf(p'.q, WorkerTid(j)))
    {
      if j != i {
        assert WorkerTid(j) != WorkerTid(i);
        assert FoundEmptyOk(p, p.workers[j], PcOf(p.q, WorkerTid(j)));
      }
    }
  }

  /** Only worker i has moved, without touching the queue's nodes or counters. */
  ghost predicate WorkerMoved<T>(p: Pool<T>, p': Pool<T>, i: nat) {
    && i < |p.workers| == |p'.workers|
    && (forall j | 0 <= j < |p.workers| && j != i :: p'.workers[j] == p.workers[j])
    && p'.clients == p.clients && p'.destroyer == p.destroyer && p'.stop == p.stop
    && p'.q == p.q.(pcs := p'.q.pcs)
    && (p'.q.pcs == p.q.pcs || OnlyMoved(p.q, p'.q, WorkerTid(i)))
  }

  lemma OtherWorker<T>(p: Pool<T>, p': Pool<T>, i: nat, j: nat)
    requires WorkerMoved(p, p', i) && j != i
    ensures PcOf(p'.q, WorkerTid(j)) == PcOf(p.q, WorkerTid(j))
    ensures forall c :: PcOf(p'.q, ClientTid(c)) == PcOf(p.q, ClientTid(c))
  {
    assert WorkerTid(j) != WorkerTid(i);
    assert forall c :: ClientTid(c) != WorkerTid(i);
  }

  /** What worker i carries is handed on: to itself, or to the finished tasks. */
  ghost predicate HandsOn<T>(p: Pool<T>, p': Pool<T>, i: nat) {
    || (p'.finished == p.finished && forall k: nat :: CarriedBy(p', i, k) <==> CarriedBy(p, i, k))
    || (i < |p.workers| && p.workers[i].Running? && p'.finished == p.finished + {p.workers[i].ticket}
        && forall k: nat :: !CarriedBy(p', i, k))
  }

  lemma MoveCarry<T>(p: Pool<T>, p': Pool<T>, i: nat)
    requires CarryOk(p) && WorkerMoved(p, p', i) && HandsOn(p, p', i)
    ensures CarryOk(p')
  {
    forall j: nat, k: nat | j != i
      ensures CarriedBy(p', j, k) <==> CarriedBy(p, j, k)
    {
      OtherWorker(p, p', i, j);
    }
    if p.workers[i].Running? {
      assert CarriedBy(p, i, p.workers[i].ticket);
    }
    forall k: nat | k < p'.q.head
      ensures Accounted(p', k)
    {
      assert Accounted(p, k);
      if k !in p.finished {
        var j: nat :| CarriedBy(p, j, k);
        assert k in p'.finished || CarriedBy(p', j, k);
      }
    }
  }

  lemma MoveInv<T>(p: Pool<T>, p': Pool<T>, i: nat)
    requires PoolInv(p) && WorkerMoved(p, p', i) && HandsOn(p, p', i) && Inv(p'.q)
    requires var pc := PcOf(p'.q, WorkerTid(i));
      WorkerFits(p'.workers[i], pc) && !InPush(pc) && FoundEmptyOk(p', p'.workers[i], pc)
    ensures PoolInv(p')
  {
    MoveCarry(p, p', i);
  }

  /** A worker inside Empty, called for the wait or for the second look. */
  lemma CheckingInv<T>(p: Pool<T>, i: nat)
    requires PoolInv(p) && i < |p.workers| && (p.workers[i] == CheckEmpty || p.workers[i] == RecheckEmpty)
    requires !PcOf(p.q, WorkerTid(i)).EmptyDone?
    ensures PoolInv(p.(q := QueryStep(p.q, WorkerTid(i))))
  {
    var t := WorkerTid(i);
    var p' := p.(q := QueryStep(p.q, t));
    QueryStepInv(p.q, t);
    if p.workers[i] == RecheckEmpty {
      RecheckFinds(p, i);
    }
    MoveInv(p, p', i);
  }

  /**
    The second look tells the truth: with nobody pushing, a head index that is still in the queue when it
    is loaded stays published, so the look can only come out empty if the queue was empty at that load.
   */
  lemma RecheckFinds<T>(p: Pool<T>, i: nat)
    requires PoolInv(p) && i < |p.workers| && p.workers[i] == RecheckEmpty && !PcOf(p.q, WorkerTid(i)).EmptyDone?
    ensures var q' := QueryStep(p.q, WorkerTid(i));
      FoundEmptyOk(p.(q := q'), RecheckEmpty, PcOf(q', WorkerTid(i)))
  {
    var t := WorkerTid(i);
    var q := p.q;
    assert FoundEmptyOk(p, p.workers[i], PcOf(q, t));
    NoWriters(p);
    if q.pcs[t].EmptyLoadHead? && q.head < q.tail {
      assert NodeAt(q, q.head).storeIndex == q.head;
      assert NodeOk(q, NodeIndex(q, q.head));
      assert !HasWriter(q, q.head);
    } else if q.pcs[t].EmptyLoadReadIndex? {
      assert PcOk(q, q.pcs[t]);
    }
  }

  /** Inside the queue the step is one of Pop or Empty; between two calls it is a decision. */
  lemma WorkerStepInv<T>(p: Pool<T>, p': Pool<T>, i: nat)
    requires PoolInv(p) && i < |p.workers| && WorkerStep(p, p', i)
    ensures PoolInv(p')
  {
    Fits(p, i);
    hide PoolInv, ThreadsOk;
    var t := WorkerTid(i);
    var pc := PcOf(p.q, t);
    match p.workers[i]
    case Starting => CallingInv(p, p', i, CallPop);
    case Popping => PoppingArm(p, p', i);
    case Running(k) => CallingInv(p, p', i, CallPop);
    case Locking => SilentInv(p, p', i);
    case CheckStop =>
      if p.stop {
        SilentInv(p, p', i);
      } else {
        CallingInv(p, p', i, CallEmpty);
      }
    case CheckEmpty =>
      if pc.EmptyDone? {
        SilentInv(p, p', i);
      } else {
        CheckingInv(p, i);
      }
    case RecheckStop => CallingInv(p, p', i, if p.stop then CallEmpty else CallPop);
    case RecheckEmpty => RecheckArm(p, p', i);
  }

  lemma PoppingArm<T>(p: Pool<T>, p': Pool<T>, i: nat)
    requires PoolInv(p) && i < |p.workers| && WorkerStep(p, p', i) && p.workers[i] == Popping
    ensures PoolInv(p')
  {
    assert Shape(p.q);
    hide PoolInv, ThreadsOk;
    var t := WorkerTid(i);
    if PcOf(p.q, t).PopDone? {
      SilentInv(p, p', i);
    } else {
      var spurious: bool :| p' == p.(q := PopStep(p.q, t, spurious));
      PoppingInv(p, i, spurious);
    }
  }

  lemma RecheckArm<T>(p: Pool<T>, p': Pool<T>, i: nat)
    requires PoolInv(p) && i < |p.workers| && WorkerStep(p, p', i) && p.workers[i] == RecheckEmpty
    ensures PoolInv(p')
  {
    Fits(p, i);
    hide PoolInv, ThreadsOk, StopOk;
    var pc := PcOf(p.q, WorkerTid(i));
    if !pc.EmptyDone? {
      CheckingInv(p, i);
    } else if pc.empty {
      SilentInv(p, p', i);
    } else {
      CallingInv(p, p', i, CallPop);
    }
  }

  lemma Fits<T>(p: Pool<T>, i: nat)
    requires ThreadsOk(p) && i < |p.workers|
    ensures WorkerFits(p.workers[i], PcOf(p.q, WorkerTid(i)))
  {
  }

  /** A decision that calls nothing. */
  lemma SilentInv<T>(p: Pool<T>, p': Pool<T>, i: nat)
    requires PoolInv(p) && i < |p.workers| == |p'.workers| && p'.q == p.q
    requires p' == MoveWorker(p, i, p'.workers[i]).(mutex := p'.mutex)
    requires var pc := PcOf(p.q, WorkerTid(i));
      match p.workers[i]
      case Popping => pc.PopDone? && p'.workers[i] == (if pc.result.Some? then Running(pc.result.value.0) else Locking)
      case Locking => p'.workers[i] == CheckStop
      case CheckStop => p'.workers[i] == RecheckStop
      case CheckEmpty => pc.EmptyDone? && p'.workers[i] == (if pc.empty then Sleeping else RecheckStop)
      case RecheckEmpty => pc == EmptyDone(true) && p'.workers[i] == Returned
      case _ => false
    ensures PoolInv(p')
  {
    var pc := PcOf(p.q, WorkerTid(i));
    assert WorkerFits(p.workers[i], pc);
    assert FoundEmptyOk(p, p.workers[i], pc);
    MoveInv(p, p', i);
  }

  /** A decision that calls an operation of the queue. */
  lemma CallingInv<T>(p: Pool<T>, p': Pool<T>, i: nat, call: Call<T>)
    requires PoolInv(p) && i < |p.workers| == |p'.workers| && Resting(PcOf(p.q, WorkerTid(i))) && (call == CallPop || call == CallEmpty)
    requires p' == WorkerCalls(p, i, p'.workers[i], call).(mutex := p'.mutex, finished := p'.finished)
    requires p.workers[i] != Popping && p.workers[i] != Returned
    requires p'.finished == if p.workers[i].Running? then p.finished + {p.workers[i].ticket} else p.finished
    requires p'.workers[i] == if call == CallPop then Popping else if p.workers[i] == CheckStop then CheckEmpty else RecheckEmpty
    requires p'.workers[i] == RecheckEmpty ==> p.stop
    ensures PoolInv(p')
  {
    InvokeInv(p.q, WorkerTid(i), call);
    MoveInv(p, p', i);
  }

  // ---------------------------------------------------------------- clients, destructor, outside

  /** Only sleepers may have moved, and only to the mutex. */
  lemma AwakenInv<T>(p: Pool<T>, p': Pool<T>)
    requires PoolInv(p) && Awakens(p.workers, p'.workers) && p' == p.(workers := p'.workers)
    ensures PoolInv(p')
  {
    forall i | 0 <= i < |p.workers|
      ensures WorkerFits(p'.workers[i], PcOf(p.q, WorkerTid(i))) && FoundEmptyOk(p', p'.workers[i], PcOf(p.q, WorkerTid(i)))
    {
      assert WorkerFits(p.workers[i], PcOf(p.q, WorkerTid(i)));
      assert FoundEmptyOk(p, p.workers[i], PcOf(p.q, WorkerTid(i)));
    }
    SameCarry(p, p');
  }

  lemma SameCarry<T>(p: Pool<T>, p': Pool<T>)
    requires CarryOk(p) && p'.finished == p.finished && p'.q.head == p.q.head
    requires forall i: nat, k: nat :: CarriedBy(p', i, k) <==> CarriedBy(p, i, k)
    ensures CarryOk(p')
  {
    forall k: nat | k < p.q.head
      ensures Accounted(p', k)
    {
      assert Accounted(p, k);
      if k !in p.finished {
        var i: nat :| CarriedBy(p, i, k);
        assert CarriedBy(p', i, k);
      }
    }
  }

  /** Client c has moved, in its own loop, in the queue, or both, before the destructor was called. */
  ghost predicate ClientMoved<T>(p: Pool<T>, p': Pool<T>, c: nat) {
    && c < |p.clients| == |p'.clients|
    && (forall d | 0 <= d < |p.clients| && d != c :: p'.clients[d] == p.clients[d])
    && p'.workers == p.workers && p'.destroyer == p.destroyer && p'.stop == p.stop && p'.finished == p.finished
    && p'.q.head == p.q.head
    && (p'.q.pcs == p.q.pcs || OnlyMoved(p.q, p'.q, ClientTid(c)))
    && ClientFits(p'.clients[c], PcOf(p'.q, ClientTid(c)))
  }

  lemma ClientMovedInv<T>(p: Pool<T>, p': Pool<T>, c: nat)
    requires PoolInv(p) && ClientMoved(p, p', c) && Inv(p'.q)
    requires p.destroyer == NotStarted || (p'.q == p.q && p'.clients[c] == CIdle)
    ensures PoolInv(p')
  {
    forall i | 0 <= i < |p.workers|
      ensures PcOf(p'.q, WorkerTid(i)) == PcOf(p.q, WorkerTid(i))
    {
      assert WorkerTid(i) != ClientTid(c);
    }
    forall d | 0 <= d < |p.clients| && d != c
      ensures PcOf(p'.q, ClientTid(d)) == PcOf(p.q, ClientTid(d))
    {
      assert ClientTid(d) != ClientTid(c);
    }
    SameCarry(p, p');
    forall i | 0 <= i < |p.workers|
      ensures FoundEmptyOk(p', p'.workers[i], PcOf(p'.q, WorkerTid(i)))
    {
      assert FoundEmptyOk(p, p.workers[i], PcOf(p.q, WorkerTid(i)));
    }
  }

  lemma PushStepEffect<T>(q: State<T>, t: Tid, spurious: bool)
    requires Inv(q) && t in q.pcs && InPush(q.pcs[t]) && !q.pcs[t].PushDone?
    ensures var q' := PushStep(q, t, spurious);
      q'.head == q.head && OnlyMoved(q, q', t) && InPush(q'.pcs[t])
  {
  }

  lemma ClientStepInv<T>(p: Pool<T>, p': Pool<T>, c: nat)
    requires PoolInv(p) && c < |p.clients| && ClientStep(p, p', c)
    ensures PoolInv(p')
  {
    var t := ClientTid(c);
    assert ClientFits(p.clients[c], PcOf(p.q, t));
    assert p.clients[c] != CIdle && p.destroyer == NotStarted;
    match p.clients[c]
    case CPushing(task) =>
      if PcOf(p.q, t).PushDone? {
        ClientMovedInv(p, p', c);
      } else {
        var spurious: bool :| p' == p.(q := PushStep(p.q, t, spurious));
        PushingInv(p, c, spurious);
      }
    case CNotifyAll(task) =>
      var p1 := p.(workers := p'.workers);
      AwakenInv(p, p1);
      InvokeInv(p.q, t, CallPush(task));
      ClientMovedInv(p1, p', c);
    case CNotifyOne =>
      var p1 := p.(workers := p'.workers);
      AwakenInv(p, p1);
      ClientMovedInv(p1, p', c);
  }

  lemma PushingInv<T>(p: Pool<T>, c: nat, spurious: bool)
    requires PoolInv(p) && c < |p.clients| && p.clients[c].CPushing? && p.destroyer == NotStarted
    requires !PcOf(p.q, ClientTid(c)).PushDone?
    ensures PoolInv(p.(q := PushStep(p.q, ClientTid(c), spurious)))
  {
    var t := ClientTid(c);
    assert ClientFits(p.clients[c], PcOf(p.q, t));
    PushStepInv(p.q, t, spurious);
    if t in p.q.pcs && InPush(p.q.pcs[t]) {
      PushStepEffect(p.q, t, spurious);
      ClientMovedInv(p, p.(q := PushStep(p.q, t, spurious)), c);
    }
  }

  lemma CallsEnqueueInv<T>(p: Pool<T>, c: nat, task: T)
    requires PoolInv(p) && c < |p.clients| && p.clients[c] == CIdle && p.destroyer == NotStarted
    ensures PoolInv(Enqueues(p, c, task))
  {
    assert ClientFits(p.clients[c], PcOf(p.q, ClientTid(c)));
    InvokeInv(p.q, ClientTid(c), CallPush(task));
    ClientMovedInv(p, Enqueues(p, c, task), c);
  }

  /** Only the destructor has moved; stop is never taken back. */
  lemma DestroyerMovedInv<T>(p: Pool<T>, p': Pool<T>)
    requires PoolInv(p) && p' == p.(destroyer := p'.destroyer, mutex := p'.mutex, stop := p'.stop)
    requires p.stop ==> p'.stop
    requires p'.stop ==> p'.destroyer != NotStarted
    requires p'.destroyer != NotStarted ==> forall c | 0 <= c < |p.clients| :: p.clients[c] == CIdle
    ensures PoolInv(p')
  {
    forall i | 0 <= i < |p.workers|
      ensures FoundEmptyOk(p', p'.workers[i], PcOf(p'.q, WorkerTid(i)))
    {
      assert FoundEmptyOk(p, p.workers[i], PcOf(p.q, WorkerTid(i)));
    }
    SameCarry(p, p');
  }

  lemma DestroyerStepInv<T>(p: Pool<T>, p': Pool<T>)
    requires PoolInv(p) && DestroyerStep(p, p')
    ensures PoolInv(p')
  {
    var p1 := p.(workers := p'.workers);
    if p.destroyer == DNotify {
      AwakenInv(p, p1);
    }
    DestroyerMovedInv(p1, p');
  }

  lemma OutsideStepInv<T(!new)>(p: Pool<T>, p': Pool<T>)
    requires PoolInv(p) && OutsideStep(p, p')
    ensures PoolInv(p')
  {
    if c, task: T :| p.destroyer == NotStarted && 0 <= c < |p.clients| && p.clients[c] == CIdle && p' == Enqueues(p, c, task) {
      CallsEnqueueInv(p, c, task);
    } else if p.destroyer == NotStarted && p' == p.(destroyer := DLocking) {
      DestroyerMovedInv(p, p');
    } else {
      AwakenInv(p, p');
    }
  }

  ghost predicate PoolRun<T(!new)>(trace: seq<Pool<T>>) {
    && |trace| >= 1 && PoolInit(trace[0])
    && forall i | 0 <= i < |trace| - 1 :: PoolNext(trace[i], trace[i + 1])
  }

  lemma {:induction false} PoolRunInv<T(!new)>(trace: seq<Pool<T>>, i: nat)
    requires PoolRun(trace) && i < |trace|
    ensures PoolInv(trace[i])
  {
    hide PoolInit, PoolInv, WorkerStep, ClientStep, DestroyerStep, OutsideStep;
    if i == 0 {
      PoolInitInv(trace[0]);
    } else {
      PoolRunInv(trace, i - 1);
      var p, p' := trace[i - 1], trace[i - 1 + 1];
      assert PoolNext(p, p');
      if j :| 0 <= j < |p.workers| && WorkerStep(p, p', j) {
        WorkerStepInv(p, p', j);
      } else if c :| 0 <= c < |p.clients| && ClientStep(p, p', c) {
        ClientStepInv(p, p', c);
      } else if DestroyerStep(p, p') {
        DestroyerStepInv(p, p');
      } else {
        OutsideStepInv(p, p');
      }
    }
  }
}
