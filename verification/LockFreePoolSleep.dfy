/**
  When the workers of the lock-free thread pool sleep, wake up and return, in every run: the mutex of the wait, the
  stop of the destructor, and the states in which nothing moves any more.
 */
module LockFreePoolSleep {
  import opened LockFreePool
  import opened LockFreePoolTheorems
  import opened QueueMachine
  import opened Wrappers

  // ---------------------------------------------------------------- one worker

  /** How worker i can have come to where it is, and what its step saw. */
  ghost predicate Comes<T>(p: Pool<T>, p': Pool<T>, i: nat)
    requires i < |p.workers| == |p'.workers|
  {
    var from, pc := p.workers[i], PcOf(p.q, WorkerTid(i));
    match p'.workers[i]
    case Starting => false
    case Popping =>
      || from == Starting || (from == RecheckStop && !p.stop) || (from == RecheckEmpty && pc == EmptyDone(false))
      || (from.Running? && p'.finished == p.finished + {from.ticket})
    case Running(k) => from == Popping && pc.PopDone? && pc.result.Some? && pc.result.value.0 == k
    case Locking => (from == Popping && pc == PopDone(None)) || from == Sleeping
    case CheckStop => from == Locking && p.mutex == Nobody
    case CheckEmpty => from == CheckStop && !p.stop
    case Sleeping => from == CheckEmpty && pc == EmptyDone(true)
    case RecheckStop => (from == CheckStop && p.stop) || (from == CheckEmpty && pc == EmptyDone(false))
    case RecheckEmpty => from == RecheckStop && p.stop
    case Returned => from == RecheckEmpty && pc == EmptyDone(true)
  }

  /** What a step of worker i leaves alone, and what it does with the mutex. */
  ghost predicate OwnEffect<T>(p: Pool<T>, p': Pool<T>, i: nat) {
    && i < |p.workers| == |p'.workers| && p'.workers == p.workers[i := p'.workers[i]]
    && p'.stop == p.stop && p'.destroyer == p.destroyer && p.workers[i] != Returned
    && (p'.workers[i] != p.workers[i] ==> Comes(p, p', i))
    && (if Critical(p.workers[i]) == Critical(p'.workers[i]) then p'.mutex == p.mutex
        else if Critical(p'.workers[i]) then p.mutex == Nobody && p'.mutex == ByWorker(i)
        else p'.mutex == Nobody)
  }

  lemma PoppingStep<T>(p: Pool<T>, p': Pool<T>, i: nat)
    requires Shape(p.q) && i < |p.workers| && WorkerStep(p, p', i) && p.workers[i] == Popping
    ensures OwnEffect(p, p', i)
  {
    hide PopStep, QueryStep, Invoke;
    var pc := PcOf(p.q, WorkerTid(i));
    if !pc.PopDone? {
      assert p'.workers == p.workers;
    } else if pc.result.Some? {
      assert p' == MoveWorker(p, i, Running(pc.result.value.0));
    } else {
      assert p' == MoveWorker(p, i, Locking);
    }
  }

  lemma TakingStep<T>(p: Pool<T>, p': Pool<T>, i: nat)
    requires Shape(p.q) && i < |p.workers| && WorkerStep(p, p', i)
    requires p.workers[i] == Starting || p.workers[i].Running? || p.workers[i] == Locking
    ensures OwnEffect(p, p', i)
  {
    hide PopStep, QueryStep, Invoke;
  }

  lemma WaitingStep<T>(p: Pool<T>, p': Pool<T>, i: nat)
    requires Shape(p.q) && i < |p.workers| && WorkerStep(p, p', i)
    requires p.workers[i] == CheckStop || p.workers[i] == CheckEmpty
    ensures OwnEffect(p, p', i)
  {
    hide PopStep, QueryStep, Invoke;
    if p.workers[i] == CheckEmpty && !PcOf(p.q, WorkerTid(i)).EmptyDone? {
      assert p'.workers == p.workers;
    }
  }

  lemma LeavingStep<T>(p: Pool<T>, p': Pool<T>, i: nat)
    requires Shape(p.q) && i < |p.workers| && WorkerStep(p, p', i)
    requires p.workers[i] == RecheckStop || p.workers[i] == RecheckEmpty
    ensures OwnEffect(p, p', i)
  {
    hide PopStep, QueryStep, Invoke;
    if p.workers[i] == RecheckEmpty && !PcOf(p.q, WorkerTid(i)).EmptyDone? {
      assert p'.workers == p.workers;
    }
  }

  lemma OwnStep<T>(p: Pool<T>, p': Pool<T>, i: nat)
    requires Shape(p.q) && i < |p.workers| && WorkerStep(p, p', i)
    ensures OwnEffect(p, p', i)
  {
    RestingNever(p, p', i);
    hide WorkerStep, OwnEffect;
    match p.workers[i]
    case Popping => PoppingStep(p, p', i);
    case CheckStop => WaitingStep(p, p', i);
    case CheckEmpty => WaitingStep(p, p', i);
    case RecheckStop => LeavingStep(p, p', i);
    case RecheckEmpty => LeavingStep(p, p', i);
    case _ => TakingStep(p, p', i);
  }

  lemma RestingNever<T>(p: Pool<T>, p': Pool<T>, i: nat)
    requires Shape(p.q) && i < |p.workers| && WorkerStep(p, p', i)
    ensures p.workers[i] != Sleeping && p.workers[i] != Returned
  {
    hide PopStep, QueryStep, Invoke;
  }

  /** Whatever step the pool takes, a worker that is somewhere else afterwards has made one of these moves. */
  lemma WorkerComes<T(!new)>(p: Pool<T>, p': Pool<T>, i: nat)
    requires PoolNext(p, p') && i < |p.workers|
    ensures |p'.workers| == |p.workers| && (p'.workers[i] != p.workers[i] ==> Comes(p, p', i))
  {
    hide WorkerStep, ClientStep, DestroyerStep;
    if j :| 0 <= j < |p.workers| && WorkerStep(p, p', j) {
      OwnStep(p, p', j);
    } else if c :| 0 <= c < |p.clients| && ClientStep(p, p', c) {
      ClientAwakens(p, p', c);
    } else if DestroyerStep(p, p') {
      DestroyerAwakens(p, p');
    }
  }

  /** Clients touch the workers by waking them, and nothing else of what the workers agree about. */
  ghost predicate Wakes<T>(p: Pool<T>, p': Pool<T>) {
    Awakens(p.workers, p'.workers) && p'.mutex == p.mutex && p'.stop == p.stop && p'.destroyer == p.destroyer
  }

  lemma ClientAwakens<T>(p: Pool<T>, p': Pool<T>, c: nat)
    requires Shape(p.q) && c < |p.clients| && ClientStep(p, p', c)
    ensures Wakes(p, p')
  {
    hide PushStep, Invoke;
  }

  lemma DestroyerAwakens<T>(p: Pool<T>, p': Pool<T>)
    requires DestroyerStep(p, p')
    ensures Awakens(p.workers, p'.workers)
  {
  }

  // ---------------------------------------------------------------- mutex and stop

  /** Between taking the mutex and giving it back, by falling asleep or by leaving. */
  predicate Critical(w: Worker) {
    w == CheckStop || w == CheckEmpty || w == RecheckStop || w == RecheckEmpty
  }

  ghost predicate MutexOk<T>(p: Pool<T>) {
    && (forall i | 0 <= i < |p.workers| :: Critical(p.workers[i]) <==> p.mutex == ByWorker(i))
    && (p.mutex.ByWorker? ==> p.mutex.i < |p.workers|)
    && (p.destroyer == DHolding <==> p.mutex == ByDestroyer)
  }

  ghost predicate StoppingOk<T>(p: Pool<T>) {
    && (p.stop <==> p.destroyer.DNotify? || p.destroyer.DJoining? || p.destroyer.DDone?)
    && (forall i | 0 <= i < |p.workers| && p.workers[i] == CheckEmpty :: !p.stop)
    && (forall i | 0 <= i < |p.workers| && p.workers[i] == Sleeping :: p.stop ==> p.destroyer == DNotify)
    && (p.destroyer.DJoining? ==>
          p.destroyer.next <= |p.workers| && forall i | 0 <= i < p.destroyer.next :: p.workers[i] == Returned)
    && (p.destroyer.DDone? ==> forall i | 0 <= i < |p.workers| :: p.workers[i] == Returned)
  }

  ghost predicate SleepInv<T>(p: Pool<T>) {
    MutexOk(p) && StoppingOk(p)
  }

  lemma WorkerSleepInv<T>(p: Pool<T>, p': Pool<T>, i: nat)
    requires SleepInv(p) && Shape(p.q) && i < |p.workers| && WorkerStep(p, p', i)
    ensures SleepInv(p')
  {
    hide WorkerStep;
    OwnStep(p, p', i);
  }

  lemma WakesSleepInv<T>(p: Pool<T>, p': Pool<T>)
    requires SleepInv(p) && Wakes(p, p')
    ensures SleepInv(p')
  {
  }

  lemma DestroyerSleepInv<T>(p: Pool<T>, p': Pool<T>)
    requires SleepInv(p) && DestroyerStep(p, p')
    ensures SleepInv(p')
  {
  }

  lemma OutsideSleepInv<T(!new)>(p: Pool<T>, p': Pool<T>)
    requires SleepInv(p) && OutsideStep(p, p')
    ensures SleepInv(p')
  {
    if p.destroyer == NotStarted && p' == p.(destroyer := DLocking) {
    } else {
      assert Wakes(p, p');
    }
  }

  /**
    In every reachable state at most one worker is between taking the mutex and giving it back; stop is set only
    while none is; and once stop is set and everybody has been notified nobody sleeps.
   */
  lemma {:induction false} RunSleepInv<T(!new)>(trace: seq<Pool<T>>, n: nat)
    requires PoolRun(trace) && n < |trace|
    ensures SleepInv(trace[n])
  {
    hide SleepInv, WorkerStep, ClientStep, DestroyerStep, OutsideStep;
    if n == 0 {
      InitSleepInv(trace[0]);
    } else {
      RunSleepInv(trace, n - 1);
      var p, p' := trace[n - 1], trace[n - 1 + 1];
      assert PoolNext(p, p');
      if j :| 0 <= j < |p.workers| && WorkerStep(p, p', j) {
        WorkerSleepInv(p, p', j);
      } else if c :| 0 <= c < |p.clients| && ClientStep(p, p', c) {
        ClientAwakens(p, p', c);
        WakesSleepInv(p, p');
      } else if DestroyerStep(p, p') {
        DestroyerSleepInv(p, p');
      } else {
        OutsideSleepInv(p, p');
      }
    }
  }

  lemma InitSleepInv<T>(p: Pool<T>)
    requires PoolInit(p)
    ensures SleepInv(p)
  {
  }

  /** A worker falls asleep only after Empty, called under the mutex, has answered true, and not once stop is set. */
  lemma SleepsWhenEmpty<T(!new)>(trace: seq<Pool<T>>, n: nat, i: nat)
    requires PoolRun(trace) && n + 1 < |trace| && i < |trace[n].workers| == |trace[n + 1].workers|
    requires trace[n].workers[i] != Sleeping && trace[n + 1].workers[i] == Sleeping
    ensures PcOf(trace[n].q, WorkerTid(i)) == EmptyDone(true) && !trace[n].stop && trace[n].mutex == ByWorker(i)
  {
    RunSleepInv(trace, n);
    assert PoolNext(trace[n], trace[n + 1]);
    hide PoolNext;
    WorkerComes(trace[n], trace[n + 1], i);
  }

  // ---------------------------------------------------------------- when nothing moves

  /** A step of the pool itself: no new call, and no wake-up for no reason. */
  ghost predicate Internal<T>(p: Pool<T>, p': Pool<T>)
    requires Shape(p.q)
  {
    || (exists i :: 0 <= i < |p.workers| && WorkerStep(p, p', i))
    || (exists c :: 0 <= c < |p.clients| && ClientStep(p, p', c))
    || DestroyerStep(p, p')
  }

  ghost predicate Stuck<T(!new)>(p: Pool<T>)
    requires Shape(p.q)
  {
    !exists p' :: Internal(p, p')
  }

  function AllAwake(workers: seq<Worker>): seq<Worker> {
    seq(|workers|, i requires 0 <= i < |workers| => if workers[i] == Sleeping then Locking else workers[i])
  }

  lemma LoopMoves<T>(p: Pool<T>, i: nat) returns (p': Pool<T>)
    requires Shape(p.q) && i < |p.workers|
    requires p.workers[i] == Starting || p.workers[i] == Popping || p.workers[i].Running? || (p.workers[i] == Locking && p.mutex == Nobody)
    ensures WorkerStep(p, p', i)
  {
    hide PopStep, QueryStep, Invoke;
    var t := WorkerTid(i);
    var pc := PcOf(p.q, t);
    match p.workers[i] {
      case Starting => p' := WorkerCalls(p, i, Popping, CallPop);
      case Popping =>
        if pc.PopDone? {
          p' := MoveWorker(p, i, if pc.result.Some? then Running(pc.result.value.0) else Locking);
        } else {
          p' := p.(q := PopStep(p.q, t, false));
        }
      case Running(k) => p' := WorkerCalls(p, i, Popping, CallPop).(finished := p.finished + {k});
      case Locking => p' := MoveWorker(p, i, CheckStop).(mutex := ByWorker(i));
    }
  }

  lemma WaitMoves<T>(p: Pool<T>, i: nat) returns (p': Pool<T>)
    requires Shape(p.q) && i < |p.workers| && Critical(p.workers[i])
    ensures WorkerStep(p, p', i)
  {
    hide PopStep, QueryStep, Invoke;
    var t := WorkerTid(i);
    var pc := PcOf(p.q, t);
    match p.workers[i] {
      case CheckStop => p' := if p.stop then MoveWorker(p, i, RecheckStop) else WorkerCalls(p, i, CheckEmpty, CallEmpty);
      case CheckEmpty =>
        p' := if pc == EmptyDone(true) then MoveWorker(p, i, Sleeping).(mutex := Nobody)
              else if pc == EmptyDone(false) then MoveWorker(p, i, RecheckStop)
              else p.(q := QueryStep(p.q, t));
      case RecheckStop =>
        p' := if p.stop then WorkerCalls(p, i, RecheckEmpty, CallEmpty) else WorkerCalls(p, i, Popping, CallPop).(mutex := Nobody);
      case RecheckEmpty =>
        p' := if pc == EmptyDone(true) then MoveWorker(p, i, Returned).(mutex := Nobody)
              else if pc == EmptyDone(false) then WorkerCalls(p, i, Popping, CallPop).(mutex := Nobody)
              else p.(q := QueryStep(p.q, t));
    }
  }

  lemma WorkerMoves<T>(p: Pool<T>, i: nat) returns (p': Pool<T>)
    requires Shape(p.q) && i < |p.workers| && p.workers[i] != Sleeping && p.workers[i] != Returned
    requires p.workers[i] == Locking ==> p.mutex == Nobody
    ensures Internal(p, p')
  {
    hide WorkerStep;
    if Critical(p.workers[i]) {
      p' := WaitMoves(p, i);
    } else {
      p' := LoopMoves(p, i);
    }
  }

  lemma ClientMoves<T>(p: Pool<T>, c: nat) returns (p': Pool<T>)
    requires Shape(p.q) && c < |p.clients| && p.clients[c] != CIdle
    ensures Internal(p, p')
  {
    hide PushStep, Invoke;
    var t := ClientTid(c);
    var pc := PcOf(p.q, t);
    match p.clients[c] {
      case CPushing(task) =>
        if pc.PushDone? {
          p' := if pc.at.Some? then p.(clients := p.clients[c := CNotifyOne], enqueued := p.enqueued + [Enqueued(task, pc.at.value)])
                else p.(clients := p.clients[c := CNotifyAll(task)]);
        } else {
          p' := p.(q := PushStep(p.q, t, false));
        }
      case CNotifyAll(task) =>
        p' := p.(workers := AllAwake(p.workers), clients := p.clients[c := CPushing(task)], q := Invoke(p.q, t, CallPush(task)));
      case CNotifyOne =>
        p' := p.(clients := p.clients[c := CIdle]);
        if i :| 0 <= i < |p.workers| && p.workers[i] == Sleeping {
          p' := p'.(workers := p.workers[i := Locking]);
        }
    }
    assert ClientStep(p, p', c);
  }

  lemma DestroyerMoves<T>(p: Pool<T>) returns (p': Pool<T>)
    requires Shape(p.q) && p.destroyer != NotStarted && p.destroyer != DDone
    requires p.destroyer == DLocking ==> p.mutex == Nobody
    requires p.destroyer.DJoining? && p.destroyer.next < |p.workers| ==> p.workers[p.destroyer.next] == Returned
    ensures Internal(p, p')
  {
    match p.destroyer {
      case DLocking => p' := p.(destroyer := DHolding, mutex := ByDestroyer);
      case DHolding => p' := p.(destroyer := DNotify, mutex := Nobody, stop := true);
      case DNotify => p' := p.(destroyer := DJoining(0), workers := AllAwake(p.workers));
      case DJoining(k) => p' := if k < |p.workers| then p.(destroyer := DJoining(k + 1)) else p.(destroyer := DDone);
    }
    assert DestroyerStep(p, p');
  }

  /** Nobody is inside anything: all workers have returned with the destructor through, or all of them sleep. */
  ghost predicate Settled<T>(p: Pool<T>) {
    && p.mutex == Nobody && (forall c | 0 <= c < |p.clients| :: p.clients[c] == CIdle)
    && (|| (p.destroyer == DDone && forall i | 0 <= i < |p.workers| :: p.workers[i] == Returned)
        || (p.destroyer == NotStarted && !p.stop && forall i | 0 <= i < |p.workers| :: p.workers[i] == Sleeping))
  }

  /**
    The only reachable states in which nothing moves by itself are those in which the destructor is through and
    every worker has returned, and those in which it has not been called, every worker sleeps, and no call is under
    way. So a destructor that has been called is never left waiting for a sleeper.
   */
  lemma StuckIsSettled<T(!new)>(trace: seq<Pool<T>>, n: nat)
    requires PoolRun(trace) && n < |trace|
    ensures Shape(trace[n].q) && (Stuck(trace[n]) ==> Settled(trace[n]))
  {
    var p := trace[n];
    RunSleepInv(trace, n);
    PoolRunInv(trace, n);
    assert Shape(p.q);
    assert forall i | 0 <= i < |p.workers| && p.workers[i] == Returned :: p.stop by { ReturnedAfterStop(p); }
    hide PoolRun, PoolInv, Internal, WorkerStep;
    if Stuck(p) {
      NobodyAwake(p);
      forall c | 0 <= c < |p.clients|
        ensures p.clients[c] == CIdle
      {
        if p.clients[c] != CIdle {
          var p' := ClientMoves(p, c);
          assert false;
        }
      }
      DestructorRests(p);
    }
  }

  lemma ReturnedAfterStop<T>(p: Pool<T>)
    requires PoolInv(p)
    ensures forall i | 0 <= i < |p.workers| && p.workers[i] == Returned :: p.stop
  {
    forall i | 0 <= i < |p.workers| && p.workers[i] == Returned
      ensures p.stop
    {
      assert FoundEmptyOk(p, p.workers[i], PcOf(p.q, WorkerTid(i)));
    }
  }

  lemma NobodyAwake<T(!new)>(p: Pool<T>)
    requires SleepInv(p) && Shape(p.q) && Stuck(p)
    ensures p.mutex == Nobody && forall i | 0 <= i < |p.workers| :: p.workers[i] == Sleeping || p.workers[i] == Returned
  {
    hide Internal;
    if p.mutex.ByWorker? {
      var p' := WorkerMoves(p, p.mutex.i);
      assert false;
    } else if p.mutex.ByDestroyer? {
      var p' := DestroyerMoves(p);
      assert false;
    }
    forall i | 0 <= i < |p.workers|
      ensures p.workers[i] == Sleeping || p.workers[i] == Returned
    {
      if p.workers[i] != Sleeping && p.workers[i] != Returned {
        var p' := WorkerMoves(p, i);
        assert false;
      }
    }
  }

  lemma DestructorRests<T(!new)>(p: Pool<T>)
    requires SleepInv(p) && Shape(p.q) && Stuck(p) && p.mutex == Nobody
    requires forall i | 0 <= i < |p.workers| :: p.workers[i] == Sleeping || p.workers[i] == Returned
    ensures p.destroyer == NotStarted || p.destroyer == DDone
  {
    hide Internal;
    if p.destroyer != NotStarted && p.destroyer != DDone {
      if p.destroyer.DJoining? && p.destroyer.next < |p.workers| {
        assert p.workers[p.destroyer.next] == Returned;
      }
      var p' := DestroyerMoves(p);
      assert false;
    }
  }

  /** When nothing moves any more, every enqueued task has run if and only if the queue is empty. */
  lemma StrandedExactly<T(!new)>(trace: seq<Pool<T>>, n: nat)
    requires PoolRun(trace) && n < |trace|
    ensures Shape(trace[n].q)
    ensures var p := trace[n];
      Stuck(p) ==>
        ((forall a | 0 <= a < |p.enqueued| :: p.enqueued[a].ticket in p.finished) <==> p.q.head == p.q.tail)
  {
    var p := trace[n];
    StuckIsSettled(trace, n);
    RunTasks(trace, n);
    PoolRunInv(trace, n);
    if Stuck(p) {
      hide Stuck, PoolRun;
      AllRunExactly(p);
    }
  }

  lemma AllRunExactly<T>(p: Pool<T>)
    requires PoolInv(p) && TasksInv(p) && Settled(p)
    ensures (forall a | 0 <= a < |p.enqueued| :: p.enqueued[a].ticket in p.finished) <==> p.q.head == p.q.tail
  {
    CountersAgree(p.q);
    hide Inv, ThreadsOk, StopOk;
    if p.q.head == p.q.tail {
      forall a | 0 <= a < |p.enqueued|
        ensures p.enqueued[a].ticket in p.finished
      {
        assert Accounted(p, p.enqueued[a].ticket);
      }
    } else {
      assert Claimed(p, p.q.head);
      var a: nat :| EnqueuedAt(p, a, p.q.head);
      assert p.enqueued[a].ticket !in p.finished;
    }
  }

  lemma CountersAgree<T>(q: State<T>)
    requires Inv(q)
    ensures q.head <= q.tail == |q.pushed|
  {
  }

  // ---------------------------------------------------------------- a task left behind

  /** A pool of one worker and one client over a queue of one node. */
  ghost function One<T>(pcs: map<Tid, Pc<T>>, node: Node<T>, pushed: seq<T>, worker: Worker, client: Client<T>, mutex: Owner,
                        enqueued: seq<Enqueued<T>>, called: seq<T>): Pool<T>
  {
    Pool(State(1, [node], 0, |pushed|, pcs, pushed, map[]), [worker], [client], NotStarted, mutex, false, enqueued, {}, called)
  }

  lemma Goes<T(!new)>(trace: seq<Pool<T>>, p': Pool<T>)
    requires PoolRun(trace) && |trace| > 0 && PoolNext(trace[|trace| - 1], p')
    ensures PoolRun(trace + [p'])
  {
    hide PoolInit, PoolNext;
    var longer := trace + [p'];
    forall i | 0 <= i < |longer| - 1
      ensures PoolNext(longer[i], longer[i + 1])
    {
      if i < |trace| - 1 {
        assert PoolNext(trace[i], trace[i + 1]);
      }
    }
  }

  /** The only worker takes its step. */
  lemma WorkerGoes<T(!new)>(trace: seq<Pool<T>>, p': Pool<T>)
    requires PoolRun(trace) && |trace| > 0
    requires var p := trace[|trace| - 1]; Shape(p.q) && |p.workers| > 0 && WorkerStep(p, p', 0)
    ensures PoolRun(trace + [p'])
  {
    hide PoolRun, WorkerStep;
    Goes(trace, p');
  }

  lemma ClientGoes<T(!new)>(trace: seq<Pool<T>>, p': Pool<T>)
    requires PoolRun(trace) && |trace| > 0
    requires var p := trace[|trace| - 1]; Shape(p.q) && |p.clients| > 0 && ClientStep(p, p', 0)
    ensures PoolRun(trace + [p'])
  {
    hide PoolRun, ClientStep;
    Goes(trace, p');
  }

  /** The client takes a step inside its push. */
  lemma PushGoes<T(!new)>(trace: seq<Pool<T>>, p': Pool<T>)
    requires PoolRun(trace) && |trace| > 0
    requires var p := trace[|trace| - 1];
      && Shape(p.q) && |p.clients| > 0 && p.clients[0].CPushing? && !PcOf(p.q, ClientTid(0)).PushDone?
      && p' == p.(q := PushStep(p.q, ClientTid(0), false))
    ensures PoolRun(trace + [p'])
  {
    hide PoolRun, PushStep;
    ClientGoes(trace, p');
  }

  /** The worker finds nothing, takes the mutex, and is told by Empty that there is nothing. */
  lemma WorkerLooks<T(!new)>() returns (trace: seq<Pool<T>>)
    ensures PoolRun(trace) && |trace| > 0
    ensures trace[|trace| - 1] == One(map[0 := EmptyDone(true)], Node(None, None, 0), [], CheckEmpty, CIdle, ByWorker(0), [], [])
  {
    hide PoolRun;
    var free: Node<T> := Node(None, None, 0);
    trace := [One(map[], free, [], Starting, CIdle, Nobody, [], [])];
    StartsHere(trace[0]);
    trace := LooksInQueue(trace);
    trace := TakesMutex(trace);
    trace := AsksEmpty(trace);
  }

  lemma StartsHere<T(!new)>(p: Pool<T>)
    requires p == One(map[], Node(None, None, 0), [], Starting, CIdle, Nobody, [], [])
    ensures PoolRun([p])
  {
  }

  lemma LooksInQueue<T(!new)>(start: seq<Pool<T>>) returns (trace: seq<Pool<T>>)
    requires PoolRun(start) && |start| > 0
    requires start[|start| - 1] == One(map[], Node(None, None, 0), [], Starting, CIdle, Nobody, [], [])
    ensures PoolRun(trace) && |trace| > 0
    ensures trace[|trace| - 1] == One(map[0 := PopDone(None)], Node(None, None, 0), [], Locking, CIdle, Nobody, [], [])
  {
    hide PoolRun;
    var free: Node<T> := Node(None, None, 0);
    trace := start;
    var p := One(map[0 := PopLoadHead], free, [], Popping, CIdle, Nobody, [], []);
    WorkerGoes(trace, p);
    trace := trace + [p];
    p := One(map[0 := PopLoadReadIndex(0)], free, [], Popping, CIdle, Nobody, [], []);
    assert p == trace[|trace| - 1].(q := PopStep(trace[|trace| - 1].q, WorkerTid(0), false));
    WorkerGoes(trace, p);
    trace := trace + [p];
    p := One(map[0 := PopDone(None)], free, [], Popping, CIdle, Nobody, [], []);
    assert p == trace[|trace| - 1].(q := PopStep(trace[|trace| - 1].q, WorkerTid(0), false));
    WorkerGoes(trace, p);
    trace := trace + [p];
    p := One(map[0 := PopDone(None)], free, [], Locking, CIdle, Nobody, [], []);
    WorkerGoes(trace, p);
    trace := trace + [p];
  }

  lemma TakesMutex<T(!new)>(start: seq<Pool<T>>) returns (trace: seq<Pool<T>>)
    requires PoolRun(start) && |start| > 0
    requires start[|start| - 1] == One(map[0 := PopDone(None)], Node(None, None, 0), [], Locking, CIdle, Nobody, [], [])
    ensures PoolRun(trace) && |trace| > 0
    ensures trace[|trace| - 1] == One(map[0 := EmptyLoadHead], Node(None, None, 0), [], CheckEmpty, CIdle, ByWorker(0), [], [])
  {
    hide PoolRun;
    trace := start;
    var p := One(map[0 := PopDone(None)], Node(None, None, 0), [], CheckStop, CIdle, ByWorker(0), [], []);
    WorkerGoes(trace, p);
    trace := trace + [p];
    p := One(map[0 := EmptyLoadHead], Node(None, None, 0), [], CheckEmpty, CIdle, ByWorker(0), [], []);
    WorkerGoes(trace, p);
    trace := trace + [p];
  }

  lemma AsksEmpty<T(!new)>(start: seq<Pool<T>>) returns (trace: seq<Pool<T>>)
    requires PoolRun(start) && |start| > 0
    requires start[|start| - 1] == One(map[0 := EmptyLoadHead], Node(None, None, 0), [], CheckEmpty, CIdle, ByWorker(0), [], [])
    ensures PoolRun(trace) && |trace| > 0
    ensures trace[|trace| - 1] == One(map[0 := EmptyDone(true)], Node(None, None, 0), [], CheckEmpty, CIdle, ByWorker(0), [], [])
  {
    hide PoolRun;
    trace := start;
    var p := One(map[0 := EmptyLoadReadIndex(0)], Node(None, None, 0), [], CheckEmpty, CIdle, ByWorker(0), [], []);
    WorkerGoes(trace, p);
    trace := trace + [p];
    p := One(map[0 := EmptyDone(true)], Node(None, None, 0), [], CheckEmpty, CIdle, ByWorker(0), [], []);
    WorkerGoes(trace, p);
    trace := trace + [p];
  }

  lemma CallGoes<T(!new)>(trace: seq<Pool<T>>, p': Pool<T>, task: T)
    requires PoolRun(trace) && |trace| > 0
    requires var p := trace[|trace| - 1];
      Shape(p.q) && p.destroyer == NotStarted && |p.clients| > 0 && p.clients[0] == CIdle && p' == Enqueues(p, 0, task)
    ensures PoolRun(trace + [p'])
  {
    hide PoolRun, Enqueues;
    Goes(trace, p');
  }

  /** Before the worker falls asleep a client calls `enqueue`, whose push goes through. */
  lemma ClientCalls<T(!new)>(start: seq<Pool<T>>, task: T) returns (trace: seq<Pool<T>>)
    requires PoolRun(start) && |start| > 0
    requires start[|start| - 1] ==
      One(map[0 := EmptyDone(true)], Node(None, None, 0), [], CheckEmpty, CIdle, ByWorker(0), [], [])
    ensures PoolRun(trace) && |trace| > 0
    ensures trace[|trace| - 1] ==
      One(map[0 := EmptyDone(true), 1 := PushLoadStoreIndex(task, 0)], Node(None, None, 0), [], CheckEmpty, CPushing(task), ByWorker(0), [], [task])
  {
    hide PoolRun;
    trace := start;
    var p := One(map[0 := EmptyDone(true), 1 := PushLoadTail(task)], Node(None, None, 0), [], CheckEmpty, CPushing(task), ByWorker(0), [], [task]);
    assert p == Enqueues(trace[|trace| - 1], 0, task);
    CallGoes(trace, p, task);
    trace := trace + [p];
    p := One(map[0 := EmptyDone(true), 1 := PushLoadStoreIndex(task, 0)], Node(None, None, 0), [], CheckEmpty, CPushing(task), ByWorker(0), [], [task]);
    PushGoes(trace, p);
    trace := trace + [p];
  }

  lemma ClientPushes<T(!new)>(start: seq<Pool<T>>, task: T) returns (trace: seq<Pool<T>>)
    requires PoolRun(start) && |start| > 0
    requires start[|start| - 1] ==
      One(map[0 := EmptyDone(true), 1 := PushLoadStoreIndex(task, 0)], Node(None, None, 0), [], CheckEmpty, CPushing(task), ByWorker(0), [], [task])
    ensures PoolRun(trace) && |trace| > 0
    ensures trace[|trace| - 1] ==
      One(map[0 := EmptyDone(true), 1 := PushWrite(task, 0)], Node(None, None, 0), [task], CheckEmpty, CPushing(task), ByWorker(0), [], [task])
  {
    hide PoolRun, ClientStep;
    trace := start;
    var p := One(map[0 := EmptyDone(true), 1 := PushCas(task, 0)], Node(None, None, 0), [], CheckEmpty, CPushing(task), ByWorker(0), [], [task]);
    PushGoes(trace, p);
    trace := trace + [p];
    p := One(map[0 := EmptyDone(true), 1 := PushWrite(task, 0)], Node(None, None, 0), [task], CheckEmpty, CPushing(task), ByWorker(0), [], [task]);
    PushGoes(trace, p);
    trace := trace + [p];
  }

  lemma ClientPublishes<T(!new)>(start: seq<Pool<T>>, task: T) returns (trace: seq<Pool<T>>)
    requires PoolRun(start) && |start| > 0
    requires start[|start| - 1] ==
      One(map[0 := EmptyDone(true), 1 := PushWrite(task, 0)], Node(None, None, 0), [task], CheckEmpty, CPushing(task), ByWorker(0), [], [task])
    ensures PoolRun(trace) && |trace| > 0
    ensures trace[|trace| - 1] ==
      One(map[0 := EmptyDone(true), 1 := PushDone(task, Some(0))], Node(Some(task), Some(0), 0), [task], CheckEmpty, CPushing(task), ByWorker(0), [], [task])
  {
    hide PoolRun, ClientStep;
    trace := start;
    var p := One(map[0 := EmptyDone(true), 1 := PushPublish(task, 0)], Node(Some(task), None, 0), [task], CheckEmpty, CPushing(task), ByWorker(0), [], [task]);
    PushGoes(trace, p);
    trace := trace + [p];
    p := One(map[0 := EmptyDone(true), 1 := PushDone(task, Some(0))], Node(Some(task), Some(0), 0), [task], CheckEmpty, CPushing(task), ByWorker(0), [], [task]);
    PushGoes(trace, p);
    trace := trace + [p];
  }

  /** It notifies, without the mutex, and nobody hears it. */
  lemma ClientNotifies<T(!new)>(start: seq<Pool<T>>, task: T) returns (trace: seq<Pool<T>>)
    requires PoolRun(start) && |start| > 0
    requires start[|start| - 1] ==
      One(map[0 := EmptyDone(true), 1 := PushDone(task, Some(0))], Node(Some(task), Some(0), 0), [task], CheckEmpty, CPushing(task), ByWorker(0), [], [task])
    ensures PoolRun(trace) && |trace| > 0
    ensures trace[|trace| - 1] ==
      One(map[0 := EmptyDone(true), 1 := PushDone(task, Some(0))], Node(Some(task), Some(0), 0), [task], CheckEmpty, CIdle, ByWorker(0), [Enqueued(task, 0)], [task])
  {
    hide PoolRun;
    trace := start;
    var p := One(map[0 := EmptyDone(true), 1 := PushDone(task, Some(0))], Node(Some(task), Some(0), 0), [task], CheckEmpty, CNotifyOne, ByWorker(0), [Enqueued(task, 0)], [task]);
    ClientGoes(trace, p);
    trace := trace + [p];
    p := One(map[0 := EmptyDone(true), 1 := PushDone(task, Some(0))], Node(Some(task), Some(0), 0), [task], CheckEmpty, CIdle, ByWorker(0), [Enqueued(task, 0)], [task]);
    ClientGoes(trace, p);
    trace := trace + [p];
  }

  /**
    A run after which a task is left behind: `enqueue` has returned, its task is in the queue, the only worker is
    asleep, and nothing moves any more, because the notification came between the look of the worker at the queue
    and its falling asleep, and `enqueue` does not take the mutex.
   */
  lemma LostWakeup<T(!new)>(task: T) returns (trace: seq<Pool<T>>)
    ensures PoolRun(trace) && |trace| > 0
    ensures var p := trace[|trace| - 1];
      && Shape(p.q) && Stuck(p)
      && p.workers == [Sleeping] && p.clients == [CIdle] && !p.stop && p.destroyer == NotStarted
      && p.enqueued == [Enqueued(task, 0)] && 0 !in p.finished && p.q.head < p.q.tail && NodeAt(p.q, 0).val == Some(task)
  {
    trace := WorkerLooks();
    trace := ClientCalls(trace, task);
    trace := ClientPushes(trace, task);
    trace := ClientPublishes(trace, task);
    trace := ClientNotifies(trace, task);
    var p := One(map[0 := EmptyDone(true), 1 := PushDone(task, Some(0))], Node(Some(task), Some(0), 0), [task], Sleeping, CIdle, Nobody,
                 [Enqueued(task, 0)], [task]);
    WorkerGoes(trace, p);
    trace := trace + [p];
    AsleepForGood(p);
  }

  lemma AsleepForGood<T(!new)>(p: Pool<T>)
    requires Shape(p.q) && p.workers == [Sleeping] && p.clients == [CIdle] && p.destroyer == NotStarted
    ensures Stuck(p)
  {
  }
}
