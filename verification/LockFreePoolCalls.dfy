/** What becomes of the calls of `enqueue` of the lock-free thread pool, in every run. */
module LockFreePoolCalls {
  import opened LockFreePool
  import opened LockFreePoolTheorems
  import opened Multisets
  import opened QueueMachine
  import opened Wrappers

  /** The task of a client that is inside the retry loop. */
  ghost function WaitingOf<T>(client: Client<T>): multiset<T> {
    match client
    case CPushing(task) => multiset{task}
    case CNotifyAll(task) => multiset{task}
    case _ => multiset{}
  }

  ghost function Waiting<T>(clients: seq<Client<T>>): multiset<T> {
    Sum(clients, WaitingOf)
  }

  ghost function TasksOf<T>(enqueued: seq<Enqueued<T>>): seq<T> {
    seq(|enqueued|, a requires 0 <= a < |enqueued| => enqueued[a].task)
  }

  /** Every task `enqueue` was called with is in the queue or has been, or its caller is still trying. */
  ghost predicate CallsOk<T>(p: Pool<T>) {
    multiset(p.called) == multiset(TasksOf(p.enqueued)) + Waiting(p.clients)
  }

  // ---------------------------------------------------------------- one step

  /** How client c goes on: it leaves the retry loop only with its task in the queue, and returns only from there. */
  ghost predicate GoesOn<T>(p: Pool<T>, p': Pool<T>, c: nat)
    requires c < |p.clients| == |p'.clients|
  {
    && p'.clients == p.clients[c := p'.clients[c]] && p'.called == p.called
    && match p.clients[c]
       case CIdle => false
       case CPushing(task) =>
         || (p'.clients[c] == CPushing(task) && p'.enqueued == p.enqueued)
         || (p'.clients[c] == CNotifyAll(task) && p'.enqueued == p.enqueued && PcOf(p.q, ClientTid(c)).PushDone?)
         || (p'.clients[c] == CNotifyOne && exists k: nat :: p'.enqueued == p.enqueued + [Enqueued(task, k)])
       case CNotifyAll(task) =>
         && p'.clients[c] == CPushing(task) && p'.enqueued == p.enqueued
         && (forall i | 0 <= i < |p'.workers| :: p'.workers[i] != Sleeping)
       case CNotifyOne =>
         && p'.clients[c] == CIdle && p'.enqueued == p.enqueued
         && (SomeSleeping(p.workers) ==>
               exists i :: 0 <= i < |p.workers| && p.workers[i] == Sleeping && p'.workers == p.workers[i := Locking])
  }

  lemma ClientGoesOn<T>(p: Pool<T>, p': Pool<T>, c: nat)
    requires QueueMachine.Shape(p.q) && c < |p.clients| && ClientStep(p, p', c)
    ensures |p'.clients| == |p.clients| && GoesOn(p, p', c)
  {
    hide PushStep, Invoke;
    var pc := PcOf(p.q, ClientTid(c));
    match p.clients[c]
    case CPushing(task) =>
      if pc.PushDone? {
        match pc.at
        case Some(k) => assert p'.enqueued == p.enqueued + [Enqueued(task, k)];
        case None =>
      } else {
        assert p'.clients == p.clients && p'.clients[c] == p.clients[c];
        assert p.clients[c := p.clients[c]] == p.clients;
      }
    case _ =>
  }

  // ---------------------------------------------------------------- nothing is dropped

  lemma NothingDropped<T>(p: Pool<T>, p': Pool<T>, c: nat)
    requires CallsOk(p) && c < |p.clients| == |p'.clients| && GoesOn(p, p', c)
    ensures CallsOk(p')
  {
    hide Sum;
    SumUpdate(p.clients, WaitingOf, c, p'.clients[c]);
    var before, after := WaitingOf(p.clients[c]), WaitingOf(p'.clients[c]);
    assert multiset(TasksOf(p'.enqueued)) + after == multiset(TasksOf(p.enqueued)) + before by {
      if p'.enqueued != p.enqueued {
        var k: nat :| p'.enqueued == p.enqueued + [Enqueued(p.clients[c].task, k)];
        assert TasksOf(p'.enqueued) == TasksOf(p.enqueued) + [p.clients[c].task];
      }
    }
    MovedOver(multiset(p.called), multiset(TasksOf(p.enqueued)), multiset(TasksOf(p'.enqueued)),
              Waiting(p.clients), Waiting(p'.clients), before, after);
  }

  lemma CalledOnce<T>(p: Pool<T>, c: nat, task: T)
    requires CallsOk(p) && c < |p.clients| && p.clients[c] == CIdle
    ensures CallsOk(Enqueues(p, c, task))
  {
    hide Sum;
    SumUpdate(p.clients, WaitingOf, c, CPushing(task));
    var done := multiset(TasksOf(p.enqueued));
    Exchange(multiset(p.called), done, Waiting(p.clients), Waiting(p.clients[c := CPushing(task)]), multiset{}, multiset{task});
    assert done + multiset{} == done;
  }

  /**
    Nothing passed to `enqueue` is ever dropped: in every reachable state each task it was called with has been
    pushed with success, or its caller is in the retry loop, once for each call.
   */
  lemma {:induction false} EveryCallCounts<T(!new)>(trace: seq<Pool<T>>, n: nat)
    requires PoolRun(trace) && n < |trace|
    ensures CallsOk(trace[n])
  {
    hide PoolInit, CallsOk, GoesOn, WorkerStep, ClientStep, DestroyerStep;
    if n == 0 {
      NoCallsYet(trace[0]);
    } else {
      EveryCallCounts(trace, n - 1);
      var p, p' := trace[n - 1], trace[n - 1 + 1];
      assert PoolNext(p, p');
      if i :| 0 <= i < |p.workers| && WorkerStep(p, p', i) {
        WorkerFrame(p, p', i);
        SameCalls(p, p');
      } else if c :| 0 <= c < |p.clients| && ClientStep(p, p', c) {
        ClientGoesOn(p, p', c);
        NothingDropped(p, p', c);
      } else if c, task: T :| 0 <= c < |p.clients| && p.clients[c] == CIdle && p' == Enqueues(p, c, task) {
        CalledOnce(p, c, task);
      } else {
        assert DestroyerStep(p, p') || OutsideStep(p, p');
        OtherFrame(p, p');
        SameCalls(p, p');
      }
    }
  }

  lemma NoCallsYet<T>(p: Pool<T>)
    requires PoolInit(p)
    ensures CallsOk(p)
  {
    SumEmpty(p.clients, WaitingOf);
  }

  lemma SameCalls<T>(p: Pool<T>, p': Pool<T>)
    requires CallsOk(p) && SameClients(p, p')
    ensures CallsOk(p')
  {
  }

  /** With every caller back, what has been enqueued is exactly what `enqueue` was called with. */
  lemma CallersBack<T(!new)>(trace: seq<Pool<T>>, n: nat)
    requires PoolRun(trace) && n < |trace|
    requires forall c | 0 <= c < |trace[n].clients| :: trace[n].clients[c] == CIdle
    ensures multiset(trace[n].called) == multiset(TasksOf(trace[n].enqueued))
  {
    EveryCallCounts(trace, n);
    SumEmpty(trace[n].clients, WaitingOf);
  }

  /**
    Drain, seen from the callers: once all workers, of which there is at least one, have returned, every task ever
    passed to `enqueue` has been pushed, taken out under a ticket of its own, and run.
   */
  lemma CalledTasksRan<T(!new)>(trace: seq<Pool<T>>, n: nat)
    requires PoolRun(trace) && n < |trace| && |trace[n].workers| > 0
    requires forall i | 0 <= i < |trace[n].workers| :: trace[n].workers[i] == Returned
    ensures var p := trace[n];
      && multiset(p.called) == multiset(TasksOf(p.enqueued))
      && (forall a | 0 <= a < |p.enqueued| ::
            p.enqueued[a].ticket in p.finished && p.enqueued[a].ticket in p.q.popped
            && p.q.popped[p.enqueued[a].ticket] == TasksOf(p.enqueued)[a])
      && (forall a, b | 0 <= a < b < |p.enqueued| :: p.enqueued[a].ticket != p.enqueued[b].ticket)
  {
    hide PoolRun, CallsOk, Waiting;
    EnqueuedTasksRun(trace, n);
    ReturnedMeansEmpty(trace, n, 0);
    PoolRunInv(trace, n);
    NobodyCalls(trace[n]);
    CallersBack(trace, n);
  }

  lemma NobodyCalls<T>(p: Pool<T>)
    requires PoolInv(p) && p.stop
    ensures forall c | 0 <= c < |p.clients| :: p.clients[c] == CIdle
  {
  }

  // ---------------------------------------------------------------- one call

  predicate Trying<T(==)>(client: Client<T>, task: T) {
    client == CPushing(task) || client == CNotifyAll(task)
  }

  /** What one step does to a client inside `enqueue`. */
  lemma TryingStep<T(!new)>(p: Pool<T>, p': Pool<T>, c: nat, task: T)
    requires PoolNext(p, p') && c < |p.clients| && Trying(p.clients[c], task)
    ensures |p'.clients| == |p.clients|
    ensures Trying(p'.clients[c], task)
      || (p.clients[c] == CPushing(task) && p'.clients[c] == CNotifyOne
          && exists k: nat :: p'.enqueued == p.enqueued + [Enqueued(task, k)])
  {
    hide WorkerStep, ClientStep, DestroyerStep;
    if i :| 0 <= i < |p.workers| && WorkerStep(p, p', i) {
      WorkerFrame(p, p', i);
    } else if d :| 0 <= d < |p.clients| && ClientStep(p, p', d) {
      ClientGoesOn(p, p', d);
    } else if d, other: T :| 0 <= d < |p.clients| && p.clients[d] == CIdle && p' == Enqueues(p, d, other) {
    } else {
      assert DestroyerStep(p, p') || OutsideStep(p, p');
      OtherFrame(p, p');
    }
  }

  /**
    A call of `enqueue` returns only after its own push has succeeded: between a moment n at which client c is in the
    retry loop and a later one at which it is back, there is a step with which its task enters `enqueued`.
   */
  lemma {:induction false} ReturnsEnqueued<T(!new)>(trace: seq<Pool<T>>, n: nat, m: nat, c: nat, task: T) returns (j: nat, k: nat)
    requires PoolRun(trace) && n < m < |trace| && c < |trace[n].clients| && Trying(trace[n].clients[c], task)
    requires c < |trace[m].clients| ==> trace[m].clients[c] == CIdle
    ensures n <= j < m && c < |trace[j].clients| && trace[j].clients[c] == CPushing(task)
    ensures trace[j + 1].enqueued == trace[j].enqueued + [Enqueued(task, k)]
    decreases m - n
  {
    hide PoolNext;
    assert PoolNext(trace[n], trace[n + 1]);
    TryingStep(trace[n], trace[n + 1], c, task);
    if Trying(trace[n + 1].clients[c], task) {
      j, k := ReturnsEnqueued(trace, n + 1, m, c, task);
    } else {
      var l: nat :| trace[n + 1].enqueued == trace[n].enqueued + [Enqueued(task, l)];
      j, k := n, l;
    }
  }
}
