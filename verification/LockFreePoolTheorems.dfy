/**
  What holds of every run of the lock-free thread pool: it is drained once its workers have returned, no task
  runs twice, and the tasks that run are those of the calls of `enqueue` that got them into the queue.
 */
module LockFreePoolTheorems {
  import opened QueueMachine
  import opened LockFreePool
  import opened Wrappers

  // ---------------------------------------------------------------- drain

  /** As soon as one worker has returned, the queue is empty and stopped. */
  lemma ReturnedMeansEmpty<T(!new)>(trace: seq<Pool<T>>, n: nat, i: nat)
    requires PoolRun(trace) && n < |trace| && i < |trace[n].workers| && trace[n].workers[i] == Returned
    ensures trace[n].stop && trace[n].q.head == trace[n].q.tail
  {
    PoolRunInv(trace, n);
    assert FoundEmptyOk(trace[n], trace[n].workers[i], PcOf(trace[n].q, WorkerTid(i)));
  }

  /**
    Once all workers, of which there is at least one, have returned, no task is left in the queue, nobody
    is in the middle of anything, and every task whose Push succeeded has been popped and run exactly once.
   */
  lemma DrainedOnReturn<T(!new)>(trace: seq<Pool<T>>, n: nat)
    requires PoolRun(trace) && n < |trace| && |trace[n].workers| > 0
    requires forall i | 0 <= i < |trace[n].workers| :: trace[n].workers[i] == Returned
    ensures var p := trace[n];
      && p.q.head == p.q.tail == |p.q.pushed|
      && (forall k: nat :: k in p.finished <==> k < |p.q.pushed|)
      && Quiet(p.q)
      && (forall k: nat :: k < |p.q.pushed| ==> k in p.q.popped && p.q.popped[k] == p.q.pushed[k])
  {
    var p := trace[n];
    PoolRunInv(trace, n);
    ReturnedMeansEmpty(trace, n, 0);
    forall k: nat | k < p.q.head
      ensures k in p.finished
    {
      assert Accounted(p, k);
    }
    NoWriters(p);
    forall t | t in p.q.pcs
      ensures !Owns(p.q.pcs[t])
    {
      if IsWorker(p, t) {
        assert WorkerTid(t / 2) == t && WorkerFits(p.workers[t / 2], PcOf(p.q, WorkerTid(t / 2)));
      } else {
        assert ClientTid(t / 2) == t && ClientFits(p.clients[t / 2], PcOf(p.q, ClientTid(t / 2)));
      }
    }
    QuietContents(p.q);
  }

  /** No task is run twice: at any time a ticket is being run by at most one worker, and not once it is finished. */
  lemma RunsOnce<T(!new)>(trace: seq<Pool<T>>, n: nat, i: nat, j: nat, k: nat)
    requires PoolRun(trace) && n < |trace| && i < |trace[n].workers| && j < |trace[n].workers|
    requires trace[n].workers[i] == Running(k)
    ensures k < |trace[n].q.pushed| && k !in trace[n].finished
    ensures trace[n].workers[j] == Running(k) ==> i == j
  {
    PoolRunInv(trace, n);
    assert CarriedBy(trace[n], i, k);
    if trace[n].workers[j] == Running(k) {
      assert CarriedBy(trace[n], j, k);
    }
  }

  // ---------------------------------------------------------------- from enqueue to ticket

  /** The push of this thread has taken ticket k, whether or not it has published it yet. */
  predicate PushedAt<T>(pc: Pc<T>, k: nat) {
    Writes(pc, k) || (pc.PushDone? && pc.at == Some(k))
  }

  /** Client c is in a push that has taken ticket k, and has not seen it return. */
  ghost predicate HeldBy<T>(p: Pool<T>, c: nat, k: nat) {
    c < |p.clients| && p.clients[c].CPushing? && PushedAt(PcOf(p.q, ClientTid(c)), k)
  }

  ghost predicate EnqueuedAt<T>(p: Pool<T>, a: nat, k: nat) {
    a < |p.enqueued| && p.enqueued[a].ticket == k
  }

  /** Client c pushes the task it was called with. */
  ghost predicate PushesOwn<T>(c: Client<T>, pc: Pc<T>) {
    c.CPushing? ==> InPush(pc) && pc.v == c.task
  }

  ghost predicate OwnTasks<T>(p: Pool<T>) {
    && (forall c | 0 <= c < |p.clients| :: PushesOwn(p.clients[c], PcOf(p.q, ClientTid(c))))
    && (forall a | 0 <= a < |p.enqueued| ::
          p.enqueued[a].ticket < |p.q.pushed| && p.q.pushed[p.enqueued[a].ticket] == p.enqueued[a].task)
  }

  /** Each ticket belongs to one enqueued task or to one push under way. */
  ghost predicate TicketsShared<T>(p: Pool<T>) {
    && (forall a: nat, b: nat, k: nat {:trigger EnqueuedAt(p, a, k), EnqueuedAt(p, b, k)} |
          EnqueuedAt(p, a, k) && EnqueuedAt(p, b, k) :: a == b)
    && (forall a: nat, c: nat, k: nat {:trigger EnqueuedAt(p, a, k), HeldBy(p, c, k)} | EnqueuedAt(p, a, k) :: !HeldBy(p, c, k))
    && (forall c: nat, d: nat, k: nat {:trigger HeldBy(p, c, k), HeldBy(p, d, k)} | HeldBy(p, c, k) && HeldBy(p, d, k) :: c == d)
    && (forall c: nat, k: nat {:trigger HeldBy(p, c, k)} | HeldBy(p, c, k) :: k < |p.q.pushed|)
    && (forall a: nat, k: nat {:trigger EnqueuedAt(p, a, k)} | EnqueuedAt(p, a, k) :: k < |p.q.pushed|)
    && (forall k: nat {:trigger Claimed(p, k)} | k < |p.q.pushed| :: Claimed(p, k))
  }

  ghost predicate Claimed<T>(p: Pool<T>, k: nat) {
    (exists a: nat :: EnqueuedAt(p, a, k)) || (exists c: nat :: HeldBy(p, c, k))
  }

  ghost predicate TasksInv<T>(p: Pool<T>) {
    OwnTasks(p) && TicketsShared(p)
  }

  /** Nothing that matters to the tickets has changed. */
  ghost predicate SameTickets<T>(p: Pool<T>, p': Pool<T>) {
    && p'.enqueued == p.enqueued && p'.q.pushed == p.q.pushed && |p'.clients| == |p.clients|
    && (forall c: nat, k: nat {:trigger HeldBy(p', c, k)} :: HeldBy(p', c, k) <==> HeldBy(p, c, k))
  }

  lemma SameTicketsShared<T>(p: Pool<T>, p': Pool<T>)
    requires TicketsShared(p) && SameTickets(p, p')
    ensures TicketsShared(p')
  {
    hide HeldBy;
    assert forall a: nat, k: nat :: EnqueuedAt(p', a, k) <==> EnqueuedAt(p, a, k);
    forall k: nat | k < |p'.q.pushed|
      ensures Claimed(p', k)
    {
      assert Claimed(p, k);
      if a: nat :| EnqueuedAt(p, a, k) {
        assert EnqueuedAt(p', a, k);
      } else {
        var c: nat :| HeldBy(p, c, k);
        assert HeldBy(p', c, k);
      }
    }
  }

  /** The clients are where they were, in their loop and in the queue. */
  ghost predicate SameClients<T>(p: Pool<T>, p': Pool<T>) {
    && p'.enqueued == p.enqueued && p'.called == p.called && p'.q.pushed == p.q.pushed && p'.clients == p.clients
    && (forall c: nat {:trigger ClientTid(c)} :: PcOf(p'.q, ClientTid(c)) == PcOf(p.q, ClientTid(c)))
  }

  lemma SameClientsInv<T>(p: Pool<T>, p': Pool<T>)
    requires TasksInv(p) && SameClients(p, p')
    ensures TasksInv(p')
  {
    SameTicketsShared(p, p');
  }

  /** Thread t has moved in the queue and pushed nothing. */
  ghost predicate Frame<T>(q: State<T>, q': State<T>, t: Tid) {
    q'.pushed == q.pushed && forall u :: u != t ==> PcOf(q', u) == PcOf(q, u)
  }

  lemma QueueFrame<T>(q: State<T>, t: Tid, call: Call<T>)
    requires Shape(q)
    ensures forall spurious: bool :: Frame(q, PopStep(q, t, spurious), t)
    ensures Frame(q, QueryStep(q, t), t) && Frame(q, Invoke(q, t, call), t)
  {
  }

  /** What a worker does, inside the queue or outside, is nothing to the clients. */
  lemma WorkerFrame<T>(p: Pool<T>, p': Pool<T>, i: nat)
    requires Shape(p.q) && i < |p.workers| && WorkerStep(p, p', i)
    ensures SameClients(p, p')
  {
    hide Frame, WorkerStep;
    WorkerTouches(p, p', i);
    FrameClients(p, p', i);
  }

  lemma WorkerTouches<T>(p: Pool<T>, p': Pool<T>, i: nat)
    requires Shape(p.q) && i < |p.workers| && WorkerStep(p, p', i)
    ensures p'.q == p.q || Frame(p.q, p'.q, WorkerTid(i))
    ensures p'.enqueued == p.enqueued && p'.called == p.called && p'.clients == p.clients
  {
    hide PopStep, QueryStep, Invoke, Frame;
    var t := WorkerTid(i);
    QueueFrame(p.q, t, CallPop);
    QueueFrame(p.q, t, CallEmpty);
  }

  lemma FrameClients<T>(p: Pool<T>, p': Pool<T>, i: nat)
    requires p'.q == p.q || Frame(p.q, p'.q, WorkerTid(i))
    requires p'.enqueued == p.enqueued && p'.called == p.called && p'.clients == p.clients
    ensures SameClients(p, p')
  {
    assert forall c: nat :: ClientTid(c) != WorkerTid(i);
  }

  /** Only client c has moved, without pushing anything. */
  ghost predicate OneClient<T>(p: Pool<T>, p': Pool<T>, c: nat) {
    && c < |p.clients| == |p'.clients| && p'.q.pushed == p.q.pushed
    && (forall d | 0 <= d < |p.clients| && d != c :: p'.clients[d] == p.clients[d])
    && (forall d: nat {:trigger ClientTid(d)} | d != c :: PcOf(p'.q, ClientTid(d)) == PcOf(p.q, ClientTid(d)))
  }

  /** A client that holds the same tickets before and after, which may be none. */
  lemma OneClientInv<T>(p: Pool<T>, p': Pool<T>, c: nat)
    requires TasksInv(p) && OneClient(p, p', c) && p'.enqueued == p.enqueued
    requires PushesOwn(p'.clients[c], PcOf(p'.q, ClientTid(c)))
    requires forall k: nat :: HeldBy(p', c, k) <==> HeldBy(p, c, k)
    ensures TasksInv(p')
  {
    forall d: nat, k: nat
      ensures HeldBy(p', d, k) <==> HeldBy(p, d, k)
    {
    }
    SameTicketsShared(p, p');
  }

  /** The successful exchange: the new ticket is held by client c, who held none. */
  lemma PushTicket<T>(p: Pool<T>, p': Pool<T>, c: nat)
    requires Inv(p.q) && TasksInv(p) && c < |p.clients| && p.clients[c].CPushing?
    requires PcOf(p.q, ClientTid(c)).PushCas? && PcOf(p.q, ClientTid(c)).tail == p.q.tail
    requires p' == p.(q := PushStep(p.q, ClientTid(c), false))
    ensures TasksInv(p')
  {
    var t, k0 := ClientTid(c), p.q.tail;
    assert |p.q.pushed| == k0 && p'.q.pcs[t] == PushWrite(p.clients[c].task, k0);
    forall d: nat | d != c
      ensures PcOf(p'.q, ClientTid(d)) == PcOf(p.q, ClientTid(d))
    {
      assert ClientTid(d) != t;
    }
    forall d: nat, k: nat
      ensures HeldBy(p', d, k) <==> HeldBy(p, d, k) || (d == c && k == k0)
    {
    }
    NewTicket(p, p', c, k0);
  }

  lemma NewTicket<T>(p: Pool<T>, p': Pool<T>, c: nat, k0: nat)
    requires TicketsShared(p) && p'.enqueued == p.enqueued && |p.q.pushed| == k0 && |p'.q.pushed| == k0 + 1
    requires forall d: nat, k: nat {:trigger HeldBy(p', d, k)} {:trigger HeldBy(p, d, k)} ::
      HeldBy(p', d, k) <==> HeldBy(p, d, k) || (d == c && k == k0)
    ensures TicketsShared(p')
  {
    hide HeldBy;
    assert forall a: nat, k: nat :: EnqueuedAt(p', a, k) <==> EnqueuedAt(p, a, k);
    forall k: nat | k < |p'.q.pushed|
      ensures Claimed(p', k)
    {
      if k == k0 {
        assert HeldBy(p', c, k);
      } else {
        assert Claimed(p, k);
        if a: nat :| EnqueuedAt(p, a, k) {
          assert EnqueuedAt(p', a, k);
        } else {
          var d: nat :| HeldBy(p, d, k);
          assert HeldBy(p', d, k);
        }
      }
    }
  }

  /** The push of client c has returned true: its ticket passes to the list of enqueued tasks. */
  lemma Recorded<T>(p: Pool<T>, p': Pool<T>, c: nat, task: T, k0: nat)
    requires Inv(p.q) && TasksInv(p) && c < |p.clients| && p.clients[c] == CPushing(task)
    requires PcOf(p.q, ClientTid(c)) == PushDone(task, Some(k0))
    requires p' == p.(clients := p.clients[c := CNotifyOne], enqueued := p.enqueued + [Enqueued(task, k0)])
    ensures TasksInv(p')
  {
    PushReturned(p.q, ClientTid(c), k0, task);
    assert HeldBy(p, c, k0);
    forall d: nat, k: nat
      ensures HeldBy(p', d, k) <==> HeldBy(p, d, k) && d != c
    {
    }
    forall k: nat | HeldBy(p, c, k)
      ensures k == k0
    {
    }
    TicketPasses(p, p', c, k0);
  }

  lemma TicketPasses<T>(p: Pool<T>, p': Pool<T>, c: nat, k0: nat)
    requires TicketsShared(p) && HeldBy(p, c, k0) && p'.q.pushed == p.q.pushed
    requires |p'.enqueued| == |p.enqueued| + 1 && p'.enqueued[..|p.enqueued|] == p.enqueued && p'.enqueued[|p.enqueued|].ticket == k0
    requires forall d: nat, k: nat {:trigger HeldBy(p', d, k)} {:trigger HeldBy(p, d, k)} :: HeldBy(p', d, k) <==> HeldBy(p, d, k) && d != c
    requires forall k: nat {:trigger HeldBy(p, c, k)} | HeldBy(p, c, k) :: k == k0
    ensures TicketsShared(p')
  {
    hide HeldBy;
    var n := |p.enqueued|;
    forall a: nat, k: nat
      ensures EnqueuedAt(p', a, k) <==> EnqueuedAt(p, a, k) || (a == n && k == k0)
    {
      assert a < n ==> p'.enqueued[a] == p'.enqueued[..n][a];
    }
    forall k: nat | k < |p'.q.pushed|
      ensures Claimed(p', k)
    {
      assert Claimed(p, k);
      if a: nat :| EnqueuedAt(p, a, k) {
        assert EnqueuedAt(p', a, k);
      } else {
        var d: nat :| HeldBy(p, d, k);
        if d == c {
          assert EnqueuedAt(p', n, k);
        } else {
          assert HeldBy(p', d, k);
        }
      }
    }
  }

  /** A step inside the push of client c. */
  lemma PushingTasks<T>(p: Pool<T>, p': Pool<T>, c: nat, spurious: bool)
    requires Inv(p.q) && TasksInv(p) && c < |p.clients| && p.clients[c].CPushing?
    requires p' == p.(q := PushStep(p.q, ClientTid(c), spurious))
    ensures TasksInv(p')
  {
    var t := ClientTid(c);
    var pc := PcOf(p.q, t);
    assert PushesOwn(p.clients[c], pc);
    if pc.PushCas? && pc.tail == p.q.tail && !spurious {
      PushTicket(p, p', c);
    } else {
      assert forall d: nat :: d != c ==> ClientTid(d) != t;
      OneClientInv(p, p', c);
    }
  }

  lemma ClientTasks<T>(p: Pool<T>, p': Pool<T>, c: nat)
    requires Inv(p.q) && TasksInv(p) && c < |p.clients| && ClientStep(p, p', c)
    ensures TasksInv(p')
  {
    assert Shape(p.q);
    hide Inv, TasksInv;
    var t := ClientTid(c);
    match p.clients[c]
    case CPushing(task) =>
      if PcOf(p.q, t).PushDone? {
        if PcOf(p.q, t).at.Some? {
          Recorded(p, p', c, task, PcOf(p.q, t).at.value);
        } else {
          OneClientInv(p, p', c);
        }
      } else {
        var spurious: bool :| p' == p.(q := PushStep(p.q, t, spurious));
        PushingTasks(p, p', c, spurious);
      }
    case CNotifyAll(task) =>
      assert forall d: nat :: d != c ==> ClientTid(d) != t;
      OneClientInv(p, p', c);
    case CNotifyOne => OneClientInv(p, p', c);
  }

  lemma CallsTasks<T>(p: Pool<T>, c: nat, task: T)
    requires TasksInv(p) && c < |p.clients| && p.clients[c] == CIdle
    ensures TasksInv(Enqueues(p, c, task))
  {
    assert forall d: nat :: d != c ==> ClientTid(d) != ClientTid(c);
    OneClientInv(p, Enqueues(p, c, task), c);
  }

  /** The destructor, and wake-ups for no reason, are nothing to the clients either. */
  lemma OtherFrame<T(!new)>(p: Pool<T>, p': Pool<T>)
    requires DestroyerStep(p, p') || OutsideStep(p, p')
    requires forall c, task: T :: 0 <= c < |p.clients| && p.clients[c] == CIdle ==> p' != Enqueues(p, c, task)
    ensures SameClients(p, p')
  {
  }

  lemma InitTasks<T>(p: Pool<T>)
    requires PoolInit(p)
    ensures TasksInv(p)
  {
  }

  /** In every reachable state each ticket of the queue belongs to one enqueued task or one push under way. */
  lemma {:induction false} RunTasks<T(!new)>(trace: seq<Pool<T>>, n: nat)
    requires PoolRun(trace) && n < |trace|
    ensures TasksInv(trace[n])
  {
    hide PoolInit, Inv, ThreadsOk, CarryOk, StopOk, TasksInv, WorkerStep, ClientStep, DestroyerStep;
    if n == 0 {
      InitTasks(trace[0]);
    } else {
      RunTasks(trace, n - 1);
      PoolRunInv(trace, n - 1);
      var p, p' := trace[n - 1], trace[n - 1 + 1];
      assert PoolNext(p, p');
      if i :| 0 <= i < |p.workers| && WorkerStep(p, p', i) {
        WorkerFrame(p, p', i);
        SameClientsInv(p, p');
      } else if c :| 0 <= c < |p.clients| && ClientStep(p, p', c) {
        ClientTasks(p, p', c);
      } else if c, task: T :| 0 <= c < |p.clients| && p.clients[c] == CIdle && p' == Enqueues(p, c, task) {
        CallsTasks(p, c, task);
      } else {
        assert DestroyerStep(p, p') || OutsideStep(p, p');
        OtherFrame(p, p');
        SameClientsInv(p, p');
      }
    }
  }

  /**
    Drain, seen from the callers: once all workers, of which there is at least one, have returned, every
    enqueued task was taken out under a ticket of its own and has run, and nothing else has run.
   */
  lemma EnqueuedTasksRun<T(!new)>(trace: seq<Pool<T>>, n: nat)
    requires PoolRun(trace) && n < |trace| && |trace[n].workers| > 0
    requires forall i | 0 <= i < |trace[n].workers| :: trace[n].workers[i] == Returned
    ensures var p := trace[n];
      && (forall a | 0 <= a < |p.enqueued| ::
            var e := p.enqueued[a]; e.ticket in p.finished && e.ticket in p.q.popped && p.q.popped[e.ticket] == e.task)
      && (forall a, b | 0 <= a < b < |p.enqueued| :: p.enqueued[a].ticket != p.enqueued[b].ticket)
      && (forall k | k in p.finished :: exists a :: 0 <= a < |p.enqueued| && p.enqueued[a].ticket == k)
  {
    hide PoolNext;
    var p := trace[n];
    DrainedOnReturn(trace, n);
    RunTasks(trace, n);
    ReturnedMeansEmpty(trace, n, 0);
    PoolRunInv(trace, n);
    NobodyPushes(p);
    forall a, b | 0 <= a < b < |p.enqueued|
      ensures p.enqueued[a].ticket != p.enqueued[b].ticket
    {
      assert EnqueuedAt(p, a, p.enqueued[a].ticket);
      assert EnqueuedAt(p, b, p.enqueued[b].ticket);
    }
    forall k | k in p.finished
      ensures exists a :: 0 <= a < |p.enqueued| && p.enqueued[a].ticket == k
    {
      assert Claimed(p, k);
      var a: nat :| EnqueuedAt(p, a, k);
    }
  }

  lemma NobodyPushes<T>(p: Pool<T>)
    requires Shape(p.q) && StopOk(p) && p.stop
    ensures forall c: nat, k: nat :: !HeldBy(p, c, k)
  {
  }
}
