/**
  The mutex thread pool of thread/ThreadPool.h as a transition system: any number of workers, any number
  of enqueuing threads and the destructor, one mutex and one condition variable.

  A step is what a thread does between two points at which another thread can observe it: taking the
  mutex, the critical section up to the release, running a task, one notification. Waiting on the
  condition variable releases the mutex and falls asleep in one step, and a sleeper may wake up for no
  reason.
 */
module ThreadPool {

  /** `Running(k)` executes the task that was the k-th to be accepted. */
  datatype Worker = Ready | Holding | Sleeping | Running(ticket: nat) | Returned

  datatype Client<T> = CIdle | CLocking(task: T) | CHolding(task: T) | CNotify

  datatype Destroyer = NotStarted | DLocking | DHolding | DNotify | DJoining(next: nat) | DDone

  datatype Owner = Nobody | ByWorker(i: nat) | ByClient(c: nat) | ByDestroyer

  /**
    `called` lists the tasks `enqueue` was called with, and each ends in one of two histories: `accepted`, in
    the order in which they entered the queue, or `refused`, for the calls that threw. `taken` counts the tasks
    that left the queue, and `finished` holds the tickets of those that have run.
   */
  datatype State<T> = State(
    workers: seq<Worker>,
    clients: seq<Client<T>>,
    destroyer: Destroyer,
    mutex: Owner,
    tasks: seq<T>,
    stop: bool,
    accepted: seq<T>,
    taken: nat,
    finished: set<nat>,
    called: seq<T>,
    refused: seq<T>)

  ghost predicate Init<T>(s: State<T>) {
    && (forall i | 0 <= i < |s.workers| :: s.workers[i] == Ready)
    && (forall c | 0 <= c < |s.clients| :: s.clients[c] == CIdle)
    && s.destroyer == NotStarted && s.mutex == Nobody && s.tasks == [] && !s.stop
    && s.accepted == [] && s.taken == 0 && s.finished == {} && s.called == [] && s.refused == []
  }

  function WithWorker<T>(s: State<T>, i: nat, w: Worker): State<T>
    requires i < |s.workers|
  {
    s.(workers := s.workers[i := w])
  }

  function WithClient<T>(s: State<T>, c: nat, client: Client<T>): State<T>
    requires c < |s.clients|
  {
    s.(clients := s.clients[c := client])
  }

  // ---------------------------------------------------------------- steps

  /** The predicate of the wait. */
  predicate Wake<T>(s: State<T>) {
    s.stop || s.tasks != []
  }

  /** What a worker does on its own. */
  ghost predicate WorkerStep<T>(s: State<T>, s': State<T>, i: nat)
    requires i < |s.workers|
  {
    match s.workers[i]
    case Ready => s.mutex == Nobody && s' == WithWorker(s, i, Holding).(mutex := ByWorker(i))
    case Holding =>
      if !Wake(s) then s' == WithWorker(s, i, Sleeping).(mutex := Nobody)
      else if s.stop && s.tasks == [] then s' == WithWorker(s, i, Returned).(mutex := Nobody)
      else s' == WithWorker(s, i, Running(s.taken)).(mutex := Nobody, tasks := s.tasks[1..], taken := s.taken + 1)
    case Running(k) => s' == WithWorker(s, i, Ready).(finished := s.finished + {k})
    case Sleeping => false
    case Returned => false
  }

  /** `notify_one`: wakes one sleeper, whichever, if there is one. */
  ghost predicate NotifiesOne<T>(s: State<T>, s': State<T>) {
    if exists i :: 0 <= i < |s.workers| && s.workers[i] == Sleeping
    then exists i :: 0 <= i < |s.workers| && s.workers[i] == Sleeping && s' == WithWorker(s, i, Ready)
    else s' == s
  }

  /** What an enqueuing thread does once it has been called. */
  ghost predicate ClientStep<T>(s: State<T>, s': State<T>, c: nat)
    requires c < |s.clients|
  {
    match s.clients[c]
    case CIdle => false
    case CLocking(task) => s.mutex == Nobody && s' == WithClient(s, c, CHolding(task)).(mutex := ByClient(c))
    case CHolding(task) =>
      if s.stop then s' == WithClient(s, c, CIdle).(mutex := Nobody, refused := s.refused + [task])
      else s' == WithClient(s, c, CNotify).(mutex := Nobody, tasks := s.tasks + [task], accepted := s.accepted + [task])
    case CNotify => NotifiesOne(WithClient(s, c, CIdle), s')
  }

  function AllAwake(workers: seq<Worker>): (r: seq<Worker>)
    ensures |r| == |workers|
    ensures forall i | 0 <= i < |workers| :: r[i] == if workers[i] == Sleeping then Ready else workers[i]
  {
    if workers == [] then []
    else [if workers[0] == Sleeping then Ready else workers[0]] + AllAwake(workers[1..])
  }

  /** What the destructor does once it has been called. */
  ghost predicate DestroyerStep<T>(s: State<T>, s': State<T>) {
    match s.destroyer
    case NotStarted => false
    case DLocking => s.mutex == Nobody && s' == s.(destroyer := DHolding, mutex := ByDestroyer)
    case DHolding => s' == s.(destroyer := DNotify, mutex := Nobody, stop := true)
    case DNotify => s' == s.(destroyer := DJoining(0), workers := AllAwake(s.workers))
    case DJoining(k) =>
      if k < |s.workers| then s.workers[k] == Returned && s' == s.(destroyer := DJoining(k + 1))
      else s' == s.(destroyer := DDone)
    case DDone => false
  }

  /** Client c calls `enqueue`. */
  function Calls<T>(s: State<T>, c: nat, task: T): State<T>
    requires c < |s.clients|
  {
    WithClient(s, c, CLocking(task)).(called := s.called + [task])
  }

  /** A step of the pool itself. */
  ghost predicate Internal<T>(s: State<T>, s': State<T>) {
    || (exists i :: 0 <= i < |s.workers| && WorkerStep(s, s', i))
    || (exists c :: 0 <= c < |s.clients| && ClientStep(s, s', c))
    || DestroyerStep(s, s')
  }

  /** A new call of `enqueue`, the call of the destructor, or a spurious wake-up. */
  ghost predicate External<T(!new)>(s: State<T>, s': State<T>) {
    || (exists c, task: T :: 0 <= c < |s.clients| && s.clients[c] == CIdle && s' == Calls(s, c, task))
    || (s.destroyer == NotStarted && s' == s.(destroyer := DLocking))
    || (exists i :: 0 <= i < |s.workers| && s.workers[i] == Sleeping && s' == WithWorker(s, i, Ready))
  }

  ghost predicate Next<T(!new)>(s: State<T>, s': State<T>) {
    Internal(s, s') || External(s, s')
  }

  // ---------------------------------------------------------------- invariant

  predicate Awake(w: Worker) {
    w != Sleeping && w != Returned
  }

  ghost predicate SomeAwake<T>(s: State<T>) {
    exists i :: 0 <= i < |s.workers| && Awake(s.workers[i])
  }

  ghost predicate SomeNotify<T>(s: State<T>) {
    exists c :: 0 <= c < |s.clients| && s.clients[c] == CNotify
  }

  /** The mutex is held by exactly the thread that is inside a critical section. */
  ghost predicate MutexOk<T>(s: State<T>) {
    && (forall i | 0 <= i < |s.workers| :: s.workers[i] == Holding <==> s.mutex == ByWorker(i))
    && (forall c | 0 <= c < |s.clients| :: s.clients[c].CHolding? <==> s.mutex == ByClient(c))
    && (s.destroyer == DHolding <==> s.mutex == ByDestroyer)
    && (s.mutex.ByWorker? ==> s.mutex.i < |s.workers|)
    && (s.mutex.ByClient? ==> s.mutex.c < |s.clients|)
  }

  ghost predicate StopOk<T>(s: State<T>) {
    && (s.stop <==> s.destroyer.DNotify? || s.destroyer.DJoining? || s.destroyer.DDone?)
    && (s.destroyer.DJoining? ==>
          s.destroyer.next <= |s.workers| && forall i | 0 <= i < s.destroyer.next :: s.workers[i] == Returned)
    && (s.destroyer.DDone? ==> forall i | 0 <= i < |s.workers| :: s.workers[i] == Returned)
    && (forall i | 0 <= i < |s.workers| && s.workers[i] == Returned :: s.stop && s.tasks == [])
  }

  /** No wake-up is lost: queued tasks are being looked after, and after stop nobody sleeps unnoticed. */
  ghost predicate WakeOk<T>(s: State<T>) {
    && (s.tasks != [] && |s.workers| > 0 ==> SomeAwake(s) || SomeNotify(s))
    && (forall i | 0 <= i < |s.workers| && s.workers[i] == Sleeping :: s.stop ==> s.destroyer == DNotify)
  }

  /** First in, first out, and exactly once. */
  ghost predicate TasksOk<T>(s: State<T>) {
    && s.taken <= |s.accepted| && s.tasks == s.accepted[s.taken..]
    && (forall k | k in s.finished :: k < s.taken)
    && (forall i | 0 <= i < |s.workers| && s.workers[i].Running? ::
          s.workers[i].ticket < s.taken && s.workers[i].ticket !in s.finished)
    && (forall i, j | 0 <= i < j < |s.workers| && s.workers[i].Running? && s.workers[j].Running? ::
          s.workers[i].ticket != s.workers[j].ticket)
    && (forall k: nat {:trigger IsRunning(s, k)} | k < s.taken && k !in s.finished :: IsRunning(s, k))
  }

  ghost predicate IsRunning<T>(s: State<T>, k: nat) {
    exists i :: 0 <= i < |s.workers| && s.workers[i] == Running(k)
  }

  ghost predicate Inv<T>(s: State<T>) {
    MutexOk(s) && StopOk(s) && WakeOk(s) && TasksOk(s)
  }

  lemma InitInv<T>(s: State<T>)
    requires Init(s)
    ensures Inv(s)
  {
  }

  /** Runs of other tasks are not affected by what worker i does. */
  lemma OthersRun<T>(s: State<T>, s': State<T>, i: nat)
    requires i < |s.workers| == |s'.workers|
    requires forall j | 0 <= j < |s.workers| && j != i :: s'.workers[j] == s.workers[j]
    ensures forall k: nat :: IsRunning(s, k) ==> IsRunning(s', k) || s.workers[i] == Running(k)
    ensures forall k: nat :: s'.workers[i] == Running(k) ==> IsRunning(s', k)
  {
    forall k: nat | IsRunning(s, k) && s.workers[i] != Running(k)
      ensures IsRunning(s', k)
    {
      var j :| 0 <= j < |s.workers| && s.workers[j] == Running(k);
      assert s'.workers[j] == Running(k);
    }
  }

  lemma WorkerStepInv<T>(s: State<T>, s': State<T>, i: nat)
    requires Inv(s) && i < |s.workers| && WorkerStep(s, s', i)
    ensures Inv(s')
  {
    WorkerStepTasks(s, s', i);
    WorkerStepWake(s, s', i);
  }

  lemma WorkerStepWake<T>(s: State<T>, s': State<T>, i: nat)
    requires Inv(s) && i < |s.workers| && WorkerStep(s, s', i)
    ensures WakeOk(s')
  {
    assert SomeNotify(s) ==> SomeNotify(s');
    assert s'.tasks != [] ==> Awake(s'.workers[i]);
  }

  lemma WorkerStepTasks<T>(s: State<T>, s': State<T>, i: nat)
    requires Inv(s) && i < |s.workers| && WorkerStep(s, s', i)
    ensures TasksOk(s')
  {
    OthersRun(s, s', i);
  }

  lemma ClientStepInv<T>(s: State<T>, s': State<T>, c: nat)
    requires Inv(s) && c < |s.clients| && ClientStep(s, s', c)
    ensures Inv(s')
  {
    match s.clients[c]
    case CNotify => NotifyOneInv(s, s', c);
    case CHolding(task) =>
      if s.stop {
        KeepsNotify(s, s', c);
        SameWorkers(s, s');
      } else {
        assert s'.clients[c] == CNotify;
        SameWorkers(s, s');
      }
    case _ =>
      KeepsNotify(s, s', c);
      SameWorkers(s, s');
  }

  lemma SameWorkers<T>(s: State<T>, s': State<T>)
    requires s.workers == s'.workers
    ensures SomeAwake(s) ==> SomeAwake(s')
    ensures forall k: nat :: IsRunning(s, k) ==> IsRunning(s', k)
  {
  }

  lemma KeepsNotify<T>(s: State<T>, s': State<T>, c: nat)
    requires c < |s.clients| == |s'.clients| && s.clients[c] != CNotify
    requires forall d | 0 <= d < |s.clients| && d != c :: s'.clients[d] == s.clients[d]
    ensures SomeNotify(s) ==> SomeNotify(s')
  {
  }

  /** Waking one sleeper keeps everything that was known, and leaves somebody awake. */
  lemma WakeOne<T>(s: State<T>, i: nat)
    requires MutexOk(s) && StopOk(s) && TasksOk(s) && i < |s.workers| && s.workers[i] == Sleeping
    requires s.stop ==> s.destroyer == DNotify
    ensures Inv(WithWorker(s, i, Ready))
  {
    OthersRun(s, WithWorker(s, i, Ready), i);
    assert Awake(WithWorker(s, i, Ready).workers[i]);
  }

  /** The notification of client c is spent; what else was known stays. */
  lemma SpendNotify<T>(s: State<T>, c: nat)
    requires Inv(s) && c < |s.clients| && s.clients[c] == CNotify
    ensures var s1 := WithClient(s, c, CIdle); MutexOk(s1) && StopOk(s1) && TasksOk(s1)
  {
    SameWorkers(s, WithClient(s, c, CIdle));
  }

  /**
    `notify_one` uses up the notification, but then a worker is awake: the one it woke, or, with nobody
    asleep, one that is not, since workers return only when no task is left.
   */
  lemma NotifyOneInv<T>(s: State<T>, s': State<T>, c: nat)
    requires Inv(s) && c < |s.clients| && s.clients[c] == CNotify && ClientStep(s, s', c)
    ensures Inv(s')
  {
    hide MutexOk, TasksOk;
    var s1 := WithClient(s, c, CIdle);
    SpendNotify(s, c);
    if exists i :: 0 <= i < |s1.workers| && s1.workers[i] == Sleeping {
      var i :| 0 <= i < |s1.workers| && s1.workers[i] == Sleeping && s' == WithWorker(s1, i, Ready);
      WakeOne(s1, i);
    } else if s.tasks != [] && |s.workers| > 0 {
      assert Awake(s.workers[0]);
      assert SomeAwake(s1);
    }
  }

  lemma DestroyerStepInv<T>(s: State<T>, s': State<T>)
    requires Inv(s) && DestroyerStep(s, s')
    ensures Inv(s')
  {
    assert SomeNotify(s) ==> SomeNotify(s');
    if s.destroyer == DNotify {
      NotifyAllInv(s, s');
    } else {
      SameWorkers(s, s');
    }
  }

  lemma NotifyAllInv<T>(s: State<T>, s': State<T>)
    requires Inv(s) && s.destroyer == DNotify && DestroyerStep(s, s')
    ensures Inv(s')
  {
    hide TasksOk;
    NotifyAllTasks(s, s');
    if SomeAwake(s) {
      var i :| 0 <= i < |s.workers| && Awake(s.workers[i]);
      assert Awake(s'.workers[i]);
    }
    assert SomeNotify(s) ==> SomeNotify(s');
  }

  lemma NotifyAllTasks<T>(s: State<T>, s': State<T>)
    requires TasksOk(s) && s' == s.(destroyer := s'.destroyer, workers := AllAwake(s.workers))
    ensures TasksOk(s')
  {
    forall k: nat | IsRunning(s, k)
      ensures IsRunning(s', k)
    {
      var i :| 0 <= i < |s.workers| && s.workers[i] == Running(k);
      assert s'.workers[i] == Running(k);
    }
  }

  lemma ExternalInv<T(!new)>(s: State<T>, s': State<T>)
    requires Inv(s) && External(s, s')
    ensures Inv(s')
  {
    if c, task: T :| 0 <= c < |s.clients| && s.clients[c] == CIdle && s' == Calls(s, c, task) {
      KeepsNotify(s, s', c);
      SameWorkers(s, s');
    } else if s.destroyer == NotStarted && s' == s.(destroyer := DLocking) {
      assert SomeNotify(s) ==> SomeNotify(s');
      SameWorkers(s, s');
    } else {
      var i :| 0 <= i < |s.workers| && s.workers[i] == Sleeping && s' == WithWorker(s, i, Ready);
      WakeOne(s, i);
    }
  }

  lemma InternalInv<T>(s: State<T>, s': State<T>)
    requires Inv(s) && Internal(s, s')
    ensures Inv(s')
  {
    hide Inv, WorkerStep, ClientStep, DestroyerStep;
    if i :| 0 <= i < |s.workers| && WorkerStep(s, s', i) {
      WorkerStepInv(s, s', i);
    } else if c :| 0 <= c < |s.clients| && ClientStep(s, s', c) {
      ClientStepInv(s, s', c);
    } else {
      DestroyerStepInv(s, s');
    }
  }

  ghost predicate Run<T(!new)>(trace: seq<State<T>>) {
    && |trace| >= 1 && Init(trace[0])
    && forall i | 0 <= i < |trace| - 1 :: Next(trace[i], trace[i + 1])
  }

  lemma {:induction false} RunInv<T(!new)>(trace: seq<State<T>>, i: nat)
    requires Run(trace) && i < |trace|
    ensures Inv(trace[i])
  {
    hide Inv, Internal, External;
    if i == 0 {
      InitInv(trace[0]);
    } else {
      RunInv(trace, i - 1);
      assert Next(trace[i - 1], trace[i - 1 + 1]);
      if Internal(trace[i - 1], trace[i]) {
        InternalInv(trace[i - 1], trace[i]);
      } else {
        ExternalInv(trace[i - 1], trace[i]);
      }
    }
  }
}
