/** What holds of every run of the mutex thread pool: no lost wake-up, progress, drain, and each task once. */
module ThreadPoolTheorems {
  import opened Multisets
  import opened ThreadPool

  // ---------------------------------------------------------------- no wake-up is lost

  /** Workers on their way to the queue: each of them will take a task if there is one. */
  function Coming(workers: seq<Worker>): nat {
    if workers == [] then 0 else (if workers[0] == Ready || workers[0] == Holding then 1 else 0) + Coming(workers[1..])
  }

  function Notifying<T>(clients: seq<Client<T>>): nat {
    if clients == [] then 0 else (if clients[0].CNotify? then 1 else 0) + Notifying(clients[1..])
  }

  ghost predicate SomeSleeping<T>(s: State<T>) {
    exists i :: 0 <= i < |s.workers| && s.workers[i] == Sleeping
  }

  /** While anybody sleeps, every queued task has a worker coming for it, or a notification under way. */
  ghost predicate Attended<T>(s: State<T>) {
    SomeSleeping(s) ==> |s.tasks| <= Coming(s.workers) + Notifying(s.clients)
  }

  lemma {:induction false} ComingUpdate(workers: seq<Worker>, i: nat, w: Worker)
    requires i < |workers|
    ensures Coming(workers[i := w]) + Coming([workers[i]]) == Coming(workers) + Coming([w])
  {
    if i == 0 {
      assert workers[0 := w][1..] == workers[1..];
      assert [workers[i]][1..] == [] && [w][1..] == [];
    } else {
      assert workers[i := w][1..] == workers[1..][i - 1 := w];
      ComingUpdate(workers[1..], i - 1, w);
    }
  }

  lemma {:induction false} NotifyingUpdate<T>(clients: seq<Client<T>>, c: nat, client: Client<T>)
    requires c < |clients|
    ensures Notifying(clients[c := client]) + Notifying([clients[c]]) == Notifying(clients) + Notifying([client])
  {
    if c == 0 {
      assert clients[0 := client][1..] == clients[1..];
      assert [clients[c]][1..] == [] && [client][1..] == [];
    } else {
      assert clients[c := client][1..] == clients[1..][c - 1 := client];
      NotifyingUpdate(clients[1..], c - 1, client);
    }
  }

  lemma WorkerAttended<T>(s: State<T>, s': State<T>, i: nat)
    requires Attended(s) && i < |s.workers| && WorkerStep(s, s', i)
    ensures Attended(s')
  {
    ComingUpdate(s.workers, i, s'.workers[i]);
    if SomeSleeping(s') && s'.workers[i] != Sleeping {
      var j :| 0 <= j < |s'.workers| && s'.workers[j] == Sleeping;
      assert s.workers[j] == Sleeping;
    }
  }

  /** A sleeper that is woken is on its way. */
  lemma WakeAttended<T>(s: State<T>, i: nat)
    requires i < |s.workers| && s.workers[i] == Sleeping
    ensures Coming(WithWorker(s, i, Ready).workers) == Coming(s.workers) + 1
  {
    ComingUpdate(s.workers, i, Ready);
  }

  lemma ClientAttended<T>(s: State<T>, s': State<T>, c: nat)
    requires Attended(s) && c < |s.clients| && ClientStep(s, s', c)
    ensures Attended(s')
  {
    NotifyingUpdate(s.clients, c, s'.clients[c]);
    if s.clients[c] == CNotify && SomeSleeping(s) {
      var s1 := WithClient(s, c, CIdle);
      assert SomeSleeping(s1);
      var i :| 0 <= i < |s1.workers| && s1.workers[i] == Sleeping && s' == WithWorker(s1, i, Ready);
      WakeAttended(s1, i);
    }
  }

  lemma ExternalAttended<T(!new)>(s: State<T>, s': State<T>)
    requires Attended(s) && External(s, s')
    ensures Attended(s')
  {
    if i :| 0 <= i < |s.workers| && s.workers[i] == Sleeping && s' == WithWorker(s, i, Ready) {
      WakeAttended(s, i);
    } else if c, task: T :| 0 <= c < |s.clients| && s.clients[c] == CIdle && s' == Calls(s, c, task) {
      NotifyingUpdate(s.clients, c, CLocking(task));
    }
  }

  lemma {:induction false} RunAttended<T(!new)>(trace: seq<State<T>>, i: nat)
    requires Run(trace) && i < |trace|
    ensures Attended(trace[i])
  {
    hide WorkerStep, ClientStep, External, Attended;
    if i == 0 {
      assert Attended(trace[0]) by { InitAttended(trace[0]); }
    } else {
      RunAttended(trace, i - 1);
      var s, s' := trace[i - 1], trace[i - 1 + 1];
      assert Next(s, s');
      if j :| 0 <= j < |s.workers| && WorkerStep(s, s', j) {
        WorkerAttended(s, s', j);
      } else if c :| 0 <= c < |s.clients| && ClientStep(s, s', c) {
        ClientAttended(s, s', c);
      } else if DestroyerStep(s, s') {
        DestroyerAttended(s, s');
      } else {
        ExternalAttended(s, s');
      }
    }
  }

  lemma InitAttended<T>(s: State<T>)
    requires Init(s)
    ensures Attended(s)
  {
  }

  lemma DestroyerAttended<T>(s: State<T>, s': State<T>)
    requires Attended(s) && DestroyerStep(s, s')
    ensures Attended(s')
  {
  }

  /**
    In every reachable state with a worker: queued tasks are looked after, also while others sleep and the
    worker that is awake is busy with something else; and stop reaches every sleeper.
   */
  lemma NoLostWakeup<T(!new)>(trace: seq<State<T>>, i: nat)
    requires Run(trace) && i < |trace|
    ensures var s := trace[i];
      && (s.tasks != [] && |s.workers| > 0 ==> SomeAwake(s) || SomeNotify(s))
      && (SomeSleeping(s) ==> |s.tasks| <= Coming(s.workers) + Notifying(s.clients))
      && (s.stop && SomeSleeping(s) ==> s.destroyer == DNotify)
  {
    RunInv(trace, i);
    RunAttended(trace, i);
  }

  /** Nothing is going on and nothing is left to do. */
  ghost predicate Settled<T>(s: State<T>) {
    && s.mutex == Nobody && s.tasks == [] && (forall c | 0 <= c < |s.clients| :: s.clients[c] == CIdle)
    && (|| (s.destroyer == DDone && forall i | 0 <= i < |s.workers| :: s.workers[i] == Returned)
        || (s.destroyer == NotStarted && !s.stop && forall i | 0 <= i < |s.workers| :: s.workers[i] == Sleeping))
  }

  /**
    The only states with workers in which the pool can do nothing more by itself are those in which every
    worker has returned and the destructor is through, and those in which the pool is not stopped, the
    queue is empty and everybody is idle.
   */
  lemma StuckIsSettled<T(!new)>(s: State<T>)
    requires Inv(s) && |s.workers| > 0
    requires !exists s' :: Internal(s, s')
    ensures Settled(s)
  {
    if s.mutex != Nobody {
      var s' := HolderMoves(s);
      assert false;
    }
    forall i | 0 <= i < |s.workers|
      ensures s.workers[i] == Sleeping || s.workers[i] == Returned
    {
      if Awake(s.workers[i]) {
        var s' := WorkerMoves(s, i);
        assert false;
      }
    }
    forall c | 0 <= c < |s.clients|
      ensures s.clients[c] == CIdle
    {
      if s.clients[c] != CIdle {
        var s' := ClientMoves(s, c);
        assert false;
      }
    }
    if s.destroyer != NotStarted && s.destroyer != DDone {
      if s.destroyer.DJoining? && s.destroyer.next < |s.workers| {
        assert s.workers[s.destroyer.next] == Returned;
      }
      var s' := DestroyerMoves(s);
      assert false;
    }
  }

  lemma HolderMoves<T>(s: State<T>) returns (s': State<T>)
    requires Inv(s) && s.mutex != Nobody
    ensures Internal(s, s')
  {
    match s.mutex {
      case ByWorker(i) => s' := WorkerMoves(s, i);
      case ByClient(c) => s' := ClientMoves(s, c);
      case ByDestroyer => s' := DestroyerMoves(s);
    }
  }

  lemma WorkerMoves<T>(s: State<T>, i: nat) returns (s': State<T>)
    requires MutexOk(s) && i < |s.workers| && Awake(s.workers[i]) && (s.mutex == Nobody || s.mutex == ByWorker(i))
    ensures Internal(s, s')
  {
    match s.workers[i] {
      case Ready => s' := WithWorker(s, i, Holding).(mutex := ByWorker(i));
      case Running(k) => s' := WithWorker(s, i, Ready).(finished := s.finished + {k});
      case Holding =>
        s' := if !Wake(s) then WithWorker(s, i, Sleeping).(mutex := Nobody)
              else if s.stop && s.tasks == [] then WithWorker(s, i, Returned).(mutex := Nobody)
              else WithWorker(s, i, Running(s.taken)).(mutex := Nobody, tasks := s.tasks[1..], taken := s.taken + 1);
    }
    assert WorkerStep(s, s', i);
  }

  lemma ClientMoves<T>(s: State<T>, c: nat) returns (s': State<T>)
    requires MutexOk(s) && c < |s.clients| && s.clients[c] != CIdle && (s.mutex == Nobody || s.mutex == ByClient(c))
    ensures Internal(s, s')
  {
    match s.clients[c] {
      case CLocking(task) => s' := WithClient(s, c, CHolding(task)).(mutex := ByClient(c));
      case CHolding(task) =>
        s' := if s.stop then WithClient(s, c, CIdle).(mutex := Nobody, refused := s.refused + [task])
              else WithClient(s, c, CNotify).(mutex := Nobody, tasks := s.tasks + [task], accepted := s.accepted + [task]);
      case CNotify =>
        s' := WithClient(s, c, CIdle);
        if i :| 0 <= i < |s.workers| && s.workers[i] == Sleeping {
          s' := WithWorker(s', i, Ready);
        }
    }
    assert ClientStep(s, s', c);
  }

  lemma DestroyerMoves<T>(s: State<T>) returns (s': State<T>)
    requires s.destroyer != NotStarted && s.destroyer != DDone
    requires s.destroyer == DLocking ==> s.mutex == Nobody
    requires s.destroyer.DJoining? && s.destroyer.next < |s.workers| ==> s.workers[s.destroyer.next] == Returned
    ensures Internal(s, s')
  {
    match s.destroyer {
      case DLocking => s' := s.(destroyer := DHolding, mutex := ByDestroyer);
      case DHolding => s' := s.(destroyer := DNotify, mutex := Nobody, stop := true);
      case DNotify => s' := s.(destroyer := DJoining(0), workers := AllAwake(s.workers));
      case DJoining(k) => s' := if k < |s.workers| then s.(destroyer := DJoining(k + 1)) else s.(destroyer := DDone);
    }
    assert DestroyerStep(s, s');
  }

  // ---------------------------------------------------------------- every task runs

  function WorkerWork(w: Worker): nat {
    match w
    case Running(_) => 3
    case Ready => 2
    case Holding => 1
    case Sleeping => 0
    case Returned => 0
  }

  function ClientWork<T>(c: Client<T>): nat {
    match c
    case CIdle => 0
    case CNotify => 3
    case CHolding(_) => 7
    case CLocking(_) => 8
  }

  function DestroyerWork(d: Destroyer, workers: nat): nat {
    match d
    case NotStarted => 0
    case DLocking => 3 * workers + 5
    case DHolding => 3 * workers + 4
    case DNotify => 3 * workers + 3
    case DJoining(k) => if k <= workers then workers - k + 2 else 1
    case DDone => 0
  }

  function WorkersWork(workers: seq<Worker>): nat {
    if workers == [] then 0 else WorkerWork(workers[0]) + WorkersWork(workers[1..])
  }

  function ClientsWork<T>(clients: seq<Client<T>>): nat {
    if clients == [] then 0 else ClientWork(clients[0]) + ClientsWork(clients[1..])
  }

  /** An upper bound on the steps the pool can still take by itself. */
  function Work<T>(s: State<T>): nat {
    WorkersWork(s.workers) + ClientsWork(s.clients) + DestroyerWork(s.destroyer, |s.workers|) + 3 * |s.tasks|
  }

  lemma {:induction false} WorkersUpdate(workers: seq<Worker>, i: nat, w: Worker)
    requires i < |workers|
    ensures WorkersWork(workers[i := w]) == WorkersWork(workers) - WorkerWork(workers[i]) + WorkerWork(w)
  {
    if i == 0 {
      assert workers[0 := w][1..] == workers[1..];
    } else {
      assert workers[i := w][1..] == workers[1..][i - 1 := w];
      WorkersUpdate(workers[1..], i - 1, w);
    }
  }

  lemma {:induction false} ClientsUpdate<T>(clients: seq<Client<T>>, c: nat, client: Client<T>)
    requires c < |clients|
    ensures ClientsWork(clients[c := client]) == ClientsWork(clients) - ClientWork(clients[c]) + ClientWork(client)
  {
    if c == 0 {
      assert clients[0 := client][1..] == clients[1..];
    } else {
      assert clients[c := client][1..] == clients[1..][c - 1 := client];
      ClientsUpdate(clients[1..], c - 1, client);
    }
  }

  lemma {:induction false} AwakeWork(workers: seq<Worker>)
    ensures WorkersWork(AllAwake(workers)) <= WorkersWork(workers) + 2 * |workers|
  {
    if workers != [] {
      assert AllAwake(workers)[1..] == AllAwake(workers[1..]);
      AwakeWork(workers[1..]);
    }
  }

  /** Every step of the pool itself uses up some of the work. */
  lemma WorkDecreases<T>(s: State<T>, s': State<T>)
    requires Internal(s, s')
    ensures Work(s') < Work(s) && |s'.workers| == |s.workers|
  {
    hide WorkerStep, ClientStep, DestroyerStep, Work;
    if i :| 0 <= i < |s.workers| && WorkerStep(s, s', i) {
      WorkerWorkDecreases(s, s', i);
    } else if c :| 0 <= c < |s.clients| && ClientStep(s, s', c) {
      ClientWorkDecreases(s, s', c);
    } else {
      DestroyerWorkDecreases(s, s');
    }
  }

  lemma WorkerWorkDecreases<T>(s: State<T>, s': State<T>, i: nat)
    requires i < |s.workers| && WorkerStep(s, s', i)
    ensures Work(s') < Work(s) && |s'.workers| == |s.workers|
  {
    hide WorkersWork, ClientsWork;
    WorkersUpdate(s.workers, i, s'.workers[i]);
  }

  lemma DestroyerWorkDecreases<T>(s: State<T>, s': State<T>)
    requires DestroyerStep(s, s')
    ensures Work(s') < Work(s) && |s'.workers| == |s.workers|
  {
    hide WorkersWork, ClientsWork;
    AwakeWork(s.workers);
  }

  lemma ClientWorkDecreases<T>(s: State<T>, s': State<T>, c: nat)
    requires c < |s.clients| && ClientStep(s, s', c)
    ensures Work(s') < Work(s) && |s'.workers| == |s.workers|
  {
    ClientsUpdate(s.clients, c, s'.clients[c]);
    if s.clients[c] == CNotify && s'.workers != s.workers {
      var s1 := WithClient(s, c, CIdle);
      var i :| 0 <= i < |s1.workers| && s1.workers[i] == Sleeping && s' == WithWorker(s1, i, Ready);
      WorkersUpdate(s.workers, i, Ready);
    }
  }

  /** A stretch in which nothing is called from outside and nobody wakes up for no reason. */
  ghost predicate OnItsOwn<T>(trace: seq<State<T>>) {
    |trace| >= 1 && forall i | 0 <= i < |trace| - 1 :: Internal(trace[i], trace[i + 1])
  }

  lemma {:induction false} OnItsOwnBound<T>(trace: seq<State<T>>, i: nat)
    requires OnItsOwn(trace) && Inv(trace[0]) && i < |trace|
    ensures Inv(trace[i]) && i + Work(trace[i]) <= Work(trace[0]) && |trace[i].workers| == |trace[0].workers|
  {
    hide Inv, Internal, Work;
    if i > 0 {
      OnItsOwnBound(trace, i - 1);
      assert Internal(trace[i - 1], trace[i - 1 + 1]);
      InternalInv(trace[i - 1], trace[i]);
      WorkDecreases(trace[i - 1], trace[i]);
    }
  }

  /** When nothing is queued and nothing runs, every accepted task has run exactly once. */
  lemma AllFinished<T>(s: State<T>)
    requires TasksOk(s) && s.tasks == [] && forall i | 0 <= i < |s.workers| :: !s.workers[i].Running?
    ensures s.taken == |s.accepted| && forall k: nat :: k in s.finished <==> k < |s.accepted|
  {
    forall k: nat | k < s.taken
      ensures k in s.finished
    {
      assert !IsRunning(s, k);
    }
  }

  /**
    Left to itself, the pool always comes to rest after boundedly many steps, whatever the schedule, and
    then every task accepted so far has been taken, in order, and run exactly once.
   */
  lemma EveryTaskRuns<T(!new)>(trace: seq<State<T>>)
    requires OnItsOwn(trace) && Inv(trace[0]) && |trace[0].workers| > 0
    ensures |trace| - 1 <= Work(trace[0])
    ensures var last := trace[|trace| - 1];
      (!exists s' :: Internal(last, s')) ==>
        && Settled(last)
        && forall k: nat :: k in last.finished <==> k < |last.accepted|
  {
    var last := trace[|trace| - 1];
    OnItsOwnBound(trace, |trace| - 1);
    if !exists s' :: Internal(last, s') {
      StuckIsSettled(last);
      AllFinished(last);
    }
  }

  /** Once all workers, of which there is at least one, have returned, every accepted task has run. */
  lemma Drained<T(!new)>(trace: seq<State<T>>, i: nat)
    requires Run(trace) && i < |trace| && |trace[i].workers| > 0
    requires forall w | 0 <= w < |trace[i].workers| :: trace[i].workers[w] == Returned
    ensures trace[i].stop && trace[i].tasks == []
    ensures forall k: nat :: k in trace[i].finished <==> k < |trace[i].accepted|
  {
    RunInv(trace, i);
    assert trace[i].workers[0] == Returned;
    AllFinished(trace[i]);
  }

  /** What one step does to the history: tasks leave in the order they came, and none comes after stop. */
  ghost predicate Later<T>(s: State<T>, s': State<T>) {
    && s.accepted <= s'.accepted && s.taken <= s'.taken && s.finished <= s'.finished
    && (s.stop ==> s'.stop && s'.accepted == s.accepted)
    && (s.stop && s.tasks == [] ==> s'.tasks == [])
  }

  lemma WorkerLater<T>(s: State<T>, s': State<T>, i: nat)
    requires i < |s.workers| && WorkerStep(s, s', i)
    ensures Later(s, s')
  {
  }

  lemma ClientLater<T>(s: State<T>, s': State<T>, c: nat)
    requires c < |s.clients| && ClientStep(s, s', c)
    ensures Later(s, s')
  {
  }

  lemma NextLater<T(!new)>(s: State<T>, s': State<T>)
    requires Next(s, s')
    ensures Later(s, s')
  {
    hide WorkerStep, ClientStep;
    if i :| 0 <= i < |s.workers| && WorkerStep(s, s', i) {
      WorkerLater(s, s', i);
    } else if c :| 0 <= c < |s.clients| && ClientStep(s, s', c) {
      ClientLater(s, s', c);
    }
  }

  /** After stop the queue only empties: whoever finds it stopped and empty finds it so for ever. */
  lemma {:induction false} StopIsFinal<T(!new)>(trace: seq<State<T>>, i: nat, j: nat)
    requires Run(trace) && i <= j < |trace|
    ensures Later(trace[i], trace[j])
    decreases j
  {
    hide Next;
    if i < j {
      StopIsFinal(trace, i, j - 1);
      assert Next(trace[j - 1], trace[j - 1 + 1]);
      NextLater(trace[j - 1], trace[j]);
      assert forall k | 0 <= k < |trace[i].accepted| :: trace[i].accepted[k] == trace[j - 1].accepted[k] == trace[j].accepted[k];
    }
  }

  /** In every reachable state each accepted task is queued in its place, or running on one worker, or done. */
  lemma OncePerTask<T(!new)>(trace: seq<State<T>>, i: nat, k: nat)
    requires Run(trace) && i < |trace| && k < |trace[i].accepted|
    ensures var s := trace[i];
      if k >= s.taken then k - s.taken < |s.tasks| && s.tasks[k - s.taken] == s.accepted[k] && k !in s.finished && !IsRunning(s, k)
      else k in s.finished <==> !IsRunning(s, k)
    ensures forall v, w | 0 <= v < |trace[i].workers| && 0 <= w < |trace[i].workers| ::
      trace[i].workers[v] == Running(k) && trace[i].workers[w] == Running(k) ==> v == w
  {
    RunInv(trace, i);
  }

  // ---------------------------------------------------------------- what becomes of a call

  /** The task of a client inside `enqueue` that is in front of the critical section or in it. */
  ghost function UndecidedOf<T>(client: Client<T>): multiset<T> {
    match client
    case CLocking(task) => multiset{task}
    case CHolding(task) => multiset{task}
    case _ => multiset{}
  }

  ghost function Undecided<T>(clients: seq<Client<T>>): multiset<T> {
    Sum(clients, UndecidedOf)
  }

  /** Every call is accounted for, and before stop none is refused. */
  ghost predicate CallsOk<T>(s: State<T>) {
    && multiset(s.called) == multiset(s.accepted) + multiset(s.refused) + Undecided(s.clients)
    && (s.refused != [] ==> s.stop)
  }

  /** A step of a client moves its task from the undecided ones into one of the histories, or nowhere. */
  lemma ClientMovesTask<T>(s: State<T>, s': State<T>, c: nat)
    requires c < |s.clients| && ClientStep(s, s', c)
    ensures |s'.clients| == |s.clients| && s'.clients == s.clients[c := s'.clients[c]]
    ensures s'.called == s.called && s'.stop == s.stop && (s'.refused != s.refused ==> s.stop)
    ensures multiset(s'.accepted) + multiset(s'.refused) + UndecidedOf(s'.clients[c])
         == multiset(s.accepted) + multiset(s.refused) + UndecidedOf(s.clients[c])
  {
    hide NotifiesOne;
    match s.clients[c]
    case CNotify => NotifyTouches(s, s', c);
    case CHolding(task) =>
      if s.stop {
        assert multiset(s'.refused) == multiset(s.refused) + multiset{task};
      } else {
        assert multiset(s'.accepted) == multiset(s.accepted) + multiset{task};
      }
    case _ =>
  }

  /** A notification touches the workers and the client that gives it. */
  lemma NotifyTouches<T>(s: State<T>, s': State<T>, c: nat)
    requires c < |s.clients| && s.clients[c] == CNotify && ClientStep(s, s', c)
    ensures s' == WithClient(s, c, CIdle).(workers := s'.workers)
  {
  }

  lemma ClientCallsOk<T>(s: State<T>, s': State<T>, c: nat)
    requires CallsOk(s) && c < |s.clients| && ClientStep(s, s', c)
    ensures CallsOk(s')
  {
    hide Sum, UndecidedOf, ClientStep;
    ClientMovesTask(s, s', c);
    SumUpdate(s.clients, UndecidedOf, c, s'.clients[c]);
    MovedOver(multiset(s.called), multiset(s.accepted) + multiset(s.refused), multiset(s'.accepted) + multiset(s'.refused),
              Undecided(s.clients), Undecided(s'.clients), UndecidedOf(s.clients[c]), UndecidedOf(s'.clients[c]));
  }

  lemma CallCallsOk<T>(s: State<T>, c: nat, task: T)
    requires CallsOk(s) && c < |s.clients| && s.clients[c] == CIdle
    ensures CallsOk(Calls(s, c, task))
  {
    hide Sum;
    SumUpdate(s.clients, UndecidedOf, c, CLocking(task));
    var decided := multiset(s.accepted) + multiset(s.refused);
    Exchange(multiset(s.called), decided, Undecided(s.clients), Undecided(s.clients[c := CLocking(task)]), multiset{}, multiset{task});
    assert decided + multiset{} == decided;
  }

  lemma SameCalls<T>(s: State<T>, s': State<T>)
    requires CallsOk(s) && s'.called == s.called && s'.accepted == s.accepted && s'.refused == s.refused && s'.clients == s.clients
    requires s.stop ==> s'.stop
    ensures CallsOk(s')
  {
  }

  lemma WorkerSameCalls<T>(s: State<T>, s': State<T>, i: nat)
    requires CallsOk(s) && i < |s.workers| && WorkerStep(s, s', i)
    ensures CallsOk(s')
  {
    hide CallsOk;
    SameCalls(s, s');
  }

  lemma NextCallsOk<T(!new)>(s: State<T>, s': State<T>)
    requires CallsOk(s) && Next(s, s')
    ensures CallsOk(s')
  {
    hide ClientStep, WorkerStep, Calls, CallsOk;
    if j :| 0 <= j < |s.workers| && WorkerStep(s, s', j) {
      WorkerSameCalls(s, s', j);
    } else if c :| 0 <= c < |s.clients| && ClientStep(s, s', c) {
      ClientCallsOk(s, s', c);
    } else if c, task: T :| 0 <= c < |s.clients| && s.clients[c] == CIdle && s' == Calls(s, c, task) {
      CallCallsOk(s, c, task);
    } else {
      SameCalls(s, s');
    }
  }

  /**
    What becomes of the calls of `enqueue`, in every reachable state: each task ever passed to it is accepted, or
    was refused, or its caller has not been through the critical section yet, once for each call; and as long as the
    pool is not stopped nothing has been refused.
   */
  lemma {:induction false} EveryCallCounts<T(!new)>(trace: seq<State<T>>, i: nat)
    requires Run(trace) && i < |trace|
    ensures CallsOk(trace[i])
  {
    hide Next, CallsOk;
    if i == 0 {
      InitCallsOk(trace[0]);
    } else {
      EveryCallCounts(trace, i - 1);
      assert Next(trace[i - 1], trace[i - 1 + 1]);
      NextCallsOk(trace[i - 1], trace[i]);
    }
  }

  lemma InitCallsOk<T>(s: State<T>)
    requires Init(s)
    ensures CallsOk(s)
  {
    SumEmpty(s.clients, UndecidedOf);
  }

  /**
    After the pool has been destroyed and every caller has returned, each task ever passed to `enqueue` has run, or
    was refused.
   */
  lemma CalledTasksRan<T(!new)>(trace: seq<State<T>>, i: nat)
    requires Run(trace) && i < |trace| && |trace[i].workers| > 0
    requires forall w | 0 <= w < |trace[i].workers| :: trace[i].workers[w] == Returned
    requires forall c | 0 <= c < |trace[i].clients| :: trace[i].clients[c] == CIdle
    ensures multiset(trace[i].called) == multiset(trace[i].accepted) + multiset(trace[i].refused)
    ensures forall k: nat :: k in trace[i].finished <==> k < |trace[i].accepted|
  {
    Drained(trace, i);
    EveryCallCounts(trace, i);
    SumEmpty(trace[i].clients, UndecidedOf);
  }

  /**
    Whatever step the pool takes, a client that comes out of the critical section of `enqueue` has had its task
    appended, unless the pool is stopped, and only then is it refused.
   */
  lemma EnqueueDecides<T(!new)>(s: State<T>, s': State<T>, c: nat, task: T)
    requires Next(s, s') && c < |s.clients| && s.clients[c] == CHolding(task)
    requires c < |s'.clients| ==> s'.clients[c] != CHolding(task)
    ensures |s'.clients| == |s.clients|
    ensures !s.stop ==>
      && s'.clients[c] == CNotify && s'.refused == s.refused
      && s'.accepted == s.accepted + [task] && s'.tasks == s.tasks + [task]
    ensures s.stop ==>
      && s'.clients[c] == CIdle && s'.refused == s.refused + [task]
      && s'.accepted == s.accepted && s'.tasks == s.tasks
  {
    if d :| 0 <= d < |s.clients| && ClientStep(s, s', d) {
      assert d == c;
    }
  }

  /** What became of worker i is what a step of its own allows, or somebody has woken it. */
  ghost predicate Decides<T>(s: State<T>, s': State<T>, i: nat)
    requires i < |s.workers| == |s'.workers|
  {
    match s'.workers[i]
    case Ready => s.workers[i] == Sleeping || (s.workers[i].Running? && s'.finished == s.finished + {s.workers[i].ticket})
    case Holding => s.workers[i] == Ready && s.mutex == Nobody
    case Sleeping => s.workers[i] == Holding && !s.stop && s.tasks == []
    case Returned => s.workers[i] == Holding && s.stop && s.tasks == []
    case Running(k) =>
      && s.workers[i] == Holding && s.tasks != [] && s'.tasks == s.tasks[1..]
      && k < |s.accepted| && s.accepted[k] == s.tasks[0]
  }

  lemma OwnDecides<T>(s: State<T>, s': State<T>, i: nat)
    requires TasksOk(s) && i < |s.workers| && WorkerStep(s, s', i)
    ensures |s'.workers| == |s.workers| && Decides(s, s', i)
    ensures forall j | 0 <= j < |s.workers| && j != i :: s'.workers[j] == s.workers[j]
  {
  }

  /**
    Whatever step the pool takes, a worker goes to sleep only when there is nothing to do, returns only when the
    pool is stopped and empty, and otherwise takes the oldest task; and only sleepers are woken.
   */
  lemma WorkerDecides<T(!new)>(s: State<T>, s': State<T>, i: nat)
    requires Inv(s) && Next(s, s') && i < |s.workers|
    ensures |s'.workers| == |s.workers|
    ensures s'.workers[i] != s.workers[i] ==> Decides(s, s', i)
  {
    hide WorkerStep, MutexOk, StopOk, WakeOk, TasksOk;
    if j :| 0 <= j < |s.workers| && WorkerStep(s, s', j) {
      OwnDecides(s, s', j);
    }
  }

  /** A notification wakes one sleeper, if there is one. */
  lemma NotifyDecides<T(!new)>(s: State<T>, s': State<T>, c: nat)
    requires Next(s, s') && c < |s.clients| == |s'.clients| && s.clients[c] == CNotify && s'.clients[c] != CNotify
    ensures s'.clients[c] == CIdle && s'.tasks == s.tasks
    ensures Coming(s'.workers) == Coming(s.workers) + if SomeSleeping(s) then 1 else 0
  {
    hide Coming;
    if d :| 0 <= d < |s.clients| && ClientStep(s, s', d) {
      assert d == c;
      var s1 := WithClient(s, c, CIdle);
      if SomeSleeping(s) {
        assert SomeSleeping(s1);
        var i :| 0 <= i < |s1.workers| && s1.workers[i] == Sleeping && s' == WithWorker(s1, i, Ready);
        WakeAttended(s1, i);
      }
    }
  }
}
