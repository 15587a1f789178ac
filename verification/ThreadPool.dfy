/** The worker pool over all interleavings (src/concurrency/thread_pool.c with the waits
    and signals of src/concurrency/job_queue.c). A step is one region under the queue's
    mutex, one return of a handler, or one spurious wake-up. */
module ThreadPools {
  import opened Text
  import opened JobQueues

  datatype Worker =
    | AtPop             // about to enter `queue_pop`
    | Asleep            // blocked in `pthread_cond_wait`
    | Woken             // released from the wait, about to check again
    | Holding(fd: int)  // popped a job, not yet counted as busy
    | Running(fd: int)  // inside the handler
    | Finishing         // back from the handler, still counted as busy
    | Exited

  /** `accepted`, `popped` and `handled` record the jobs in the order in which they were
      queued, taken and finished. */
  datatype Pool = Pool(queue: Queue, workers: seq<Worker>, active: int,
                       accepted: seq<int>, popped: seq<int>, handled: seq<int>)

  datatype Event =
    | Submit(fd: int, wake: set<nat>)
    | SpuriousWake(w: nat)
    | Check(w: nat)
    | Begin(w: nat)
    | Return(w: nat)
    | End(w: nat)
    | Stop

  function Start(workers: nat, capacity: nat): (next: Pool) {
    Pool(Queue([], capacity, false), seq(workers, _ => AtPop), 0, [], [], [])
  }

  function Released(workers: seq<Worker>, wake: set<nat>): (released: seq<Worker>)
    ensures |released| == |workers|
  {
    seq(|workers|, i requires 0 <= i < |workers| => if i in wake then Woken else workers[i])
  }

  function Sleepers(workers: seq<Worker>): (members: set<nat>) {
    set i: nat | i < |workers| && workers[i].Asleep?
  }

  /** `pthread_cond_signal` releases at least one sleeper if there is one. */
  predicate SignalReleases(workers: seq<Worker>, wake: set<nat>) {
    wake <= Sleepers(workers) && (Sleepers(workers) != {} ==> wake != {})
  }

  function Put(p: Pool, w: nat, worker: Worker): (next: Pool)
    requires w < |p.workers|
  {
    p.(workers := p.workers[w := worker])
  }

  /** One step, or None when the event is not possible. */
  function Step(p: Pool, e: Event): (next: Option<Pool>) {
    match e
    case Submit(fd, wake) =>
      if !Accepts(p.queue) then Some(p)
      else if !SignalReleases(p.workers, wake) then None
      else Some(p.(queue := Pushed(p.queue, fd), workers := Released(p.workers, wake), accepted := p.accepted + [fd]))
    case Stop =>
      Some(p.(queue := p.queue.(shuttingDown := true), workers := Released(p.workers, Sleepers(p.workers))))
    case SpuriousWake(w) =>
      if w < |p.workers| && p.workers[w].Asleep? then Some(Put(p, w, Woken)) else None
    case Check(w) =>
      if !(w < |p.workers| && (p.workers[w].AtPop? || p.workers[w].Woken?)) then None
      else
        var (queue, outcome) := Popped(p.queue);
        (match outcome
         case MustWait => Some(Put(p, w, Asleep))
         case Closed => Some(Put(p, w, Exited))
         case Got(fd) => Some(Put(p, w, Holding(fd)).(queue := queue, popped := p.popped + [fd])))
    case Begin(w) =>
      if w < |p.workers| && p.workers[w].Holding?
        then Some(Put(p, w, Running(p.workers[w].fd)).(active := p.active + 1))
      else None
    case Return(w) =>
      if w < |p.workers| && p.workers[w].Running?
        then Some(Put(p, w, Finishing).(handled := p.handled + [p.workers[w].fd]))
      else None
    case End(w) =>
      if w < |p.workers| && p.workers[w].Finishing? then Some(Put(p, w, AtPop).(active := p.active - 1))
      else None
  }

  predicate IsRun(workers: nat, capacity: nat, run: seq<Pool>, events: seq<Event>) {
    && |run| == |events| + 1 && run[0] == Start(workers, capacity)
    && forall i :: 0 <= i < |events| ==> Step(run[i], events[i]) == Some(run[i + 1])
  }

  // ---- counting workers --------------------------------------------------------------

  function WokenCount(workers: seq<Worker>): (n: nat) {
    if workers == [] then 0
    else WokenCount(workers[..|workers| - 1]) + (if workers[|workers| - 1].Woken? then 1 else 0)
  }

  predicate Busy(worker: Worker) {
    worker.Running? || worker.Finishing?
  }

  function BusyCount(workers: seq<Worker>): (n: nat)
    ensures n <= |workers|
  {
    if workers == [] then 0
    else BusyCount(workers[..|workers| - 1]) + (if Busy(workers[|workers| - 1]) then 1 else 0)
  }

  function HeldBy(worker: Worker): (bag: multiset<int>) {
    if worker.Holding? || worker.Running? then multiset{worker.fd} else multiset{}
  }

  /** The jobs that workers have taken and not yet finished. */
  function Held(workers: seq<Worker>): (bag: multiset<int>) {
    if workers == [] then multiset{} else Held(workers[..|workers| - 1]) + HeldBy(workers[|workers| - 1])
  }

  lemma {:induction false} PutCounts(workers: seq<Worker>, w: nat, worker: Worker)
    requires w < |workers|
    ensures var workers' := workers[w := worker];
            && WokenCount(workers')
              == WokenCount(workers) - (if workers[w].Woken? then 1 else 0) + (if worker.Woken? then 1 else 0)
            && BusyCount(workers')
              == BusyCount(workers) - (if Busy(workers[w]) then 1 else 0) + (if Busy(worker) then 1 else 0)
  {
    hide Held;
    var n := |workers| - 1;
    if w < n {
      PutCounts(workers[..n], w, worker);
      assert workers[w := worker][..n] == workers[..n][w := worker];
    } else {
      assert workers[w := worker][..n] == workers[..n];
    }
  }

  lemma {:induction false} PutHeld(workers: seq<Worker>, w: nat, worker: Worker)
    requires w < |workers|
    ensures Held(workers[w := worker]) + HeldBy(workers[w]) == Held(workers) + HeldBy(worker)
  {
    hide HeldBy;
    var n := |workers| - 1;
    if w < n {
      PutHeld(workers[..n], w, worker);
      Shuffle(Held(workers[..n][w := worker]), HeldBy(workers[w]), Held(workers[..n]), HeldBy(worker),
        HeldBy(workers[n]));
      assert workers[w := worker][..n] == workers[..n][w := worker];
    } else {
      assert workers[w := worker][..n] == workers[..n];
    }
  }

  lemma Shuffle(a: multiset<int>, b: multiset<int>, c: multiset<int>, d: multiset<int>, e: multiset<int>)
    requires a + b == c + d
    ensures a + e + b == c + e + d
  {
    forall x ensures (a + e + b)[x] == (c + e + d)[x] {
      assert (a + b)[x] == (c + d)[x];
    }
  }

  lemma Cancel(a: multiset<int>, b: multiset<int>, c: multiset<int>)
    requires a + c == b + c
    ensures a == b
  {
    forall x ensures a[x] == b[x] {
      assert (a + c)[x] == (b + c)[x];
    }
  }

  lemma ReleasedOne(worker: Worker, woken: bool)
    requires woken ==> worker.Asleep?
    ensures var after := if woken then Woken else worker;
            && Busy(after) == Busy(worker) && HeldBy(after) == HeldBy(worker)
            && (worker.Woken? ==> after.Woken?) && (woken ==> after.Woken? && !worker.Woken?)
  {
  }

  lemma ReleasedFront(workers: seq<Worker>, wake: set<nat>)
    requires workers != []
    ensures var n, released := |workers| - 1, Released(workers, wake);
            released[..n] == Released(workers[..n], wake) && released[n] == if n in wake then Woken else workers[n]
  {
  }

  lemma {:induction false} ReleasedCounts(workers: seq<Worker>, wake: set<nat>)
    requires forall i :: i in wake && i < |workers| ==> workers[i].Asleep?
    ensures WokenCount(Released(workers, wake)) >= WokenCount(workers)
    ensures (exists i :: i in wake && i < |workers|) ==> WokenCount(Released(workers, wake)) > WokenCount(workers)
    ensures BusyCount(Released(workers, wake)) == BusyCount(workers)
    ensures Held(Released(workers, wake)) == Held(workers)
  {
    hide Released, HeldBy, Busy;
    if workers != [] {
      var n := |workers| - 1;
      ReleasedFront(workers, wake);
      ReleasedOne(workers[n], n in wake);
      ReleasedCounts(workers[..n], wake);
    }
  }

  lemma {:induction false} NoneWoken(workers: seq<Worker>)
    requires forall i :: 0 <= i < |workers| ==> !workers[i].Woken?
    ensures WokenCount(workers) == 0
  {
    if workers != [] {
      NoneWoken(workers[..|workers| - 1]);
    }
  }

  lemma {:induction false} NoneHeld(workers: seq<Worker>)
    requires forall i :: 0 <= i < |workers| ==> HeldBy(workers[i]) == multiset{}
    ensures Held(workers) == multiset{}
  {
    if workers != [] {
      NoneHeld(workers[..|workers| - 1]);
    }
  }

  // ---- the invariant -----------------------------------------------------------------------

  /** If someone still sleeps, every queued job has a woken worker coming for it. */
  predicate NoLostWakeup(p: Pool) {
    if p.queue.shuttingDown then forall i :: 0 <= i < |p.workers| ==> !p.workers[i].Asleep?
    else (exists i :: 0 <= i < |p.workers| && p.workers[i].Asleep?) ==> |p.queue.fds| <= WokenCount(p.workers)
  }

  /** Jobs leave in the order in which they came, and each taken job is held by one
      worker or handled. */
  predicate Conserved(p: Pool) {
    && p.accepted == p.popped + p.queue.fds
    && multiset(p.popped) == Held(p.workers) + multiset(p.handled)
  }

  predicate ExitsDrained(p: Pool) {
    (exists i :: 0 <= i < |p.workers| && p.workers[i].Exited?) ==> p.queue.shuttingDown && p.queue.fds == []
  }

  predicate Inv(p: Pool) {
    && |p.queue.fds| <= p.queue.capacity
    && p.active == BusyCount(p.workers)
    && NoLostWakeup(p) && Conserved(p) && ExitsDrained(p)
  }

  lemma {:induction false} StartIsOk(workers: nat, capacity: nat)
    ensures Inv(Start(workers, capacity))
  {
    var p := Start(workers, capacity);
    NoneHeld(p.workers);
    NotBusy(p.workers);
  }

  lemma {:induction false} NotBusy(workers: seq<Worker>)
    requires forall i :: 0 <= i < |workers| ==> workers[i].AtPop?
    ensures BusyCount(workers) == 0
  {
    if workers != [] {
      NotBusy(workers[..|workers| - 1]);
    }
  }

  lemma SubmitKeepsWakeups(p: Pool, fd: int, wake: set<nat>)
    requires NoLostWakeup(p) && Step(p, Submit(fd, wake)).Some? && Accepts(p.queue)
    ensures NoLostWakeup(Step(p, Submit(fd, wake)).value)
  {
    hide WokenCount;
    ReleasedCounts(p.workers, wake);
    var p' := Step(p, Submit(fd, wake)).value;
    if i :| 0 <= i < |p'.workers| && p'.workers[i].Asleep? {
      assert i in Sleepers(p.workers);
      var k :| k in wake;
      assert k in Sleepers(p.workers);
    }
  }

  lemma SubmitKeepsInv(p: Pool, fd: int, wake: set<nat>)
    requires Inv(p) && Step(p, Submit(fd, wake)).Some?
    ensures Inv(Step(p, Submit(fd, wake)).value)
  {
    hide WokenCount, BusyCount, Held, NoLostWakeup;
    if Accepts(p.queue) {
      ReleasedCounts(p.workers, wake);
      SubmitKeepsWakeups(p, fd, wake);
      var p' := Step(p, Submit(fd, wake)).value;
      assert p'.accepted == p'.popped + p'.queue.fds;
    }
  }

  lemma StopKeepsInv(p: Pool)
    requires Inv(p)
    ensures Inv(Step(p, Stop).value)
  {
    ReleasedCounts(p.workers, Sleepers(p.workers));
    hide WokenCount, BusyCount, Held;
  }

  /** A step of one worker leaves the others as they are. */
  lemma OneWorkerSteps(p: Pool, e: Event)
    requires Step(p, e).Some? && !e.Submit? && !e.Stop?
    ensures var p' := Step(p, e).value;
            && e.w < |p.workers| == |p'.workers| && p'.workers == p.workers[e.w := p'.workers[e.w]]
            && (forall i :: 0 <= i < |p.workers| && i != e.w ==> p'.workers[i] == p.workers[i])
            && p'.accepted == p.accepted && p'.queue.shuttingDown == p.queue.shuttingDown
            && p'.queue.capacity == p.queue.capacity && |p'.queue.fds| <= |p.queue.fds|
            && (!e.Check? ==> p'.queue == p.queue && p'.popped == p.popped)
            && !(p.workers[e.w].Exited?)
  {
  }

  lemma CheckKeepsWakeups(p: Pool, w: nat)
    requires NoLostWakeup(p) && Step(p, Check(w)).Some?
    ensures NoLostWakeup(Step(p, Check(w)).value)
  {
    hide WokenCount, BusyCount, Held;
    var p' := Step(p, Check(w)).value;
    OneWorkerSteps(p, Check(w));
    PutCounts(p.workers, w, p'.workers[w]);
  }

  lemma WorkKeepsWakeups(p: Pool, e: Event)
    requires NoLostWakeup(p) && Step(p, e).Some? && !e.Submit? && !e.Stop? && !e.Check?
    ensures NoLostWakeup(Step(p, e).value)
  {
    hide WokenCount, BusyCount, Held;
    var p' := Step(p, e).value;
    OneWorkerSteps(p, e);
    PutCounts(p.workers, e.w, p'.workers[e.w]);
  }

  lemma WorkerIsCounted(p: Pool, e: Event)
    requires p.active == BusyCount(p.workers) && Step(p, e).Some? && !e.Submit? && !e.Stop?
    ensures var p' := Step(p, e).value; p'.active == BusyCount(p'.workers)
  {
    hide WokenCount, BusyCount, Held;
    PutCounts(p.workers, e.w, Step(p, e).value.workers[e.w]);
  }

  lemma CheckConserves(p: Pool, w: nat)
    requires Conserved(p) && Step(p, Check(w)).Some?
    ensures Conserved(Step(p, Check(w)).value)
  {
    hide Held;
    var p' := Step(p, Check(w)).value;
    PutHeld(p.workers, w, p'.workers[w]);
    if p.queue.fds != [] {
      assert p.queue.fds == [p.queue.fds[0]] + p.queue.fds[1..];
      var fd := multiset{p.queue.fds[0]};
      assert multiset(p'.popped) == multiset(p.popped) + fd;
      assert HeldBy(p.workers[w]) == multiset{} && HeldBy(p'.workers[w]) == fd;
      Shuffle(Held(p'.workers), multiset{}, Held(p.workers), fd, multiset(p.handled));
    } else {
      Cancel(Held(p'.workers), Held(p.workers), multiset{});
    }
  }

  /** A job taken out of its worker's hands is handled. */
  lemma ReturnConserves(p: Pool, w: nat)
    requires Conserved(p) && Step(p, Return(w)).Some?
    ensures Conserved(Step(p, Return(w)).value)
  {
    hide Held;
    var p' := Step(p, Return(w)).value;
    var fd := multiset{p.workers[w].fd};
    PutHeld(p.workers, w, Finishing);
    assert HeldBy(p.workers[w]) == fd && HeldBy(Finishing) == multiset{};
    Shuffle(Held(p'.workers), fd, Held(p.workers), multiset{}, multiset(p.handled));
    assert multiset(p'.handled) == multiset(p.handled) + fd;
    assert Held(p'.workers) + multiset(p'.handled) == Held(p'.workers) + multiset(p.handled) + fd;
  }

  lemma WorkConserves(p: Pool, e: Event)
    requires Conserved(p) && Step(p, e).Some? && !e.Submit? && !e.Stop? && !e.Check?
    ensures Conserved(Step(p, e).value)
  {
    hide Held;
    if e.Return? {
      ReturnConserves(p, e.w);
    } else {
      var p' := Step(p, e).value;
      PutHeld(p.workers, e.w, p'.workers[e.w]);
      Cancel(Held(p'.workers), Held(p.workers), HeldBy(p.workers[e.w]));
    }
  }

  lemma WorkerKeepsInv(p: Pool, e: Event)
    requires Inv(p) && Step(p, e).Some? && !e.Submit? && !e.Stop?
    ensures Inv(Step(p, e).value)
  {
    hide NoLostWakeup, Conserved, BusyCount;
    WorkerKeepsDrained(p, e);
    WorkerIsCounted(p, e);
    OneWorkerSteps(p, e);
    if e.Check? {
      CheckKeepsWakeups(p, e.w);
      CheckConserves(p, e.w);
    } else {
      WorkKeepsWakeups(p, e);
      WorkConserves(p, e);
    }
    hide Step;
  }

  lemma WorkerKeepsDrained(p: Pool, e: Event)
    requires ExitsDrained(p) && Step(p, e).Some? && !e.Submit? && !e.Stop?
    ensures ExitsDrained(Step(p, e).value)
  {
    OneWorkerSteps(p, e);
  }

  lemma StepKeepsSize(p: Pool, e: Event)
    requires Step(p, e).Some?
    ensures var p' := Step(p, e).value; |p'.workers| == |p.workers| && p'.queue.capacity == p.queue.capacity
  {
  }

  lemma StepKeepsInv(p: Pool, e: Event)
    requires Inv(p) && Step(p, e).Some?
    ensures Inv(Step(p, e).value)
  {
    hide Inv, Step;
    match e
    case Submit(fd, wake) => SubmitKeepsInv(p, fd, wake);
    case Stop => StopKeepsInv(p);
    case _ => WorkerKeepsInv(p, e);
  }

  /** Every reachable state satisfies the invariant. */
  lemma {:induction false} RunKeepsInv(workers: nat, capacity: nat, run: seq<Pool>, events: seq<Event>, n: nat)
    requires IsRun(workers, capacity, run, events) && n < |run|
    ensures Inv(run[n]) && |run[n].workers| == workers && run[n].queue.capacity == capacity
  {
    hide Inv, Step;
    if n == 0 {
      StartIsOk(workers, capacity);
    } else {
      RunKeepsInv(workers, capacity, run, events, n - 1);
      assert Step(run[n - 1], events[n - 1]) == Some(run[n - 1 + 1]);
      StepKeepsInv(run[n - 1], events[n - 1]);
      StepKeepsSize(run[n - 1], events[n - 1]);
    }
  }

  // ---- the theorems ---------------------------------------------------------------------

  /** The worker can take a step of its own, without being woken first. */
  predicate Active(worker: Worker) {
    !worker.Asleep? && !worker.Exited?
  }

  function OwnStep(worker: Worker, w: nat): (event: Event)
    requires Active(worker)
  {
    match worker
    case Holding(_) => Begin(w)
    case Running(_) => Return(w)
    case Finishing => End(w)
    case _ => Check(w)
  }

  lemma ActiveCanStep(p: Pool, w: nat)
    requires w < |p.workers| && Active(p.workers[w])
    ensures Step(p, OwnStep(p.workers[w], w)).Some?
  {
  }

  /** No lost wake-up: jobs never sit in the queue with every worker asleep. */
  lemma QueuedJobsHaveAWorker(workers: nat, capacity: nat, run: seq<Pool>, events: seq<Event>, n: nat)
    requires IsRun(workers, capacity, run, events) && n < |run| && workers > 0
    requires run[n].queue.fds != []
    ensures exists w :: 0 <= w < |run[n].workers| && Active(run[n].workers[w])
  {
    RunKeepsInv(workers, capacity, run, events, n);
    var p := run[n];
    assert p.workers[0].Asleep? || p.workers[0].Exited? || Active(p.workers[0]);
    if forall w :: 0 <= w < |p.workers| ==> !Active(p.workers[w]) {
      NoneWoken(p.workers);
    }
  }

  /** Exactly once and in order: the jobs taken are a prefix of the jobs accepted, the
      rest are queued, and each job taken is with one worker or handled. */
  lemma JobsAreConserved(workers: nat, capacity: nat, run: seq<Pool>, events: seq<Event>, n: nat)
    requires IsRun(workers, capacity, run, events) && n < |run|
    ensures run[n].popped <= run[n].accepted && run[n].accepted[|run[n].popped|..] == run[n].queue.fds
    ensures multiset(run[n].accepted) == multiset(run[n].queue.fds) + Held(run[n].workers) + multiset(run[n].handled)
    ensures |run[n].queue.fds| <= capacity
  {
    hide Held;
    RunKeepsInv(workers, capacity, run, events, n);
  }

  /** The busy count is the number of workers in a handler region, between none and all. */
  lemma BusyIsBounded(workers: nat, capacity: nat, run: seq<Pool>, events: seq<Event>, n: nat)
    requires IsRun(workers, capacity, run, events) && n < |run|
    ensures 0 <= run[n].active == BusyCount(run[n].workers) <= workers
  {
    RunKeepsInv(workers, capacity, run, events, n);
  }

  /** Once every worker has exited, as `thread_pool_shutdown` waits for, every accepted
      job has been handled exactly once. */
  lemma ShutdownDrains(workers: nat, capacity: nat, run: seq<Pool>, events: seq<Event>, n: nat)
    requires IsRun(workers, capacity, run, events) && n < |run| && workers > 0
    requires forall w :: 0 <= w < |run[n].workers| ==> run[n].workers[w].Exited?
    ensures run[n].queue.fds == [] && run[n].queue.shuttingDown && run[n].active == 0
    ensures multiset(run[n].handled) == multiset(run[n].accepted)
  {
    RunKeepsInv(workers, capacity, run, events, n);
    var p := run[n];
    assert p.workers[0].Exited?;
    NoneHeld(p.workers);
    AllExited(p.workers);
    assert p.accepted == p.popped;
  }

  lemma {:induction false} AllExited(workers: seq<Worker>)
    requires forall i :: 0 <= i < |workers| ==> workers[i].Exited?
    ensures BusyCount(workers) == 0
  {
    if workers != [] {
      AllExited(workers[..|workers| - 1]);
    }
  }

  /** After shutdown every worker that has not exited can step. */
  lemma ShutdownIsNotStuck(workers: nat, capacity: nat, run: seq<Pool>, events: seq<Event>, n: nat, w: nat)
    requires IsRun(workers, capacity, run, events) && n < |run| && run[n].queue.shuttingDown
    requires w < |run[n].workers| && !run[n].workers[w].Exited?
    ensures Active(run[n].workers[w]) && Step(run[n], OwnStep(run[n].workers[w], w)).Some?
  {
    RunKeepsInv(workers, capacity, run, events, n);
    ActiveCanStep(run[n], w);
  }

  function Rank(worker: Worker): (n: nat) {
    match worker
    case Exited => 0
    case AtPop => 1
    case Woken => 1
    case Asleep => 2
    case Finishing => 2
    case Running(_) => 3
    case Holding(_) => 4
  }

  function Ranks(workers: seq<Worker>): (n: nat) {
    if workers == [] then 0 else Ranks(workers[..|workers| - 1]) + Rank(workers[|workers| - 1])
  }

  /** What is left to do after shutdown. */
  function WorkLeft(p: Pool): (n: nat) {
    4 * |p.queue.fds| + Ranks(p.workers)
  }

  lemma {:induction false} PutRank(workers: seq<Worker>, w: nat, worker: Worker)
    requires w < |workers|
    ensures Ranks(workers[w := worker]) == Ranks(workers) - Rank(workers[w]) + Rank(worker)
  {
    var n := |workers| - 1;
    if w < n {
      PutRank(workers[..n], w, worker);
      assert workers[w := worker][..n] == workers[..n][w := worker];
    } else {
      assert workers[w := worker][..n] == workers[..n];
    }
  }

  /** After shutdown every step of a worker leaves less to do, and nothing else adds
      work: with `ShutdownIsNotStuck`, all workers exit after finitely many steps. */
  lemma ShutdownMakesProgress(workers: nat, capacity: nat, run: seq<Pool>, events: seq<Event>, n: nat)
    requires IsRun(workers, capacity, run, events) && n < |events| && run[n].queue.shuttingDown
    ensures run[n + 1].queue.shuttingDown
    ensures if events[n].Submit? || events[n].Stop? then WorkLeft(run[n + 1]) == WorkLeft(run[n])
            else WorkLeft(run[n + 1]) < WorkLeft(run[n])
  {
    hide Ranks, Inv, WokenCount, BusyCount, Held;
    var p, e := run[n], events[n];
    NoSleepersLeft(workers, capacity, run, events, n);
    assert Step(p, e) == Some(run[n + 1]);
    if e.Stop? {
      assert Sleepers(p.workers) == {};
      assert Released(p.workers, {}) == p.workers;
    } else if !e.Submit? {
      OneWorkerSteps(p, e);
      PutRank(p.workers, e.w, run[n + 1].workers[e.w]);
    }
  }

  lemma NoSleepersLeft(workers: nat, capacity: nat, run: seq<Pool>, events: seq<Event>, n: nat)
    requires IsRun(workers, capacity, run, events) && n < |run| && run[n].queue.shuttingDown
    ensures forall i :: 0 <= i < |run[n].workers| ==> !run[n].workers[i].Asleep?
  {
    RunKeepsInv(workers, capacity, run, events, n);
  }

  /** The steps that workers take. */
  function WorkerSteps(events: seq<Event>): (n: nat) {
    if events == [] then 0
    else
      var last := events[|events| - 1];
      WorkerSteps(events[..|events| - 1]) + (if last.Submit? || last.Stop? then 0 else 1)
  }

  /** After shutdown the workers take no more steps than there is work left. */
  lemma {:induction false} ShutdownIsBounded(workers: nat, capacity: nat, run: seq<Pool>, events: seq<Event>, n: nat,
                                             m: nat)
    requires IsRun(workers, capacity, run, events) && n <= m < |run| && run[n].queue.shuttingDown
    ensures run[m].queue.shuttingDown
    ensures WorkerSteps(events[n..m]) + WorkLeft(run[m]) <= WorkLeft(run[n])
    decreases m - n
  {
    hide Step, WorkLeft;
    if n < m {
      ShutdownIsBounded(workers, capacity, run, events, n, m - 1);
      LastStepLeft(workers, capacity, run, events, n, m);
    } else {
      assert events[n..m] == [];
    }
  }

  lemma LastStepLeft(workers: nat, capacity: nat, run: seq<Pool>, events: seq<Event>, n: nat, m: nat)
    requires IsRun(workers, capacity, run, events) && n < m < |run| && run[m - 1].queue.shuttingDown
    ensures run[m].queue.shuttingDown
    ensures WorkerSteps(events[n..m]) + WorkLeft(run[m]) <= WorkerSteps(events[n..m - 1]) + WorkLeft(run[m - 1])
  {
    ShutdownMakesProgress(workers, capacity, run, events, m - 1);
    assert run[m - 1 + 1] == run[m];
    hide IsRun, WorkLeft;
    assert events[n..m][..m - n - 1] == events[n..m - 1] && events[n..m][m - n - 1] == events[m - 1];
  }

  /** A run ends after shutdown only when every worker has exited. */
  lemma ShutdownEndsDrained(workers: nat, capacity: nat, run: seq<Pool>, events: seq<Event>, n: nat)
    requires IsRun(workers, capacity, run, events) && n < |run| && workers > 0 && run[n].queue.shuttingDown
    requires forall w :: 0 <= w < |run[n].workers| && Active(run[n].workers[w]) ==>
               Step(run[n], OwnStep(run[n].workers[w], w)).None?
    ensures forall w :: 0 <= w < |run[n].workers| ==> run[n].workers[w].Exited?
    ensures run[n].queue.fds == [] && multiset(run[n].handled) == multiset(run[n].accepted)
  {
    hide Step, OwnStep, IsRun;
    forall w | 0 <= w < |run[n].workers| ensures run[n].workers[w].Exited? {
      if !run[n].workers[w].Exited? {
        ShutdownIsNotStuck(workers, capacity, run, events, n, w);
      }
    }
    ShutdownDrains(workers, capacity, run, events, n);
  }

  // ---- the pool object ---------------------------------------------------------------------

  datatype Stats = Stats(workerCount: int, busyWorkerCount: int, idleWorkerCount: int,
                         queueLength: int, queueCapacity: int, availableQueueSlots: int)

  /** `thread_pool_get_stats`: the counters fit together. */
  function StatsOf(p: Pool): (stats: Stats) {
    Stats(|p.workers|, p.active, |p.workers| - p.active, |p.queue.fds|, p.queue.capacity,
      p.queue.capacity - |p.queue.fds|)
  }

  lemma StatsAreConsistent(workers: nat, capacity: nat, run: seq<Pool>, events: seq<Event>, n: nat)
    requires IsRun(workers, capacity, run, events) && n < |run|
    ensures var stats := StatsOf(run[n]);
            && stats.busyWorkerCount >= 0 && stats.idleWorkerCount >= 0 && stats.availableQueueSlots >= 0
            && stats.busyWorkerCount + stats.idleWorkerCount == workers
            && stats.queueLength + stats.availableQueueSlots == capacity
  {
    RunKeepsInv(workers, capacity, run, events, n);
  }

  /** The workers inside the handler or just back from it. */
  function InHandler(workers: seq<Worker>): (members: set<nat>) {
    set w: nat | w < |workers| && (workers[w].Running? || workers[w].Finishing?)
  }

  lemma {:induction false} BusyCountIsSize(workers: seq<Worker>)
    ensures BusyCount(workers) == |InHandler(workers)|
  {
    if workers != [] {
      var n := |workers| - 1;
      BusyCountIsSize(workers[..n]);
      assert InHandler(workers) == InHandler(workers[..n]) + if Busy(workers[n]) then {n} else {};
    } else {
      assert InHandler(workers) == {};
    }
  }

  /** What the statistics say in every reachable state: how many workers are inside the
      handler and how many are not, how many accepted jobs nobody has taken, and how many
      more would be accepted. */
  lemma StatsMean(workers: nat, capacity: nat, run: seq<Pool>, events: seq<Event>, n: nat)
    requires IsRun(workers, capacity, run, events) && n < |run|
    ensures var stats, p := StatsOf(run[n]), run[n];
            && stats.workerCount == workers == |p.workers| && stats.queueCapacity == capacity
            && stats.busyWorkerCount == |InHandler(p.workers)|
            && stats.idleWorkerCount == workers - |InHandler(p.workers)|
            && stats.queueLength == |p.accepted| - |p.popped|
            && stats.availableQueueSlots == capacity - (|p.accepted| - |p.popped|)
  {
    RunKeepsInv(workers, capacity, run, events, n);
    BusyCountIsSize(run[n].workers);
    hide InHandler, BusyCount;
  }

  /** Before shutdown a submit is accepted exactly while free slots are reported, and after
      it never. */
  lemma AcceptedExactly(workers: nat, capacity: nat, run: seq<Pool>, events: seq<Event>, n: nat, fd: int,
                        wake: set<nat>)
    requires IsRun(workers, capacity, run, events) && n < |run| && Step(run[n], Submit(fd, wake)).Some?
    ensures var p' := Step(run[n], Submit(fd, wake)).value;
            if !run[n].queue.shuttingDown && StatsOf(run[n]).availableQueueSlots > 0
            then p'.accepted == run[n].accepted + [fd]
            else p' == run[n]
  {
    RunKeepsInv(workers, capacity, run, events, n);
  }

  /** Which workers a submit wakes: nobody when it is refused, and otherwise any set of
      sleepers that is not empty if somebody sleeps; each of them stops sleeping and no other
      worker changes. */
  lemma SubmitWakes(p: Pool, fd: int, wake: set<nat>)
    ensures Step(p, Submit(fd, wake)).Some? <==>
            || p.queue.shuttingDown || |p.queue.fds| >= p.queue.capacity
            || (&& (forall w :: w in wake ==> w < |p.workers| && p.workers[w].Asleep?)
                && ((exists w :: 0 <= w < |p.workers| && p.workers[w].Asleep?) ==> wake != {}))
    ensures Step(p, Submit(fd, wake)).Some? ==>
              var p' := Step(p, Submit(fd, wake)).value;
              if p.queue.shuttingDown || |p.queue.fds| >= p.queue.capacity then p' == p
              else |p'.workers| == |p.workers|
                   && forall w :: 0 <= w < |p.workers| ==> p'.workers[w] == if w in wake then Woken else p.workers[w]
  {
    assert forall w: nat :: w in Sleepers(p.workers) <==> w < |p.workers| && p.workers[w].Asleep?;
  }

  /** A sleeper can wake at any time without a signal. What it then does depends on the
      queue alone: it goes back to sleep, with nothing changed, exactly when nothing is
      queued and no shutdown has begun. */
  lemma SpuriousWakeIsHarmless(p: Pool, w: nat)
    requires w < |p.workers| && p.workers[w].Asleep?
    ensures Step(p, SpuriousWake(w)).Some? && Step(Step(p, SpuriousWake(w)).value, Check(w)).Some?
    ensures var p' := Step(Step(p, SpuriousWake(w)).value, Check(w)).value;
            && (p' == p <==> p.queue.fds == [] && !p.queue.shuttingDown)
            && (p.queue.fds != [] ==> p'.popped == p.popped + [p.queue.fds[0]])
            && (p.queue.fds == [] && p.queue.shuttingDown ==> p'.workers[w] == Exited)
  {
    assert p.workers[w := Woken][w := Asleep] == p.workers;
  }

  /** The pool's own fields; each method is one region under the queue's mutex. */
  class ThreadPool {
    const queue: JobQueue
    const workerCount: nat
    var activeWorkerCount: int

    ghost predicate Valid()
      reads this, queue
    {
      queue.Valid()
    }

    /** The object holds the shared part of a state of the machine. */
    ghost predicate Shows(p: Pool)
      requires Valid()
      reads this, queue, queue.clientFds
    {
      queue.Abs() == p.queue && activeWorkerCount == p.active && workerCount == |p.workers|
    }

    constructor (workers: nat, capacity: nat)
      requires workers > 0 && capacity > 0
      ensures Valid() && fresh(queue) && fresh(queue.clientFds) && Shows(Start(workers, capacity))
    {
      queue := new JobQueue(capacity);
      workerCount, activeWorkerCount := workers, 0;
    }

    /** `thread_pool_submit`. */
    method Submit(fd: int, ghost p: Pool, ghost wake: set<nat>) returns (ok: bool)
      requires Valid() && Shows(p) && Step(p, Event.Submit(fd, wake)).Some?
      modifies queue, queue.clientFds
      ensures Valid() && Shows(Step(p, Event.Submit(fd, wake)).value)
      ensures ok == (|Step(p, Event.Submit(fd, wake)).value.accepted| > |p.accepted|)
    {
      ok := queue.Push(fd);
    }

    /** One pass of `queue_pop` by worker `w`. */
    method CheckQueue(ghost p: Pool, ghost w: nat) returns (outcome: PopOutcome)
      requires Valid() && Shows(p) && Step(p, Check(w)).Some?
      modifies queue
      ensures Valid() && Shows(Step(p, Check(w)).value)
      ensures Step(p, Check(w)).value.workers[w]
              == match outcome { case MustWait => Asleep case Closed => Exited case Got(fd) => Holding(fd) }
    {
      outcome := queue.TryPop();
    }

    /** The first locked region of the worker loop. */
    method JobStarted(ghost p: Pool, ghost w: nat)
      requires Valid() && Shows(p) && Step(p, Begin(w)).Some?
      modifies `activeWorkerCount
      ensures Valid() && Shows(Step(p, Begin(w)).value)
    {
      activeWorkerCount := activeWorkerCount + 1;
    }

    /** The second locked region of the worker loop. */
    method JobEnded(ghost p: Pool, ghost w: nat)
      requires Valid() && Shows(p) && Step(p, End(w)).Some?
      modifies `activeWorkerCount
      ensures Valid() && Shows(Step(p, End(w)).value)
    {
      activeWorkerCount := activeWorkerCount - 1;
    }

    method GetStats(ghost p: Pool) returns (stats: Stats)
      requires Valid() && Shows(p)
      ensures stats == StatsOf(p)
    {
      stats := Stats(workerCount, activeWorkerCount, workerCount - activeWorkerCount,
                     queue.count, queue.capacity, queue.capacity - queue.count);
    }

    /** The locked region of `thread_pool_shutdown`; joining the workers follows. */
    method Shutdown(ghost p: Pool)
      requires Valid() && Shows(p)
      modifies queue
      ensures Valid() && Shows(Step(p, Stop).value)
    {
      queue.Shutdown();
    }
  }
}
