/**
 The bounded worker pool inside the message processor: a queue, a set of active
 tasks and a pump that runs on setImmediate and whenever a task settles.
 */
module WorkerPool {

  // accepted and started record every job taken in and every job handed to a worker, in the
  // order in which that happened; a task is known by its position in started.
  datatype Pool<T> = Pool(
    concurrency: nat, buffer: nat, accepted: seq<T>, started: seq<T>, pending: seq<T>, active: set<nat>,
    pumpScheduled: bool)

  datatype Event<T> =
    | Submit(job: T)
    | Fire             // the setImmediate callback
    | Settle(task: nat)

  ghost predicate Inv<T>(p: Pool<T>) {
    && InOrder(p) && Bounded(p)
    && (p.pending != [] ==> p.pumpScheduled || |p.active| == p.concurrency)
  }

  // The accepted jobs are those started and those pending, each once and in order.
  ghost predicate InOrder<T>(p: Pool<T>) {
    p.accepted == p.started + p.pending && forall task :: task in p.active ==> task < |p.started|
  }

  ghost predicate Bounded<T>(p: Pool<T>) {
    && 1 <= p.concurrency <= p.buffer
    && |p.active| <= p.concurrency
    && |p.pending| + |p.active| <= p.buffer
  }

  predicate Full<T>(p: Pool<T>) {
    |p.pending| + |p.active| >= p.buffer
  }

  function Tasks(lo: nat, hi: nat): (tasks: set<nat>)
    requires lo <= hi
    ensures forall t :: t in tasks <==> lo <= t < hi
    ensures |tasks| == hi - lo
    decreases hi
  {
    if lo == hi then {} else Tasks(lo, hi - 1) + {hi - 1}
  }

  // How many jobs pumping starts: as many as there are free workers.
  function Startable<T>(p: Pool<T>): (n: nat)
    ensures n <= |p.pending|
  {
    var free := if |p.active| < p.concurrency then p.concurrency - |p.active| else 0;
    if |p.pending| <= free then |p.pending| else free
  }

  // The n oldest pending jobs become tasks.
  function Start<T>(p: Pool<T>, n: nat): Pool<T>
    requires n <= |p.pending|
  {
    p.(started := p.started + p.pending[..n], pending := p.pending[n..],
       active := p.active + Tasks(|p.started|, |p.started| + n))
  }

  function Pumped<T>(p: Pool<T>): Pool<T> { Start(p, Startable(p)) }

  ghost predicate Enabled<T>(p: Pool<T>, e: Event<T>) {
    match e
    case Submit(_) => true
    case Fire => p.pumpScheduled
    case Settle(task) => task in p.active
  }

  function Next<T>(p: Pool<T>, e: Event<T>): Pool<T> {
    match e
    case Submit(job) =>
      if Full(p) then p else p.(accepted := p.accepted + [job], pending := p.pending + [job], pumpScheduled := true)
    case Fire => Pumped(p.(pumpScheduled := false))
    case Settle(task) => Pumped(p.(active := p.active - {task}))
  }

  // After pumping, either nothing is pending or every worker is busy.
  lemma PumpedIsBusy<T>(p: Pool<T>)
    requires InOrder(p) && |p.active| <= p.concurrency
    ensures InOrder(Pumped(p)) && |Pumped(p).active| <= p.concurrency
    ensures |Pumped(p).active| - |p.active| == |p.pending| - |Pumped(p).pending| >= 0
    ensures Pumped(p).pending != [] ==> |Pumped(p).active| == p.concurrency
  {
    var q, n := Pumped(p), Startable(p);
    assert p.active !! Tasks(|p.started|, |p.started| + n);
    assert p.pending == p.pending[..n] + p.pending[n..];
  }

  // The oldest pending job becomes a task.
  function OldestStarted<T>(p: Pool<T>): Pool<T>
    requires p.pending != []
  {
    p.(started := p.started + [p.pending[0]], pending := p.pending[1..], active := p.active + {|p.started|})
  }

  // Pumping can start with the oldest pending job.
  lemma PumpOne<T>(p: Pool<T>)
    requires InOrder(p) && p.pending != [] && |p.active| < p.concurrency
    ensures InOrder(OldestStarted(p)) && |OldestStarted(p).active| == |p.active| + 1
    ensures Pumped(p) == Pumped(OldestStarted(p))
  {
    hide Tasks, InOrder, Startable, Start;
    OldestInOrder(p);
    StartTwice(p, Startable(p));
  }

  lemma StartTwice<T>(p: Pool<T>, n: nat)
    requires 1 <= n <= |p.pending|
    ensures Start(p, n) == Start(OldestStarted(p), n - 1)
  {
    hide Tasks;
    HeadFirst(p.started, p.pending, n);
    TasksFrom(p.active, |p.started|, |p.started| + n);
  }

  lemma OldestInOrder<T>(p: Pool<T>)
    requires InOrder(p) && p.pending != [] && |p.active| < p.concurrency
    ensures InOrder(OldestStarted(p)) && |OldestStarted(p).active| == |p.active| + 1
    ensures Startable(p) == Startable(OldestStarted(p)) + 1
  {
    assert |p.started| !in p.active;
    assert p.pending == [p.pending[0]] + p.pending[1..];
  }

  lemma HeadFirst<T>(done: seq<T>, todo: seq<T>, n: nat)
    requires 1 <= n <= |todo|
    ensures done + todo[..n] == done + [todo[0]] + todo[1..][..n - 1] && todo[n..] == todo[1..][n - 1..]
  {
  }

  lemma TasksFrom(active: set<nat>, lo: nat, hi: nat)
    requires lo < hi
    ensures active + Tasks(lo, hi) == (active + {lo}) + Tasks(lo + 1, hi)
  {
    hide Tasks;
  }

  lemma PumpNone<T>(p: Pool<T>)
    requires p.pending == [] || |p.active| >= p.concurrency
    ensures Pumped(p) == p
  {
    assert p.active + Tasks(|p.started|, |p.started|) == p.active;
  }

  lemma StepKeepsInv<T>(p: Pool<T>, e: Event<T>)
    requires Inv(p) && Enabled(p, e)
    ensures Inv(Next(p, e))
  {
    match e
    case Submit(job) =>
    case Fire => PumpedIsBusy(p.(pumpScheduled := false));
    case Settle(task) => PumpedIsBusy(p.(active := p.active - {task}));
  }

  // ---------------------------------------------------------------- whole runs

  ghost predicate IsRun<T>(p: Pool<T>, events: seq<Event<T>>, q: Pool<T>)
    decreases |events|
  {
    if events == [] then p == q else Enabled(p, events[0]) && IsRun(Next(p, events[0]), events[1..], q)
  }

  // Along every run the bounds hold, and jobs are started in the order in which they were
  // accepted, none dropped and none twice; what was accepted or started stays so.
  lemma {:induction false} RunKeepsInv<T>(p: Pool<T>, events: seq<Event<T>>, q: Pool<T>)
    requires Inv(p) && IsRun(p, events, q)
    ensures Inv(q)
    ensures q.started == q.accepted[..|q.started|] && q.pending == q.accepted[|q.started|..]
    ensures p.accepted <= q.accepted && p.started <= q.started
    decreases |events|
  {
    if events != [] {
      StepKeepsInv(p, events[0]);
      assert p.accepted <= Next(p, events[0]).accepted && p.started <= Next(p, events[0]).started;
      RunKeepsInv(Next(p, events[0]), events[1..], q);
    }
  }

  // Work still to be done, counting a scheduled pump as half a unit.
  function Remaining<T>(p: Pool<T>): nat {
    2 * (|p.pending| + |p.active|) + if p.pumpScheduled then 1 else 0
  }

  // Every callback makes progress, and when none is left every accepted job has been started
  // and has settled.
  lemma NothingIsStranded<T>(p: Pool<T>, e: Event<T>)
    requires Inv(p)
    ensures Enabled(p, e) && !e.Submit? ==> Remaining(Next(p, e)) < Remaining(p)
    ensures !p.pumpScheduled && p.active == {} ==> p.started == p.accepted
  {
    if Enabled(p, e) {
      match e
      case Submit(_) =>
      case Fire => PumpedIsBusy(p.(pumpScheduled := false));
      case Settle(task) => PumpedIsBusy(p.(active := p.active - {task}));
    }
  }

  // Without new submissions a run has at most Remaining(p) events.
  lemma {:induction false} DrainIsBounded<T>(p: Pool<T>, events: seq<Event<T>>, q: Pool<T>)
    requires Inv(p) && IsRun(p, events, q)
    requires forall i :: 0 <= i < |events| ==> !events[i].Submit?
    ensures |events| <= Remaining(p)
    decreases |events|
  {
    if events != [] {
      NothingIsStranded(p, events[0]);
      StepKeepsInv(p, events[0]);
      DrainIsBounded(Next(p, events[0]), events[1..], q);
    }
  }

  // ---------------------------------------------------------------- the processor's fields

  class MessageProcessor<T(==)> {
    const workerConcurrency: nat
    const maxBufferedJobs: nat
    var activeTasks: set<nat>
    var pendingQueue: seq<T>
    var pumpScheduled: bool
    var startedJobs: nat
    ghost var accepted: seq<T>
    ghost var started: seq<T>      // the jobs that execute was called with

    ghost function View(): Pool<T>
      reads this
    {
      Pool(workerConcurrency, maxBufferedJobs, accepted, started, pendingQueue, activeTasks, pumpScheduled)
    }

    ghost predicate Valid()
      reads this
    {
      Inv(View()) && startedJobs == |started|
    }

    constructor (concurrency: nat)
      requires 1 <= concurrency <= 16
      ensures Valid() && View() == Pool(concurrency, if concurrency * 250 > 1_000 then concurrency * 250 else 1_000,
                                        [], [], [], {}, false)
    {
      workerConcurrency := concurrency;
      maxBufferedJobs := if concurrency * 250 > 1_000 then concurrency * 250 else 1_000;
      activeTasks, pendingQueue, pumpScheduled := {}, [], false;
      accepted, started, startedJobs := [], [], 0;
    }

    method QueueWork(job: T) returns (queued: bool)
      requires Valid()
      modifies this
      ensures Valid() && View() == Next(old(View()), Submit(job))
      ensures queued <==> !Full(old(View()))
    {
      StepKeepsInv(View(), Submit(job));
      if |pendingQueue| + |activeTasks| >= maxBufferedJobs {
        return false;
      }
      pendingQueue := pendingQueue + [job];
      accepted := accepted + [job];
      SchedulePump();
      return true;
    }

    method SchedulePump()
      modifies this`pumpScheduled
      ensures pumpScheduled
    {
      if pumpScheduled {
        return;
      }
      pumpScheduled := true;
    }

    method FirePump()
      requires Valid() && pumpScheduled
      modifies this
      ensures Valid() && View() == Next(old(View()), Fire)
    {
      StepKeepsInv(View(), Fire);
      pumpScheduled := false;
      Pump();
    }

    method TaskSettled(task: nat)
      requires Valid() && task in activeTasks
      modifies this
      ensures Valid() && View() == Next(old(View()), Settle(task))
    {
      StepKeepsInv(View(), Settle(task));
      activeTasks := activeTasks - {task};
      Pump();
    }

    method Pump()
      requires InOrder(View()) && startedJobs == |started| && |activeTasks| <= workerConcurrency
      modifies this
      ensures View() == Pumped(old(View())) && startedJobs == |started|
    {
      hide Pumped;
      while |activeTasks| < workerConcurrency && pendingQueue != []
        invariant InOrder(View()) && startedJobs == |started| && |activeTasks| <= workerConcurrency
        invariant Pumped(View()) == Pumped(old(View()))
        decreases |pendingQueue|
      {
        PumpOne(View());
        var work := pendingQueue[0];
        pendingQueue := pendingQueue[1..];
        Execute(work);
      }
      PumpNone(View());
    }

    // A worker starts on the job.
    method Execute(work: T)
      requires startedJobs == |started|
      modifies this`activeTasks, this`startedJobs, this`started
      ensures started == old(started) + [work] && activeTasks == old(activeTasks) + {old(startedJobs)}
      ensures startedJobs == |started|
    {
      activeTasks := activeTasks + {startedJobs};
      startedJobs := startedJobs + 1;
      started := started + [work];
    }
  }
}
