/** The thread pool (lib/util/thread_pool.cpp) as a system of atomic steps: what runs under the
    mutex is one step, and so is each call on the condition variable. */
module ThreadPool {
  import opened Wrappers

  /** Where a worker is: about to take the mutex in `WorkerDequeue`, blocked in `wait`, running a
      task, or gone. */
  datatype Worker<+T> = Ready | Waiting | Running(task: T) | Exited

  /** `Shutdown`: not called, `should_quit_` set, `notify_all` called. */
  datatype Shutdown = Open | Announced | Notified

  /** `notifies` counts the `Enqueue` calls that have pushed but not notified yet. The histories
      list what was pushed, taken and finished (normally or by an exception). */
  datatype Pool<T> = Pool(
    queue: seq<T>, shouldQuit: bool, workers: seq<Worker<T>>, notifies: nat, shutdown: Shutdown,
    pushed: seq<T>, taken: seq<T>, finished: seq<T>)

  datatype Step<T> =
    | Push(task: T)
    | NotifyOne(woken: Option<nat>)
    | SpuriousWakeup(worker: nat)
    | Dequeue(worker: nat)
    | TaskEnds(worker: nat)
    | SetQuit
    | NotifyAll

  function Initial<T>(n: nat): Pool<T> {
    Pool([], false, seq(n, _ => Ready), 0, Open, [], [], [])
  }

  predicate NoneWaiting<T>(ws: seq<Worker<T>>) { forall k :: 0 <= k < |ws| ==> !ws[k].Waiting? }

  predicate AllWaiting<T>(ws: seq<Worker<T>>) { forall k :: 0 <= k < |ws| ==> ws[k].Waiting? }

  predicate Enabled<T>(p: Pool<T>, s: Step<T>) {
    match s
    case Push(_) => true
    case NotifyOne(None) => p.notifies > 0 && NoneWaiting(p.workers)
    case NotifyOne(Some(k)) => p.notifies > 0 && k < |p.workers| && p.workers[k].Waiting?
    case SpuriousWakeup(k) => k < |p.workers| && p.workers[k].Waiting?
    case Dequeue(k) => k < |p.workers| && p.workers[k].Ready?
    case TaskEnds(k) => k < |p.workers| && p.workers[k].Running?
    case SetQuit => p.shutdown == Open
    case NotifyAll => p.shutdown == Announced
  }

  function WakeAll<T>(ws: seq<Worker<T>>): (r: seq<Worker<T>>)
    ensures |r| == |ws| && NoneWaiting(r)
    ensures forall k :: 0 <= k < |ws| && !ws[k].Waiting? ==> r[k] == ws[k]
    ensures forall k :: 0 <= k < |ws| && ws[k].Waiting? ==> r[k] == Ready
  {
    seq(|ws|, k requires 0 <= k < |ws| => if ws[k].Waiting? then Ready else ws[k])
  }

  function Apply<T>(p: Pool<T>, s: Step<T>): Pool<T>
    requires Enabled(p, s)
  {
    match s
    case Push(t) => p.(queue := p.queue + [t], notifies := p.notifies + 1, pushed := p.pushed + [t])
    case NotifyOne(None) => p.(notifies := p.notifies - 1)
    case NotifyOne(Some(k)) => p.(notifies := p.notifies - 1, workers := p.workers[k := Ready])
    case SpuriousWakeup(k) => p.(workers := p.workers[k := Ready])
    case Dequeue(k) =>
      if p.shouldQuit then p.(workers := p.workers[k := Exited])
      else if p.queue == [] then p.(workers := p.workers[k := Waiting])
      else p.(queue := p.queue[1..], workers := p.workers[k := Running(p.queue[0])], taken := p.taken + [p.queue[0]])
    case TaskEnds(k) =>
      p.(workers := p.workers[k := Ready], finished := p.finished + [p.workers[k].task])
    case SetQuit => p.(shouldQuit := true, shutdown := Announced)
    case NotifyAll => p.(workers := WakeAll(p.workers), shutdown := Notified)
  }

  predicate CanRun<T>(p: Pool<T>, steps: seq<Step<T>>)
    decreases |steps|
  {
    steps == [] || (Enabled(p, steps[0]) && CanRun(Apply(p, steps[0]), steps[1..]))
  }

  function Run<T>(p: Pool<T>, steps: seq<Step<T>>): Pool<T>
    requires CanRun(p, steps)
    decreases |steps|
  {
    if steps == [] then p else Run(Apply(p, steps[0]), steps[1..])
  }

  // ---------------------------------------------------------------- what every state keeps

  function TaskOf<T(==)>(w: Worker<T>): multiset<T> {
    if w.Running? then multiset{w.task} else multiset{}
  }

  function RunningTasks<T(==)>(ws: seq<Worker<T>>): multiset<T> {
    if ws == [] then multiset{}
    else RunningTasks(ws[..|ws| - 1]) + TaskOf(ws[|ws| - 1])
  }

  /** Every task taken is being run or has been run, once. */
  ghost predicate Accounted<T>(p: Pool<T>) {
    multiset(p.taken) == multiset(p.finished) + RunningTasks(p.workers)
  }

  ghost predicate Orderly<T>(p: Pool<T>) {
    // first in, first out, each at most once
    && p.pushed == p.taken + p.queue
    // no lost wakeup
    && (!p.shouldQuit && p.workers != [] && AllWaiting(p.workers) ==> |p.queue| <= p.notifies)
    // shutting down
    && (p.shouldQuit <==> p.shutdown != Open)
    && (p.shutdown == Notified ==> NoneWaiting(p.workers))
    && (!p.shouldQuit ==> forall k :: 0 <= k < |p.workers| ==> !p.workers[k].Exited?)
  }

  ghost predicate Inv<T>(p: Pool<T>) { Orderly(p) && Accounted(p) }

  lemma Exchange<T>(a: multiset<T>, x: multiset<T>, b: multiset<T>, y: multiset<T>, c: multiset<T>)
    requires a + x == b + y
    ensures (a + c) + x == (b + c) + y
  {
    assert (a + c) + x == (a + x) + c && (b + c) + y == (b + y) + c;
  }

  lemma RunningLast<T>(ws: seq<Worker<T>>)
    requires ws != []
    ensures RunningTasks(ws) == RunningTasks(ws[..|ws| - 1]) + TaskOf(ws[|ws| - 1])
  {}

  lemma {:induction false} RunningUpdate<T>(ws: seq<Worker<T>>, k: nat, w: Worker<T>)
    requires k < |ws|
    ensures RunningTasks(ws[k := w]) + TaskOf(ws[k]) == RunningTasks(ws) + TaskOf(w)
  {
    hide RunningTasks, TaskOf;
    var n := |ws| - 1;
    RunningLast(ws);
    RunningLast(ws[k := w]);
    if k < n {
      RunningUpdate(ws[..n], k, w);
      assert ws[k := w][..n] == ws[..n][k := w];
      Exchange(RunningTasks(ws[..n][k := w]), TaskOf(ws[k]), RunningTasks(ws[..n]), TaskOf(w), TaskOf(ws[n]));
    } else {
      assert ws[k := w][..n] == ws[..n];
      Swap(RunningTasks(ws[..n]), TaskOf(w), TaskOf(ws[k]));
    }
  }

  lemma Swap<T>(a: multiset<T>, x: multiset<T>, y: multiset<T>)
    ensures (a + x) + y == (a + y) + x
  {}

  lemma Starts<T>(taken: multiset<T>, done: multiset<T>, before: multiset<T>, later: multiset<T>, x: multiset<T>)
    requires taken == done + before && later + multiset{} == before + x
    ensures taken + x == done + later
  {
    assert later + multiset{} == later;
    assert (done + before) + x == done + (before + x);
  }

  lemma Finishes<T>(taken: multiset<T>, done: multiset<T>, before: multiset<T>, later: multiset<T>, x: multiset<T>)
    requires taken == done + before && later + x == before + multiset{}
    ensures taken == (done + x) + later
  {
    assert before + multiset{} == before;
    assert (done + x) + later == done + (later + x);
  }

  lemma {:induction false} RunningSame<T>(ws: seq<Worker<T>>, vs: seq<Worker<T>>)
    requires |ws| == |vs| && forall k :: 0 <= k < |ws| ==> TaskOf(ws[k]) == TaskOf(vs[k])
    ensures RunningTasks(ws) == RunningTasks(vs)
  {
    if ws != [] {
      var n := |ws| - 1;
      RunningSame(ws[..n], vs[..n]);
      assert TaskOf(ws[n]) == TaskOf(vs[n]);
    }
  }

  lemma {:induction false} NothingRunning<T>(ws: seq<Worker<T>>)
    requires forall k :: 0 <= k < |ws| ==> !ws[k].Running?
    ensures RunningTasks(ws) == multiset{}
  {
    if ws != [] { NothingRunning(ws[..|ws| - 1]); }
  }

  lemma InitialInv<T>(n: nat)
    ensures Inv(Initial<T>(n))
  {
    NothingRunning(Initial<T>(n).workers);
  }

  lemma TakingAccounts<T>(p: Pool<T>, k: nat)
    requires Accounted(p) && Enabled(p, Step.Dequeue(k)) && !p.shouldQuit && p.queue != []
    ensures Accounted(Apply(p, Step.Dequeue(k)))
  {
    hide RunningTasks;
    var task, q := p.queue[0], Apply(p, Step.Dequeue(k));
    RunningUpdate(p.workers, k, Running(task));
    Starts(multiset(p.taken), multiset(p.finished), RunningTasks(p.workers), RunningTasks(q.workers), multiset{task});
    assert multiset(q.taken) == multiset(p.taken) + multiset{task};
  }

  lemma FinishingAccounts<T>(p: Pool<T>, k: nat)
    requires Accounted(p) && Enabled(p, Step.TaskEnds(k))
    ensures Accounted(Apply(p, Step.TaskEnds(k)))
  {
    hide RunningTasks;
    var task, q := p.workers[k].task, Apply(p, Step.TaskEnds(k));
    RunningUpdate(p.workers, k, Ready);
    Finishes(multiset(p.taken), multiset(p.finished), RunningTasks(p.workers), RunningTasks(q.workers), multiset{task});
    assert multiset(q.finished) == multiset(p.finished) + multiset{task};
  }

  /** The other steps leave every worker its task. */
  lemma TasksStay<T>(p: Pool<T>, s: Step<T>)
    requires Enabled(p, s) && !s.TaskEnds? && (s.Dequeue? ==> p.shouldQuit || p.queue == [])
    ensures var q := Apply(p, s);
            q.taken == p.taken && q.finished == p.finished && |q.workers| == |p.workers|
            && forall k :: 0 <= k < |p.workers| ==> TaskOf(p.workers[k]) == TaskOf(q.workers[k])
  {
    hide NoneWaiting;
  }

  lemma StepAccounts<T>(p: Pool<T>, s: Step<T>)
    requires Accounted(p) && Enabled(p, s)
    ensures Accounted(Apply(p, s))
  {
    hide RunningTasks, Apply;
    if s.TaskEnds? {
      FinishingAccounts(p, s.worker);
    } else if s.Dequeue? && !p.shouldQuit && p.queue != [] {
      TakingAccounts(p, s.worker);
    } else {
      TasksStay(p, s);
      RunningSame(p.workers, Apply(p, s).workers);
    }
  }

  lemma StepOrderly<T>(p: Pool<T>, s: Step<T>)
    requires Orderly(p) && Enabled(p, s)
    ensures Orderly(Apply(p, s))
  {
    var q := Apply(p, s);
    match s
    case Push(t) => assert q.pushed == p.taken + (p.queue + [t]);
    case Dequeue(k) =>
      if !p.shouldQuit && p.queue != [] { assert p.queue == [p.queue[0]] + p.queue[1..]; }
      assert q.workers[k] != p.workers[k];
    case TaskEnds(k) => assert !q.workers[k].Waiting?;
    case NotifyOne(Some(k)) => assert !q.workers[k].Waiting?;
    case NotifyOne(None) => assert p.workers != [] ==> !p.workers[0].Waiting?;
    case SpuriousWakeup(k) => assert !q.workers[k].Waiting?;
    case _ =>
  }

  lemma StepInv<T>(p: Pool<T>, s: Step<T>)
    requires Inv(p) && Enabled(p, s)
    ensures Inv(Apply(p, s))
  {
    StepAccounts(p, s);
    StepOrderly(p, s);
  }

  lemma {:induction false} RunInv<T>(p: Pool<T>, steps: seq<Step<T>>)
    requires Inv(p) && CanRun(p, steps)
    ensures Inv(Run(p, steps))
    decreases |steps|
  {
    if steps != [] {
      StepInv(p, steps[0]);
      RunInv(Apply(p, steps[0]), steps[1..]);
    }
  }

  // ---------------------------------------------------------------- results over every interleaving

  /** Tasks leave in the order they came, each at most once, and each that has left is running on
      one worker or has been run exactly once, whether or not it threw. */
  lemma FifoExactlyOnce<T>(n: nat, steps: seq<Step<T>>)
    requires CanRun(Initial(n), steps)
    ensures var p := Run(Initial(n), steps);
            p.pushed == p.taken + p.queue && multiset(p.taken) == multiset(p.finished) + RunningTasks(p.workers)
  {
    InitialInv<T>(n);
    RunInv(Initial(n), steps);
  }

  lemma {:induction false} WorkersStay<T>(p: Pool<T>, steps: seq<Step<T>>)
    requires CanRun(p, steps)
    ensures |Run(p, steps).workers| == |p.workers|
    decreases |steps|
  {
    if steps != [] { WorkersStay(Apply(p, steps[0]), steps[1..]); }
  }

  /** When every worker sleeps, each task still queued has a notification on its way. */
  lemma NoLostWakeup<T>(n: nat, steps: seq<Step<T>>)
    requires n > 0 && CanRun(Initial(n), steps)
    ensures var p := Run(Initial(n), steps);
            !p.shouldQuit && AllWaiting(p.workers) ==> |p.queue| <= p.notifies
  {
    InitialInv<T>(n);
    RunInv(Initial(n), steps);
    WorkersStay(Initial(n), steps);
  }

  /** The steps that the pool takes by itself. */
  predicate Internal<T>(s: Step<T>) { s.NotifyOne? || s.Dequeue? || s.TaskEnds? }

  function WorkerWeight<T>(w: Worker<T>, waiting: nat): nat {
    match w case Ready => 1 case Waiting => waiting case Running(_) => 2 case Exited => 0
  }

  function Weight<T>(ws: seq<Worker<T>>, waiting: nat): nat {
    if ws == [] then 0 else Weight(ws[..|ws| - 1], waiting) + WorkerWeight(ws[|ws| - 1], waiting)
  }

  lemma {:induction false} WeightUpdate<T>(ws: seq<Worker<T>>, k: nat, w: Worker<T>, waiting: nat)
    requires k < |ws|
    ensures Weight(ws[k := w], waiting) + WorkerWeight(ws[k], waiting) == Weight(ws, waiting) + WorkerWeight(w, waiting)
  {
    var n := |ws| - 1;
    if k < n {
      WeightUpdate(ws[..n], k, w, waiting);
      assert ws[k := w][..n] == ws[..n][k := w];
    } else {
      assert ws[k := w][..n] == ws[..n];
    }
  }

  /** How far the pool is from having nothing to do. */
  function Backlog<T>(p: Pool<T>): nat { 3 * |p.queue| + 2 * p.notifies + Weight(p.workers, 0) }

  lemma InternalStepWorks<T>(p: Pool<T>, s: Step<T>)
    requires Inv(p) && Enabled(p, s) && Internal(s) && !p.shouldQuit
    ensures Backlog(Apply(p, s)) < Backlog(p) && !Apply(p, s).shouldQuit
  {
    match s
    case NotifyOne(None) =>
    case NotifyOne(Some(k)) => WeightUpdate(p.workers, k, Ready, 0);
    case Dequeue(k) => WeightUpdate(p.workers, k, Apply(p, s).workers[k], 0);
    case TaskEnds(k) => WeightUpdate(p.workers, k, Ready, 0);
  }

  predicate AllInternal<T>(steps: seq<Step<T>>) { forall k :: 0 <= k < |steps| ==> Internal(steps[k]) }

  predicate Stuck<T>(p: Pool<T>) {
    p.notifies == 0 && forall k :: 0 <= k < |p.workers| ==> !p.workers[k].Ready? && !p.workers[k].Running?
  }

  /** A state is stuck exactly when no internal step is enabled. */
  lemma StuckMeansNoStep<T(!new)>(p: Pool<T>)
    ensures Stuck(p) <==> forall s :: Internal(s) ==> !Enabled(p, s)
  {
    if forall s :: Internal(s) ==> !Enabled(p, s) {
      if p.notifies > 0 {
        if k :| 0 <= k < |p.workers| && p.workers[k].Waiting? {
          assert Enabled(p, NotifyOne(Some(k)));
        } else {
          var s: Step<T> := NotifyOne(None);
          assert Enabled(p, s);
        }
      }
      forall k | 0 <= k < |p.workers| ensures !p.workers[k].Ready? && !p.workers[k].Running? {
        var taking: Step<T>, ending: Step<T> := Dequeue(k), TaskEnds(k);
        assert !Enabled(p, taking) && !Enabled(p, ending);
      }
    }
  }

  lemma StuckHasDrained<T>(p: Pool<T>)
    requires Inv(p) && p.workers != [] && !p.shouldQuit && Stuck(p)
    ensures p.queue == [] && multiset(p.pushed) == multiset(p.finished)
  {
    NothingRunning(p.workers);
    assert AllWaiting(p.workers);
    assert p.taken + [] == p.taken;
  }

  lemma WorkersKept<T>(p: Pool<T>, s: Step<T>)
    requires Enabled(p, s)
    ensures |Apply(p, s).workers| == |p.workers|
  {}

  lemma {:induction false} DrainsFrom<T>(p: Pool<T>, steps: seq<Step<T>>)
    requires Inv(p) && p.workers != [] && !p.shouldQuit && CanRun(p, steps) && AllInternal(steps)
    ensures |steps| <= Backlog(p)
    ensures var q := Run(p, steps);
            Stuck(q) ==> q.queue == [] && multiset(q.pushed) == multiset(q.finished)
    decreases |steps|
  {
    hide Inv, Apply, Enabled, Stuck, Backlog, Internal;
    if steps == [] {
      if Stuck(p) { StuckHasDrained(p); }
    } else {
      InternalStepWorks(p, steps[0]);
      StepInv(p, steps[0]);
      WorkersKept(p, steps[0]);
      DrainsFrom(Apply(p, steps[0]), steps[1..]);
    }
  }

  /** How far the workers are from being joined. */
  function Remaining<T>(p: Pool<T>): nat {
    p.notifies + Weight(p.workers, 2) + (if p.shutdown == Announced then 1 else 0)
  }

  lemma {:induction false} WakeAllWeight<T>(ws: seq<Worker<T>>)
    ensures Weight(WakeAll(ws), 2) <= Weight(ws, 2)
  {
    if ws != [] {
      WakeAllWeight(ws[..|ws| - 1]);
      assert WakeAll(ws)[..|ws| - 1] == WakeAll(ws[..|ws| - 1]);
    }
  }

  lemma QuittingStepWorks<T>(p: Pool<T>, s: Step<T>)
    requires Inv(p) && p.shouldQuit && Enabled(p, s) && !s.Push?
    ensures Remaining(Apply(p, s)) < Remaining(p) && Apply(p, s).shouldQuit
  {
    match s
    case NotifyOne(None) =>
    case NotifyOne(Some(k)) => WeightUpdate(p.workers, k, Ready, 2);
    case SpuriousWakeup(k) => WeightUpdate(p.workers, k, Ready, 2);
    case Dequeue(k) => WeightUpdate(p.workers, k, Exited, 2);
    case TaskEnds(k) => WeightUpdate(p.workers, k, Ready, 2);
    case NotifyAll => WakeAllWeight(p.workers);
  }

  lemma {:induction false} ShutdownFrom<T>(p: Pool<T>, steps: seq<Step<T>>)
    requires Inv(p) && p.shouldQuit && CanRun(p, steps)
    requires forall k :: 0 <= k < |steps| ==> !steps[k].Push?
    ensures |steps| <= Remaining(p)
    ensures var q := Run(p, steps);
            q.taken == p.taken
            && (Stuck(q) && q.shutdown == Notified ==> forall k :: 0 <= k < |q.workers| ==> q.workers[k].Exited?)
    decreases |steps|
  {
    if steps != [] {
      QuittingStepWorks(p, steps[0]);
      StepInv(p, steps[0]);
      ShutdownFrom(Apply(p, steps[0]), steps[1..]);
    }
  }

  /** In every interleaving, whatever happened before: left to itself a pool that is not shut down stops after
      at most `Backlog` steps of its own, and when it has none left every task pushed has been run. */
  lemma PoolDrains<T>(n: nat, before: seq<Step<T>>, steps: seq<Step<T>>)
    requires n > 0 && CanRun(Initial(n), before) && !Run(Initial(n), before).shouldQuit
    requires CanRun(Run(Initial(n), before), steps) && AllInternal(steps)
    ensures |steps| <= Backlog(Run(Initial(n), before))
    ensures var q := Run(Run(Initial(n), before), steps);
            Stuck(q) ==> q.queue == [] && multiset(q.pushed) == multiset(q.finished)
  {
    hide Inv, CanRun, Run, Stuck, Backlog, AllInternal;
    InitialInv<T>(n);
    RunInv(Initial(n), before);
    WorkersStay(Initial(n), before);
    DrainsFrom(Run(Initial(n), before), steps);
  }

  /** In every interleaving, once quitting: every run without new tasks is bounded, spurious wakeups included,
      no task is taken any more, and when no worker can move and `notify_all` has been called, all workers
      have left. */
  lemma ShutdownCompletes<T>(n: nat, before: seq<Step<T>>, steps: seq<Step<T>>)
    requires CanRun(Initial(n), before) && Run(Initial(n), before).shouldQuit
    requires CanRun(Run(Initial(n), before), steps) && forall k :: 0 <= k < |steps| ==> !steps[k].Push?
    ensures var p := Run(Initial(n), before);
            var q := Run(p, steps);
            |steps| <= Remaining(p) && q.taken == p.taken
            && (Stuck(q) && q.shutdown == Notified ==> forall k :: 0 <= k < |q.workers| ==> q.workers[k].Exited?)
  {
    hide Inv, CanRun, Run, Stuck, Remaining;
    InitialInv<T>(n);
    RunInv(Initial(n), before);
    ShutdownFrom(Run(Initial(n), before), steps);
  }

  // ---------------------------------------------------------------- the pool as it is

  /** The shared state; each method is what one thread does while holding the mutex, or one call
      on the condition variable. */
  class ThreadPoolState<T(==)> {
    var workQueue: seq<T>
    var shouldQuit: bool
    var workers: seq<Worker<T>>
    ghost var notifies: nat
    ghost var shutdown: Shutdown
    ghost var pushed: seq<T>
    ghost var taken: seq<T>
    ghost var finished: seq<T>

    ghost function State(): Pool<T>
      reads this
    {
      Pool(workQueue, shouldQuit, workers, notifies, shutdown, pushed, taken, finished)
    }

    /** The constructor of the pool. */
    constructor (numWorkers: nat)
      ensures State() == Initial(numWorkers)
    {
      shouldQuit, workQueue := false, [];
      workers := seq(numWorkers, _ => Ready);
      notifies, shutdown, pushed, taken, finished := 0, Open, [], [], [];
    }

    /** `Enqueue`, the part under the mutex. */
    method Push(fn: T)
      modifies this
      ensures State() == Apply(old(State()), Step.Push(fn))
    {
      workQueue := workQueue + [fn];
      notifies := notifies + 1;
      pushed := pushed + [fn];
    }

    /** `Enqueue`, `notify_one`: some waiting worker wakes, if there is one. */
    method NotifyOne(woken: Option<nat>)
      requires Enabled(State(), Step.NotifyOne(woken))
      modifies this
      ensures State() == Apply(old(State()), Step.NotifyOne(woken))
    {
      notifies := notifies - 1;
      if woken.Some? { workers := workers[woken.value := Ready]; }
    }

    /** One pass of worker `k` through the loop of `WorkerDequeue` and what follows it: `wait`
        releases the mutex and blocks, to come back here after a wakeup. */
    method WorkerDequeue(k: nat) returns (result: Option<T>)
      requires Enabled(State(), Dequeue(k))
      modifies this
      ensures State() == Apply(old(State()), Dequeue(k))
      ensures result.Some? <==> !old(shouldQuit) && old(workQueue) != []
      ensures result.Some? ==> workers[k] == Running(result.value) && result.value == old(workQueue)[0]
    {
      result := None;
      if !shouldQuit && workQueue == [] {
        workers := workers[k := Waiting];
        return;
      }
      if shouldQuit {
        workers := workers[k := Exited];
      } else {
        result := Some(workQueue[0]);
        workers := workers[k := Running(workQueue[0])];
        taken := taken + [workQueue[0]];
        workQueue := workQueue[1..];
      }
    }

    /** `Run`: the task of worker `k` returns or throws; an exception is caught either way. */
    method TaskEnds(k: nat)
      requires Enabled(State(), Step.TaskEnds(k))
      modifies this
      ensures State() == Apply(old(State()), Step.TaskEnds(k))
    {
      finished := finished + [workers[k].task];
      workers := workers[k := Ready];
    }

    /** `Shutdown`, the part under the mutex. */
    method SetQuit()
      requires Enabled(State(), Step.SetQuit)
      modifies this
      ensures State() == Apply(old(State()), Step.SetQuit)
    {
      shouldQuit := true;
      shutdown := Announced;
    }

    /** `Shutdown`, `notify_all`. */
    method NotifyAll()
      requires Enabled(State(), Step.NotifyAll)
      modifies this
      ensures State() == Apply(old(State()), Step.NotifyAll)
    {
      workers := WakeAll(workers);
      shutdown := Notified;
    }
  }
}
