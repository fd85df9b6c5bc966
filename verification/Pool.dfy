/**
 The bounded worker pool both hashers run on, as interleaved steps: the main
 goroutine spawns the workers, hands out jobs one rendezvous at a time, closes the
 channel and waits; a worker takes a job, works, publishes its result (inside the
 mutex for the jobs that need it) and exits when the channel is closed.
 */
module Pool {
  import opened Wrappers

  datatype Worker = Unborn | Idle | Working(job: nat) | Holding(job: nat) | Exited

  /**
   `size` workers for `jobs` jobs. `apply` is the effect of publishing one job on the
   shared result; `guarded` says which jobs publish inside the mutex.
   */
  datatype Config<!S> = Config(jobs: nat, size: nat, init: S, apply: (S, nat) -> S, guarded: nat -> bool)

  /** `pending` is the wait group's counter; `log` lists published jobs, oldest first. */
  datatype State<S> = State(
    spawned: nat, next: nat, closed: bool, done: bool,
    workers: seq<Worker>, pending: int, mutex: Option<nat>,
    shared: S, log: seq<nat>)

  datatype Step =
    | Spawn | Send(w: nat) | Finish(w: nat) | Acquire(w: nat) | Publish(w: nat) | Close | Exit(w: nat) | Wait

  /** As many workers as processors and jobs allow, and never none. */
  function BoundedWorkers(items: nat, procs: int): (w: nat)
    ensures 1 <= w
    ensures w <= if items == 0 then 1 else items
    ensures procs >= 1 ==> w <= procs
    ensures procs >= 1 && items >= 1 ==> w == procs || w == items
  {
    var p := if procs < 1 then 1 else procs;
    var q := if items < p then items else p;
    if q < 1 then 1 else q
  }

  function Start<S>(c: Config<S>): State<S> {
    State(0, 0, false, false, seq(c.size, _ => Unborn), 0, None, c.init, [])
  }

  predicate IsAt<S>(s: State<S>, w: nat, at: Worker) {
    w < |s.workers| && s.workers[w] == at
  }

  predicate Enabled<S>(c: Config<S>, s: State<S>, step: Step) {
    match step
    case Spawn => s.spawned < |s.workers|
    case Send(w) => s.spawned == |s.workers| && s.next < c.jobs && IsAt(s, w, Idle)
    case Finish(w) => w < |s.workers| && s.workers[w].Working? && !c.guarded(s.workers[w].job)
    case Acquire(w) => w < |s.workers| && s.workers[w].Working? && c.guarded(s.workers[w].job) && s.mutex.None?
    case Publish(w) => w < |s.workers| && s.workers[w].Holding?
    case Close => s.spawned == |s.workers| && s.next == c.jobs && !s.closed
    case Exit(w) => s.closed && IsAt(s, w, Idle)
    case Wait => s.closed && s.pending == 0 && !s.done
  }

  function Next<S>(c: Config<S>, s: State<S>, step: Step): State<S>
    requires Enabled(c, s, step)
  {
    match step
    case Spawn => s.(workers := s.workers[s.spawned := Idle], spawned := s.spawned + 1, pending := s.pending + 1)
    case Send(w) => s.(workers := s.workers[w := Working(s.next)], next := s.next + 1)
    case Finish(w) =>
      var job := s.workers[w].job;
      s.(workers := s.workers[w := Idle], shared := c.apply(s.shared, job), log := s.log + [job])
    case Acquire(w) => s.(workers := s.workers[w := Holding(s.workers[w].job)], mutex := Some(w))
    case Publish(w) =>
      var job := s.workers[w].job;
      s.(workers := s.workers[w := Idle], mutex := None, shared := c.apply(s.shared, job), log := s.log + [job])
    case Close => s.(closed := true)
    case Exit(w) => s.(workers := s.workers[w := Exited], pending := s.pending - 1)
    case Wait => s.(done := true)
  }

  /** The state after a run, or None when some step of it was not enabled. */
  function Run<S>(c: Config<S>, s: State<S>, steps: seq<Step>): Option<State<S>>
    decreases |steps|
  {
    if steps == [] then Some(s)
    else if Enabled(c, s, steps[0]) then Run(c, Next(c, s, steps[0]), steps[1..])
    else None
  }

  /** A run from the start to the end. */
  predicate IsComplete<S>(c: Config<S>, steps: seq<Step>) {
    var r := Run(c, Start(c), steps);
    r.Some? && r.value.done
  }

  // ---- bookkeeping over the workers ----

  function Carries(w: Worker, j: nat): nat {
    if w == Working(j) || w == Holding(j) then 1 else 0
  }

  /** How many workers carry job `j`. */
  function Carrying(ws: seq<Worker>, j: nat): nat {
    if ws == [] then 0 else Carries(ws[0], j) + Carrying(ws[1..], j)
  }

  /** How often job `j` has been published. */
  function Published(log: seq<nat>, j: nat): nat {
    if log == [] then 0 else Published(log[..|log| - 1], j) + if log[|log| - 1] == j then 1 else 0
  }

  function Live(w: Worker): nat {
    if w.Unborn? || w.Exited? then 0 else 1
  }

  function LiveCount(ws: seq<Worker>): nat {
    if ws == [] then 0 else Live(ws[0]) + LiveCount(ws[1..])
  }

  /** How many more steps a worker can take before it has nothing left to do. */
  function Load(w: Worker): nat {
    match w
    case Unborn => 2
    case Idle => 1
    case Working(_) => 3
    case Holding(_) => 2
    case Exited => 0
  }

  function LoadSum(ws: seq<Worker>): nat {
    if ws == [] then 0 else Load(ws[0]) + LoadSum(ws[1..])
  }

  function Measure<S>(c: Config<S>, s: State<S>): int {
    3 * (c.jobs - s.next) + LoadSum(s.workers) + (if s.closed then 0 else 1) + (if s.done then 0 else 1)
  }

  function Replay<S>(c: Config<S>, log: seq<nat>): S {
    if log == [] then c.init else c.apply(Replay(c, log[..|log| - 1]), log[|log| - 1])
  }

  lemma {:induction false} UpdateWorker(ws: seq<Worker>, k: nat, w: Worker)
    requires k < |ws|
    ensures LiveCount(ws[k := w]) + Live(ws[k]) == LiveCount(ws) + Live(w)
    ensures LoadSum(ws[k := w]) + Load(ws[k]) == LoadSum(ws) + Load(w)
    ensures forall j: nat :: Carrying(ws[k := w], j) + Carries(ws[k], j) == Carrying(ws, j) + Carries(w, j)
  {
    if k == 0 {
      assert ws[0 := w][1..] == ws[1..];
    } else {
      assert ws[k := w][1..] == ws[1..][k - 1 := w];
      UpdateWorker(ws[1..], k - 1, w);
    }
  }

  lemma {:induction false} CarryingAt(ws: seq<Worker>, k: nat, j: nat)
    requires k < |ws|
    ensures Carrying(ws, j) >= Carries(ws[k], j)
  {
    if k > 0 {
      CarryingAt(ws[1..], k - 1, j);
    }
  }

  lemma {:induction false} QuietWorkers(ws: seq<Worker>)
    ensures LiveCount(ws) == 0 <==> forall k :: 0 <= k < |ws| ==> ws[k].Unborn? || ws[k].Exited?
    ensures LiveCount(ws) == 0 ==> forall j: nat :: Carrying(ws, j) == 0
  {
    if ws != [] {
      QuietWorkers(ws[1..]);
      assert forall k :: 0 < k < |ws| ==> ws[k] == ws[1..][k - 1];
    }
  }

  lemma {:induction false} FreshWorkers(n: nat)
    ensures var ws := seq(n, _ => Unborn); LiveCount(ws) == 0 && LoadSum(ws) == 2 * n
  {
    if n > 0 {
      FreshWorkers(n - 1);
      assert seq(n, _ => Unborn)[1..] == seq(n - 1, _ => Unborn);
    }
  }

  // ---- the invariant ----

  /** Who may be in which state when. */
  ghost predicate Shape<S>(c: Config<S>, s: State<S>) {
    && |s.workers| == c.size
    && s.spawned <= |s.workers| && s.next <= c.jobs
    && (forall k :: 0 <= k < |s.workers| ==> (s.workers[k].Unborn? <==> s.spawned <= k))
    && (forall k :: 0 <= k < |s.workers| ==> (s.workers[k].Holding? <==> s.mutex == Some(k)))
    && (s.mutex.Some? ==> s.mutex.value < |s.workers|)
    && (s.next > 0 || s.closed ==> s.spawned == |s.workers|)
    && (s.closed ==> s.next == c.jobs)
    && (forall k :: 0 <= k < |s.workers| && s.workers[k].Exited? ==> s.closed)
    && (s.done ==> s.closed)
  }

  /** Every job handed out is with one worker or published, once; the rest is untouched. */
  ghost predicate Books<S>(c: Config<S>, s: State<S>) {
    && s.pending == LiveCount(s.workers)
    && (s.done ==> s.pending == 0)
    && s.shared == Replay(c, s.log)
    && forall j: nat :: Published(s.log, j) + Carrying(s.workers, j) == if j < s.next then 1 else 0
  }

  ghost predicate Inv<S>(c: Config<S>, s: State<S>) {
    Shape(c, s) && Books(c, s)
  }

  lemma StartInv<S>(c: Config<S>)
    ensures Inv(c, Start(c))
  {
    FreshWorkers(c.size);
    QuietWorkers(Start(c).workers);
  }

  lemma ReplayOne<S>(c: Config<S>, log: seq<nat>, job: nat)
    ensures Replay(c, log + [job]) == c.apply(Replay(c, log), job)
    ensures forall j: nat :: Published(log + [job], j) == Published(log, j) + if j == job then 1 else 0
  {
    assert (log + [job])[..|log|] == log;
  }

  lemma StepShape<S>(c: Config<S>, s: State<S>, step: Step)
    requires Shape(c, s) && Enabled(c, s, step)
    ensures Shape(c, Next(c, s, step))
  {
  }

  /** The worker a step moves, and where to. */
  function Moved<S>(s: State<S>, step: Step): Option<(nat, Worker)> {
    match step
    case Spawn => Some((s.spawned, Idle))
    case Send(w) => Some((w, Working(s.next)))
    case Finish(w) => Some((w, Idle))
    case Acquire(w) => if w < |s.workers| && s.workers[w].Working? then Some((w, Holding(s.workers[w].job))) else None
    case Publish(w) => Some((w, Idle))
    case Exit(w) => Some((w, Exited))
    case _ => None
  }

  /** Publishing moves one job from a worker to the log. */
  lemma PublishBooks<S>(c: Config<S>, s: State<S>, step: Step)
    requires Shape(c, s) && Books(c, s) && Enabled(c, s, step) && (step.Finish? || step.Publish?)
    ensures Books(c, Next(c, s, step))
    ensures 0 <= Measure(c, Next(c, s, step)) < Measure(c, s)
  {
    var k := Moved(s, step).value.0;
    UpdateWorker(s.workers, k, Idle);
    ReplayOne(c, s.log, s.workers[k].job);
    StepShape(c, s, step);
    QuietWorkers(s.workers);
  }

  lemma StepBooks<S>(c: Config<S>, s: State<S>, step: Step)
    requires Shape(c, s) && Books(c, s) && Enabled(c, s, step)
    ensures Books(c, Next(c, s, step))
    ensures 0 <= Measure(c, Next(c, s, step)) < Measure(c, s)
  {
    if step.Finish? || step.Publish? {
      PublishBooks(c, s, step);
    } else {
      StepShape(c, s, step);
      match Moved(s, step)
      case None =>
      case Some((k, w)) =>
        UpdateWorker(s.workers, k, w);
        QuietWorkers(s.workers);
    }
  }

  /** Every step keeps the invariant and brings the pool strictly closer to its end. */
  lemma StepInv<S>(c: Config<S>, s: State<S>, step: Step)
    requires Inv(c, s) && Enabled(c, s, step)
    ensures Inv(c, Next(c, s, step))
    ensures 0 <= Measure(c, Next(c, s, step)) < Measure(c, s)
  {
    StepShape(c, s, step);
    StepBooks(c, s, step);
  }

  /** No deadlock: short of the end, some step is possible, if there is a worker or no job. */
  lemma CanStep<S>(c: Config<S>, s: State<S>)
    requires Inv(c, s) && !s.done && (c.size > 0 || c.jobs == 0)
    ensures exists step :: Enabled(c, s, step)
  {
    QuietWorkers(s.workers);
    if s.spawned < |s.workers| {
      assert Enabled(c, s, Spawn);
    } else if k :| 0 <= k < |s.workers| && s.workers[k].Holding? {
      assert Enabled(c, s, Publish(k));
    } else if k :| 0 <= k < |s.workers| && s.workers[k].Working? {
      assert s.mutex.None?;
      assert Enabled(c, s, Finish(k)) || Enabled(c, s, Acquire(k));
    } else if k :| 0 <= k < |s.workers| && s.workers[k].Idle? {
      assert Enabled(c, s, Send(k)) || Enabled(c, s, Close) || Enabled(c, s, Exit(k));
    } else if s.closed {
      assert Enabled(c, s, Wait);
    } else {
      assert Enabled(c, s, Close);
    }
  }

  lemma {:induction false} RunInv<S>(c: Config<S>, s: State<S>, steps: seq<Step>)
    requires Inv(c, s) && Run(c, s, steps).Some?
    ensures Inv(c, Run(c, s, steps).value)
    ensures |steps| + Measure(c, Run(c, s, steps).value) <= Measure(c, s)
    decreases |steps|
  {
    if steps != [] {
      StepInv(c, s, steps[0]);
      RunInv(c, Next(c, s, steps[0]), steps[1..]);
    }
  }

  /** `log` publishes each of the `jobs` jobs exactly once. */
  ghost predicate EachOnce(log: seq<nat>, jobs: nat) {
    forall j: nat :: Published(log, j) == if j < jobs then 1 else 0
  }

  /**
   Whatever the interleaving: a run that has not finished can go on, no run is
   longer than the bound, and a finished run has published every job exactly once,
   with the shared result being theirs in that order.
   */
  lemma PoolCompletes<S>(c: Config<S>, steps: seq<Step>)
    requires c.size > 0 && Run(c, Start(c), steps).Some?
    ensures var s := Run(c, Start(c), steps).value;
            && |steps| <= 3 * c.jobs + 2 * c.size + 2
            && (!s.done ==> exists step :: Enabled(c, s, step))
            && (s.done ==> EachOnce(s.log, c.jobs) && s.shared == Replay(c, s.log))
            && (s.done ==> forall step :: !Enabled(c, s, step))
  {
    StartInv(c);
    RunInv(c, Start(c), steps);
    FreshWorkers(c.size);
    var s := Run(c, Start(c), steps).value;
    QuietWorkers(s.workers);
    if !s.done {
      CanStep(c, s);
    }
  }

  lemma {:induction false} RunOn<S>(c: Config<S>, s: State<S>, steps: seq<Step>, more: seq<Step>)
    requires Run(c, s, steps).Some?
    ensures Run(c, s, steps + more) == Run(c, Run(c, s, steps).value, more)
    decreases |steps|
  {
    if steps == [] {
      assert steps + more == more;
    } else {
      assert (steps + more)[0] == steps[0] && (steps + more)[1..] == steps[1..] + more;
      RunOn(c, Next(c, s, steps[0]), steps[1..], more);
    }
  }

  /** However a run has begun, it can be carried on to its end. */
  lemma {:induction false} RunCanComplete<S>(c: Config<S>, steps: seq<Step>)
    requires c.size > 0 && Run(c, Start(c), steps).Some?
    ensures exists more :: IsComplete(c, steps + more)
    decreases Measure(c, Run(c, Start(c), steps).value)
  {
    StartInv(c);
    RunInv(c, Start(c), steps);
    var s := Run(c, Start(c), steps).value;
    if s.done {
      assert steps + [] == steps;
    } else {
      CanStep(c, s);
      var step :| Enabled(c, s, step);
      StepInv(c, s, step);
      RunOn(c, Start(c), steps, [step]);
      assert [step][1..] == [] && Run(c, s, [step]) == Some(Next(c, s, step));
      RunCanComplete(c, steps + [step]);
      var more :| IsComplete(c, steps + [step] + more);
      assert steps + ([step] + more) == steps + [step] + more;
    }
  }

  /** Two workers never carry the same job, nor a published one, and at most one is inside the mutex. */
  lemma WorkersDisjoint<S>(c: Config<S>, steps: seq<Step>, i: nat, k: nat, j: nat)
    requires Run(c, Start(c), steps).Some?
    requires var s := Run(c, Start(c), steps).value; i < k < |s.workers| && Carries(s.workers[i], j) == 1
    ensures var s := Run(c, Start(c), steps).value;
            && Carries(s.workers[k], j) == 0
            && Published(s.log, j) == 0
            && !(s.workers[i].Holding? && s.workers[k].Holding?)
  {
    StartInv(c);
    RunInv(c, Start(c), steps);
    var s := Run(c, Start(c), steps).value;
    var rest := s.workers[i := Idle];
    UpdateWorker(s.workers, i, Idle);
    CarryingAt(rest, k, j);
    assert Published(s.log, j) + Carrying(s.workers, j) <= 1;
  }

  ghost predicate DeadlockFree<S>(c: Config<S>) {
    forall steps :: Run(c, Start(c), steps).Some? && !Run(c, Start(c), steps).value.done ==>
                      exists step :: Enabled(c, Run(c, Start(c), steps).value, step)
  }

  /** What `BoundedWorkers` is for: the pool can block only with jobs and no worker. */
  lemma DeadlockFreeIff<S>(c: Config<S>)
    ensures DeadlockFree(c) <==> c.size > 0 || c.jobs == 0
  {
    if c.size > 0 || c.jobs == 0 {
      forall steps | Run(c, Start(c), steps).Some? && !Run(c, Start(c), steps).value.done
        ensures exists step :: Enabled(c, Run(c, Start(c), steps).value, step)
      {
        StartInv(c);
        RunInv(c, Start(c), steps);
        CanStep(c, Run(c, Start(c), steps).value);
      }
    } else {
      assert Run(c, Start(c), []).Some?;
      assert forall step :: !Enabled(c, Start(c), step);
    }
  }
}
