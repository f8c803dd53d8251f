/** The backtest loop, its pool of workers and the count-down barrier between them, as interleaved
    steps. Each step is what one thread does between two points where another may run; the mutex of
    the count-down is explicit, and so is the gap between a decrement and the wake-up. */
module WorkerPool {
  import opened Basics

  /** A job object; `id` is its identity, in order of allocation. */
  datatype Job = Job(id: nat, strategy: nat, timestamp: real)

  /** A worker: polling, inside `process`, before `done`, and inside `done` before and after the
      decrement. */
  datatype Worker = Idle | Processing(job: Job) | Finishing(job: Job) | Locked(job: Job) | Counted(job: Job)

  /** The main thread: top of the loop, visiting strategy `i`, then the three points of `wait`, and
      past it. */
  datatype Main = AtTop | Visiting(i: nat) | Acquiring | Testing | Sleeping | Opened | Stopped

  datatype Owner = Free | ByMain | ByWorker(w: nat)

  datatype Config = Config(strategies: nat, workers: nat, timestep: real, toTs: real)

  /** `submitted`, `popped` and `processed` are histories; `skipped` and `roundStart` are of the
      current round. */
  datatype State = State(main: Main, count: int, lock: Owner, workers: seq<Worker>, queue: seq<Job>, curTs: real,
                         submitted: seq<Job>, popped: seq<Job>, processed: multiset<Job>,
                         skipped: nat, roundStart: nat)

  datatype Step =
    | Begin | Stop | Skip | Submit | CallWait | MainLock | Test | Advance
    | Pop(w: nat) | Process(w: nat) | Lock(w: nat) | Decrement(w: nat) | Release(w: nat)
    | SpuriousWake | Poll(w: nat)

  // ---- The queue: a call on the object, and a step of a thread, do the same to it ----

  function Enqueued(queue: seq<Job>, job: Job): seq<Job> { queue + [job] }

  function Oldest(queue: seq<Job>): Option<Job> { if queue == [] then None else Some(queue[0]) }

  function Dequeued(queue: seq<Job>): seq<Job> { if queue == [] then [] else queue[1..] }

  /** The job queue as the threads use it; the steps below interleave its two calls. */
  class PoolWorker {
    var jobs: seq<Job>

    constructor ()
      ensures jobs == []
    {
      jobs := [];
    }

    method AddJob(job: Job)
      modifies this
      ensures jobs == Enqueued(old(jobs), job)
    {
      jobs := jobs + [job];
    }

    /** The oldest job, or none when the queue is empty. */
    method NextJob() returns (r: Option<Job>)
      modifies this
      ensures r == Oldest(old(jobs)) && jobs == Dequeued(old(jobs))
    {
      r := None;
      if |jobs| > 0 {
        r := Some(jobs[0]);
        jobs := jobs[1..];
      }
    }
  }

  function Initial(c: Config, fromTs: real): State {
    State(AtTop, 0, Free, seq(c.workers, _ => Idle), [], fromTs, [], [], multiset{}, 0, 0)
  }

  predicate Enabled(c: Config, s: State, step: Step) {
    match step
    case Begin => s.main.AtTop? && s.curTs <= c.toTs
    case Stop => s.main.AtTop?
    case Skip => s.main.Visiting? && s.main.i < c.strategies
    case Submit => s.main.Visiting? && s.main.i < c.strategies
    case CallWait => s.main.Visiting? && s.main.i >= c.strategies
    case MainLock => s.main.Acquiring? && s.lock.Free?
    case Test => s.main.Testing?
    case Advance => s.main.Opened?
    case SpuriousWake => s.main.Sleeping?
    case Pop(w) => w < |s.workers| && s.workers[w].Idle? && s.queue != []
    case Poll(w) => w < |s.workers| && s.workers[w].Idle? && s.queue == []
    case Process(w) => w < |s.workers| && s.workers[w].Processing?
    case Lock(w) => w < |s.workers| && s.workers[w].Finishing? && s.lock.Free?
    case Decrement(w) => w < |s.workers| && s.workers[w].Locked?
    case Release(w) => w < |s.workers| && s.workers[w].Counted?
  }

  function Apply(c: Config, s: State, step: Step): State
    requires Enabled(c, s, step)
  {
    match step
    case Begin => s.(main := Visiting(0), count := c.strategies, skipped := 0, roundStart := |s.submitted|)
    case Stop => s.(main := Stopped)
    case Skip => s.(main := Visiting(s.main.i + 1), skipped := s.skipped + 1)
    case Submit =>
      var job := Job(|s.submitted|, s.main.i, s.curTs);
      s.(main := Visiting(s.main.i + 1), queue := s.queue + [job], submitted := s.submitted + [job])
    case CallWait => s.(main := Acquiring)
    case MainLock => s.(main := Testing, lock := ByMain)
    case Test => s.(main := if s.count > 0 then Sleeping else Opened, lock := Free)
    case Advance => s.(main := AtTop, curTs := s.curTs + c.timestep)
    case SpuriousWake => s.(main := Acquiring)
    case Pop(w) =>
      s.(workers := s.workers[w := Processing(s.queue[0])], queue := s.queue[1..], popped := s.popped + [s.queue[0]])
    case Poll(w) => s
    case Process(w) =>
      var job := s.workers[w].job;
      s.(workers := s.workers[w := Finishing(job)], processed := s.processed + multiset{job})
    case Lock(w) => s.(workers := s.workers[w := Locked(s.workers[w].job)], lock := ByWorker(w))
    case Decrement(w) => s.(workers := s.workers[w := Counted(s.workers[w].job)], count := s.count - 1)
    case Release(w) =>
      s.(workers := s.workers[w := Idle], lock := Free,
         main := if s.count <= 0 && s.main.Sleeping? then Acquiring else s.main)
  }

  /** Submitting is a call to add a job, and polling or popping a call for the next one. */
  lemma QueueStepsAreCalls(c: Config, s: State, step: Step)
    requires Enabled(c, s, step)
    ensures step.Submit? ==> Apply(c, s, step).queue == Enqueued(s.queue, Job(|s.submitted|, s.main.i, s.curTs))
    ensures step.Pop? || step.Poll? ==>
              Apply(c, s, step).queue == Dequeued(s.queue)
              && Apply(c, s, step).workers[step.w] == match Oldest(s.queue)
                                                      case None => Idle
                                                      case Some(job) => Processing(job)
    ensures !step.Submit? && !step.Pop? ==> Apply(c, s, step).queue == s.queue
  {
  }

  /** `s'` follows from `s` by the given steps, in any interleaving. */
  ghost predicate Reaches(c: Config, s: State, steps: seq<Step>, s': State)
    decreases |steps|
  {
    if steps == [] then s' == s
    else Enabled(c, s, steps[0]) && Reaches(c, Apply(c, s, steps[0]), steps[1..], s')
  }

  // ---- Sums over the workers ----

  function Sum(ws: seq<Worker>, f: Worker -> nat): nat {
    if ws == [] then 0 else Sum(ws[..|ws| - 1], f) + f(ws[|ws| - 1])
  }

  lemma {:induction false} SumUpdate(ws: seq<Worker>, w: nat, x: Worker, f: Worker -> nat)
    requires w < |ws|
    ensures Sum(ws[w := x], f) == Sum(ws, f) - f(ws[w]) + f(x)
  {
    var n := |ws| - 1;
    if w == n {
      assert ws[w := x][..n] == ws[..n];
    } else {
      assert ws[w := x][..n] == ws[..n][w := x];
      SumUpdate(ws[..n], w, x, f);
    }
  }

  lemma {:induction false} SumAtLeast(ws: seq<Worker>, w: nat, f: Worker -> nat)
    requires w < |ws|
    ensures Sum(ws, f) >= f(ws[w])
  {
    if w < |ws| - 1 {
      SumAtLeast(ws[..|ws| - 1], w, f);
    }
  }

  lemma {:induction false} SumZero(ws: seq<Worker>, f: Worker -> nat)
    requires forall w :: 0 <= w < |ws| ==> f(ws[w]) == 0
    ensures Sum(ws, f) == 0
  {
    if ws != [] {
      SumZero(ws[..|ws| - 1], f);
    }
  }

  /** 1 for a worker whose job is not counted down yet. */
  function Owed(x: Worker): nat { if x.Processing? || x.Finishing? || x.Locked? then 1 else 0 }

  function Inside(ws: seq<Worker>): multiset<Job> {
    if ws == [] then multiset{}
    else
      Inside(ws[..|ws| - 1]) + InsideOne(ws[|ws| - 1])
  }

  function InsideOne(x: Worker): multiset<Job> { if x.Processing? then multiset{x.job} else multiset{} }

  lemma MultisetReplace(a: multiset<Job>, o: multiset<Job>, n: multiset<Job>, l: multiset<Job>)
    ensures (a + o) - o + n == a + n
    ensures o <= a ==> (a - o + n) + l == (a + l) - o + n
  {
  }

  lemma {:induction false} InsideUpdate(ws: seq<Worker>, w: nat, x: Worker)
    requires w < |ws|
    ensures InsideOne(ws[w]) <= Inside(ws)
    ensures Inside(ws[w := x]) == Inside(ws) - InsideOne(ws[w]) + InsideOne(x)
  {
    hide InsideOne;
    var n := |ws| - 1;
    MultisetReplace(Inside(ws[..n]), InsideOne(ws[w]), InsideOne(x), InsideOne(ws[n]));
    if w == n {
      assert ws[w := x][..n] == ws[..n];
    } else {
      assert ws[w := x][..n] == ws[..n][w := x];
      InsideUpdate(ws[..n], w, x);
    }
  }

  lemma {:induction false} InsideEmpty(ws: seq<Worker>)
    requires forall w :: 0 <= w < |ws| ==> !ws[w].Processing?
    ensures Inside(ws) == multiset{}
  {
    if ws != [] {
      InsideEmpty(ws[..|ws| - 1]);
    }
  }

  // ---- The invariant ----

  function StillToVisit(c: Config, m: Main): int {
    if m.Visiting? then c.strategies - m.i else 0
  }

  predicate BetweenRounds(m: Main) { m.AtTop? || m.Opened? || m.Stopped? }

  /** The count-down is what is still owed to it. */
  ghost predicate Accounting(c: Config, s: State) {
    s.count == StillToVisit(c, s.main) + s.skipped + |s.queue| + Sum(s.workers, Owed)
    && (s.main.Visiting? ==> s.main.i <= c.strategies)
    && (BetweenRounds(s.main) ==> s.count == 0 && forall w :: 0 <= w < |s.workers| ==> s.workers[w].Idle?)
  }

  /** Jobs leave the queue in order, and every popped job is inside `process` or was processed once. */
  ghost predicate Histories(s: State) {
    s.popped + s.queue == s.submitted
    && s.processed + Inside(s.workers) == multiset(s.popped)
  }

  predicate Holds(s: State, w: nat) {
    w < |s.workers| && (s.workers[w].Locked? || s.workers[w].Counted?)
  }

  /** Mutual exclusion, and no lost wake-up. */
  ghost predicate Locking(s: State) {
    (s.lock.ByMain? <==> s.main.Testing?)
    && (forall w: nat :: Holds(s, w) <==> s.lock == ByWorker(w))
    && (s.main.Sleeping? ==> s.count > 0 || exists w: nat :: w < |s.workers| && s.workers[w].Counted?)
  }

  /** The jobs of the round belong to it, at the current time, one per visited strategy. */
  ghost predicate RoundJobs(c: Config, s: State) {
    s.roundStart <= |s.popped| <= |s.submitted|
    && (forall i :: 0 <= i < |s.submitted| ==> s.submitted[i].id == i)
    && (forall i :: s.roundStart <= i < |s.submitted| ==> OfRound(c, s, s.submitted[i]))
    && (forall i, j :: s.roundStart <= i < j < |s.submitted| ==> s.submitted[i].strategy < s.submitted[j].strategy)
    && (InRound(s.main) ==> |s.submitted| - s.roundStart + s.skipped == Visited(c, s.main))
  }

  /** Busy workers hold pairwise different jobs of the round. */
  ghost predicate HeldJobs(s: State) {
    (forall w :: 0 <= w < |s.workers| && !s.workers[w].Idle? ==> Current(s, s.workers[w].job))
    && forall v, w :: 0 <= v < w < |s.workers| && !s.workers[v].Idle? && !s.workers[w].Idle? ==>
         s.workers[v].job.id != s.workers[w].job.id
  }

  predicate InRound(m: Main) { !m.AtTop? && !m.Stopped? }

  function Visited(c: Config, m: Main): int {
    if m.Visiting? then m.i else c.strategies
  }

  predicate OfRound(c: Config, s: State, job: Job) {
    (InRound(s.main) ==> job.timestamp == s.curTs) && job.strategy < Visited(c, s.main)
  }

  predicate Current(s: State, job: Job) {
    s.roundStart <= job.id < |s.popped| && s.popped[job.id] == job
  }

  ghost predicate Inv(c: Config, s: State) {
    |s.workers| == c.workers && Accounting(c, s) && Histories(s) && Locking(s) && RoundJobs(c, s) && HeldJobs(s)
  }

  lemma InvInitially(c: Config, fromTs: real)
    ensures Inv(c, Initial(c, fromTs))
  {
    var s := Initial(c, fromTs);
    SumZero(s.workers, Owed);
    InsideEmpty(s.workers);
  }

  /** The worker a step moves, and what it becomes. */
  predicate MovesWorker(step: Step) {
    step.Pop? || step.Process? || step.Lock? || step.Decrement? || step.Release?
  }

  lemma OneWorkerMoves(c: Config, s: State, step: Step)
    requires Enabled(c, s, step)
    ensures if MovesWorker(step) then Apply(c, s, step).workers == s.workers[step.w := Apply(c, s, step).workers[step.w]]
            else Apply(c, s, step).workers == s.workers
    ensures MovesWorker(step) ==> |Apply(c, s, step).workers| == |s.workers| > step.w
  {
  }

  lemma AllIdle(c: Config, s: State)
    requires Accounting(c, s) && Locking(s) && s.main.Testing? && s.count <= 0
    ensures s.queue == [] && s.skipped == 0 && forall w :: 0 <= w < |s.workers| ==> s.workers[w].Idle?
  {
    hide Sum;
    forall w | 0 <= w < |s.workers| ensures s.workers[w].Idle? {
      SumAtLeast(s.workers, w, Owed);
      assert !Holds(s, w);
    }
  }

  lemma AccountingKept(c: Config, s: State, step: Step)
    requires |s.workers| == c.workers && Accounting(c, s) && Locking(s) && Enabled(c, s, step)
    ensures Accounting(c, Apply(c, s, step))
  {
    hide Sum, Locking;
    if MovesWorker(step) {
      SumUpdate(s.workers, step.w, Apply(c, s, step).workers[step.w], Owed);
    } else if step.Begin? {
      SumZero(s.workers, Owed);
    } else if step.Test? && s.count <= 0 {
      SumZeroIfIdle(c, s);
    }
  }

  lemma SumZeroIfIdle(c: Config, s: State)
    requires Accounting(c, s) && Locking(s) && s.main.Testing? && s.count <= 0
    ensures s.queue == [] && s.skipped == 0 && Sum(s.workers, Owed) == 0 && s.count == 0
    ensures forall w :: 0 <= w < |s.workers| ==> s.workers[w].Idle?
  {
    AllIdle(c, s);
    SumZero(s.workers, Owed);
  }

  lemma HistoriesKept(c: Config, s: State, step: Step)
    requires Histories(s) && Enabled(c, s, step)
    ensures Histories(Apply(c, s, step))
  {
    hide Inside, Sum;
    if step.Submit? {
      SubmitKeepsOrder(c, s);
    } else if step.Pop? {
      PopKeepsOrder(c, s, step.w);
    } else if step.Process? {
      ProcessedOnce(s.processed, s.popped, s.workers, step.w, Finishing(s.workers[step.w].job));
    } else if MovesWorker(step) {
      InsideUnchanged(s.workers, step.w, Apply(c, s, step).workers[step.w]);
    }
  }

  lemma InsideUnchanged(ws: seq<Worker>, w: nat, x: Worker)
    requires w < |ws| && !ws[w].Processing? && !x.Processing?
    ensures Inside(ws[w := x]) == Inside(ws)
  {
    hide Inside;
    InsideUpdate(ws, w, x);
  }

  lemma SubmitKeepsOrder(c: Config, s: State)
    requires Histories(s) && Enabled(c, s, Submit)
    ensures Histories(Apply(c, s, Submit))
  {
    var s' := Apply(c, s, Submit);
    assert s.popped + (s.queue + [s'.submitted[|s.submitted|]]) == s'.submitted;
  }

  lemma PopKeepsOrder(c: Config, s: State, w: nat)
    requires Histories(s) && Enabled(c, s, Pop(w))
    ensures Histories(Apply(c, s, Pop(w)))
  {
    hide Inside;
    var job := s.queue[0];
    InsideUpdate(s.workers, w, Processing(job));
    assert s.queue == [job] + s.queue[1..];
    assert s.popped + [job] + s.queue[1..] == s.popped + s.queue;
    assert multiset(s.popped + [job]) == multiset(s.popped) + multiset{job};
  }

  lemma ProcessedOnce(processed: multiset<Job>, popped: seq<Job>, ws: seq<Worker>, w: nat, x: Worker)
    requires w < |ws| && ws[w].Processing? && x.Finishing? && processed + Inside(ws) == multiset(popped)
    ensures processed + multiset{ws[w].job} + Inside(ws[w := x]) == multiset(popped)
  {
    hide Inside;
    InsideUpdate(ws, w, x);
  }

  lemma LockingKept(c: Config, s: State, step: Step)
    requires Accounting(c, s) && Locking(s) && Enabled(c, s, step)
    ensures Locking(Apply(c, s, step))
  {
    hide Sum, Accounting;
    var s' := Apply(c, s, step);
    if MovesWorker(step) {
      var w := step.w;
      assert Holds(s, w) <==> step.Decrement? || step.Release?;
      assert Holds(s', w) <==> step.Lock? || step.Decrement?;
      assert forall v: nat :: v != w ==> (Holds(s', v) <==> Holds(s, v));
      if s'.main.Sleeping? && s'.count <= 0 {
        CountedStays(c, s, step);
      }
    } else {
      assert forall v: nat :: Holds(s', v) <==> Holds(s, v);
    }
  }

  /** While main sleeps on a count of zero, the worker that brought it there is still to wake it. */
  lemma CountedStays(c: Config, s: State, step: Step)
    requires Accounting(c, s) && Locking(s) && Enabled(c, s, step) && MovesWorker(step)
    requires Apply(c, s, step).main.Sleeping? && Apply(c, s, step).count <= 0
    ensures exists v: nat :: v < |Apply(c, s, step).workers| && Apply(c, s, step).workers[v].Counted?
  {
    hide Sum, Accounting;
    var s' := Apply(c, s, step);
    if step.Decrement? {
      assert s'.workers[step.w].Counted?;
    } else {
      var v: nat :| v < |s.workers| && s.workers[v].Counted?;
      assert Holds(s, v) && s.lock == ByWorker(v);
      assert v != step.w;
      assert s'.workers[v].Counted?;
    }
  }

  lemma RoundJobsKept(c: Config, s: State, step: Step)
    requires Accounting(c, s) && Histories(s) && RoundJobs(c, s) && Enabled(c, s, step)
    ensures RoundJobs(c, Apply(c, s, step))
  {
    hide Sum, Inside;
    assert |s.popped| + |s.queue| == |s.submitted|;
    if step.Submit? {
      SubmitRoundJobs(c, s);
    }
  }

  lemma SubmitRoundJobs(c: Config, s: State)
    requires RoundJobs(c, s) && Enabled(c, s, Submit)
    ensures RoundJobs(c, Apply(c, s, Submit))
  {
    var s' := Apply(c, s, Submit);
    assert forall i :: s.roundStart <= i < |s.submitted| ==> OfRound(c, s, s.submitted[i]) && s'.submitted[i] == s.submitted[i];
  }

  lemma HeldJobsKept(c: Config, s: State, step: Step)
    requires Accounting(c, s) && Histories(s) && RoundJobs(c, s) && HeldJobs(s) && Enabled(c, s, step)
    ensures HeldJobs(Apply(c, s, step))
  {
    hide Sum, Inside, Accounting, OfRound;
    if step.Pop? {
      var job := s.queue[0];
      assert s.submitted[|s.popped|] == job;
    } else if step.Begin? {
      assert forall w :: 0 <= w < |s.workers| ==> s.workers[w].Idle? by { IdleBetweenRounds(c, s); }
    }
  }

  lemma IdleBetweenRounds(c: Config, s: State)
    requires Accounting(c, s) && BetweenRounds(s.main)
    ensures forall w :: 0 <= w < |s.workers| ==> s.workers[w].Idle?
  {
  }

  lemma StepKeepsInv(c: Config, s: State, step: Step)
    requires Inv(c, s) && Enabled(c, s, step)
    ensures Inv(c, Apply(c, s, step))
  {
    hide Accounting, Histories, Locking, RoundJobs, HeldJobs, Enabled, Apply;
    OneWorkerMoves(c, s, step);
    AccountingKept(c, s, step);
    HistoriesKept(c, s, step);
    LockingKept(c, s, step);
    RoundJobsKept(c, s, step);
    HeldJobsKept(c, s, step);
  }

  lemma {:induction false} InvReachable(c: Config, s: State, steps: seq<Step>, s': State)
    requires Inv(c, s) && Reaches(c, s, steps, s')
    ensures Inv(c, s')
    decreases |steps|
  {
    if steps != [] {
      StepKeepsInv(c, s, steps[0]);
      InvReachable(c, Apply(c, s, steps[0]), steps[1..], s');
    }
  }

  // ---- Safety ----

  ghost predicate Reachable(c: Config, fromTs: real, s: State) {
    exists steps: seq<Step> :: Reaches(c, Initial(c, fromTs), steps, s)
  }

  lemma ReachableInv(c: Config, fromTs: real, s: State)
    requires Reachable(c, fromTs, s)
    ensures Inv(c, s)
  {
    var steps: seq<Step> :| Reaches(c, Initial(c, fromTs), steps, s);
    InvInitially(c, fromTs);
    InvReachable(c, Initial(c, fromTs), steps, s);
  }

  /** Every submitted job has been processed exactly once, and nobody is inside `process`. */
  ghost predicate Quiet(s: State) {
    s.queue == [] && s.popped == s.submitted && s.processed == multiset(s.submitted)
    && forall w :: 0 <= w < |s.workers| ==> s.workers[w].Idle?
  }

  lemma BetweenRoundsQuiet(c: Config, s: State)
    requires Inv(c, s) && BetweenRounds(s.main)
    ensures Quiet(s)
  {
    hide Inside, Sum;
    InsideEmpty(s.workers);
    assert s.popped + [] == s.popped;
  }

  lemma {:induction false} IncreasingFillsRange(f: seq<nat>, n: nat)
    requires |f| == n && (forall i :: 0 <= i < n ==> f[i] < n)
    requires forall i, j :: 0 <= i < j < n ==> f[i] < f[j]
    ensures forall i :: 0 <= i < n ==> f[i] == i
  {
    if n > 0 {
      assert forall i :: 0 <= i < n - 1 ==> f[i] < f[n - 1];
      var front := f[..n - 1];
      IncreasingFillsRange(front, n - 1);
      assert forall i :: 0 <= i < n - 1 ==> front[i] == f[i];
      assert n > 1 ==> f[n - 2] == n - 2;
    }
  }

  /** When `wait` returns, in any interleaving: the round has submitted each strategy exactly once at
      the current time, in order, and every job submitted so far was processed exactly once. */
  lemma BarrierSafety(c: Config, fromTs: real, s: State)
    requires Reachable(c, fromTs, s) && s.main.Opened?
    ensures Quiet(s) && s.skipped == 0
    ensures s.roundStart <= |s.submitted|
    ensures s.submitted[s.roundStart..] == seq(c.strategies, i requires i >= 0 => Job(s.roundStart + i, i, s.curTs))
  {
    hide Sum, Inside;
    ReachableInv(c, fromTs, s);
    BetweenRoundsQuiet(c, s);
    var n := c.strategies;
    var f := seq(n, i requires 0 <= i < n => s.submitted[s.roundStart + i].strategy);
    IncreasingFillsRange(f, n);
    var round := s.submitted[s.roundStart..];
    forall i | 0 <= i < n ensures round[i] == Job(s.roundStart + i, i, s.curTs) {
      assert f[i] == i && round[i] == s.submitted[s.roundStart + i] && OfRound(c, s, round[i]);
    }
  }

  /** The simulated time moves only when nobody is inside `process` and no job is left. */
  lemma TimeMovesOnlyWhenQuiet(c: Config, fromTs: real, s: State, step: Step)
    requires Reachable(c, fromTs, s) && Enabled(c, s, step)
    ensures Apply(c, s, step).curTs != s.curTs ==> Quiet(s) && s.main.Opened?
  {
    ReachableInv(c, fromTs, s);
    if s.main.Opened? {
      BetweenRoundsQuiet(c, s);
    }
  }

  /** No two workers ever hold jobs of the same strategy, and every held job is for the current
      time. */
  lemma NoStrategyTwice(c: Config, fromTs: real, s: State, v: nat, w: nat)
    requires Reachable(c, fromTs, s) && v < w < |s.workers| && !s.workers[v].Idle? && !s.workers[w].Idle?
    ensures s.workers[v].job.strategy != s.workers[w].job.strategy
    ensures s.workers[v].job.timestamp == s.workers[w].job.timestamp == s.curTs
  {
    hide Sum, Inside;
    ReachableInv(c, fromTs, s);
    var a, b := s.workers[v].job, s.workers[w].job;
    assert s.submitted[a.id] == a && s.submitted[b.id] == b;
    assert OfRound(c, s, s.submitted[a.id]) && OfRound(c, s, s.submitted[b.id]);
  }

  /** Jobs start in the order of their submission. */
  lemma JobsStartInOrder(c: Config, fromTs: real, s: State)
    requires Reachable(c, fromTs, s)
    ensures s.popped <= s.submitted
  {
    ReachableInv(c, fromTs, s);
  }

  /** At most one thread is inside the mutex of the count-down, and when main sleeps on a count of
      zero, a worker inside `done` is still to wake it. */
  lemma NoLostWakeUp(c: Config, fromTs: real, s: State)
    requires Reachable(c, fromTs, s)
    ensures forall v: nat, w: nat :: Holds(s, v) && Holds(s, w) ==> v == w && !s.main.Testing?
    ensures s.main.Sleeping? && s.count <= 0 ==>
              exists w: nat :: w < |s.workers| && s.workers[w].Counted? && s.lock == ByWorker(w)
  {
    hide Sum, Inside;
    ReachableInv(c, fromTs, s);
    if s.main.Sleeping? && s.count <= 0 {
      var w: nat :| w < |s.workers| && s.workers[w].Counted?;
      assert Holds(s, w);
    }
  }

  // ---- Progress ----

  predicate Waiting(m: Main) { m.Acquiring? || m.Testing? || m.Sleeping? }

  lemma SkipKeepsWaiting(c: Config, s: State, step: Step)
    requires Accounting(c, s) && Waiting(s.main) && s.skipped > 0 && Enabled(c, s, step)
    ensures var t := Apply(c, s, step);
            Waiting(t.main) && t.skipped == s.skipped && t.curTs == s.curTs
  {
    hide Sum;
  }

  /** A round in which a strategy was skipped never ends: its count stays above zero. */
  lemma {:induction false} SkippedRoundStalls(c: Config, s: State, steps: seq<Step>, s': State)
    requires Inv(c, s) && Waiting(s.main) && s.skipped > 0 && Reaches(c, s, steps, s')
    ensures Waiting(s'.main) && s'.curTs == s.curTs
    decreases |steps|
  {
    if steps != [] {
      hide Accounting, Apply, Enabled;
      StepKeepsInv(c, s, steps[0]);
      SkipKeepsWaiting(c, s, steps[0]);
      SkippedRoundStalls(c, Apply(c, s, steps[0]), steps[1..], s');
    }
  }

  /** One strategy, skipped in the first round. */
  lemma SkipIsReachable(c: Config, s: State)
    requires c == Config(1, 1, 1.0, 0.0)
    requires s == Initial(c, 0.0).(main := Sleeping, count := 1, skipped := 1)
    ensures Reaches(c, Initial(c, 0.0), [Begin, Skip, CallWait, MainLock, Test], s)
  {
    var s0 := Initial(c, 0.0);
    var s1 := Apply(c, s0, Begin);
    var s2 := Apply(c, s1, Skip);
    var s3 := Apply(c, s2, CallWait);
    var s4 := Apply(c, s3, MainLock);
    assert Reaches(c, s, [], s);
    assert Reaches(c, s4, [Test], s);
    assert Reaches(c, s3, [MainLock, Test], s);
    assert Reaches(c, s2, [CallWait, MainLock, Test], s);
    assert Reaches(c, s1, [Skip, CallWait, MainLock, Test], s);
  }

  /** A run that stalls: whatever the threads do after that skip, the main thread waits at time 0. */
  lemma SkipStallsARun(c: Config, s: State)
    requires c == Config(1, 1, 1.0, 0.0)
    requires s == Initial(c, 0.0).(main := Sleeping, count := 1, skipped := 1)
    ensures Reachable(c, 0.0, s)
    ensures forall steps: seq<Step>, s': State :: Reaches(c, s, steps, s') ==> Waiting(s'.main) && s'.curTs == 0.0
  {
    SkipIsReachable(c, s);
    ReachableInv(c, 0.0, s);
    forall steps: seq<Step>, s': State | Reaches(c, s, steps, s') ensures Waiting(s'.main) && s'.curTs == 0.0 {
      SkippedRoundStalls(c, s, steps, s');
    }
  }

  function Distance(x: Worker): nat {
    match x
    case Idle => 0
    case Counted(_) => 3
    case Locked(_) => 4
    case Finishing(_) => 5
    case Processing(_) => 6
  }

  function MainDistance(m: Main): nat {
    if m.Acquiring? then 2 else if m.Testing? then 1 else 0
  }

  function Measure(s: State): nat {
    7 * |s.queue| + Sum(s.workers, Distance) + MainDistance(s.main)
  }

  /** While main waits, every step brings the end of the round closer, but for polls and spurious
      wake-ups. */
  lemma StepsApproachTheEnd(c: Config, s: State, step: Step)
    requires Inv(c, s) && Waiting(s.main) && Enabled(c, s, step) && !step.SpuriousWake? && !step.Poll?
    ensures Measure(Apply(c, s, step)) < Measure(s)
    ensures Apply(c, s, step).main.Opened? || (Waiting(Apply(c, s, step).main) && Apply(c, s, step).skipped == s.skipped)
    ensures Apply(c, s, step).curTs == s.curTs && Apply(c, s, step).submitted == s.submitted
  {
    hide Sum, Inside;
    if MovesWorker(step) {
      SumUpdate(s.workers, step.w, Apply(c, s, step).workers[step.w], Distance);
    }
  }

  /** What is left for the workers to do: it does not see the main thread, so waking up does not renew
      it. */
  function WorkLeft(s: State): nat { 7 * |s.queue| + Sum(s.workers, Distance) }

  predicate IsWork(step: Step) { MovesWorker(step) && !step.Poll? }

  function WorkSteps(steps: seq<Step>): nat {
    if steps == [] then 0 else (if IsWork(steps[0]) then 1 else 0) + WorkSteps(steps[1..])
  }

  lemma WorkGoesDown(c: Config, s: State, step: Step)
    requires Inv(c, s) && Waiting(s.main) && Enabled(c, s, step)
    ensures WorkLeft(Apply(c, s, step)) + (if IsWork(step) then 1 else 0) <= WorkLeft(s)
    ensures Apply(c, s, step).main.Opened? || Waiting(Apply(c, s, step).main)
  {
    hide Sum, Inside;
    if MovesWorker(step) {
      SumUpdate(s.workers, step.w, Apply(c, s, step).workers[step.w], Distance);
    }
  }

  /** Main waits at every step of the run. */
  predicate StillWaiting(c: Config, s: State, steps: seq<Step>)
    decreases |steps|
  {
    steps != [] ==>
      Waiting(s.main) && (Enabled(c, s, steps[0]) ==> StillWaiting(c, Apply(c, s, steps[0]), steps[1..]))
  }

  /** As long as main waits, the workers take no more steps than there is work left, however the threads
      interleave and however often main wakes up or a worker polls. */
  lemma {:induction false} WorkIsBounded(c: Config, s: State, steps: seq<Step>, s': State)
    requires Inv(c, s) && Reaches(c, s, steps, s') && StillWaiting(c, s, steps)
    ensures WorkLeft(s') + WorkSteps(steps) <= WorkLeft(s)
    decreases |steps|
  {
    hide Inv, WorkLeft, Enabled, Apply, IsWork;
    if steps != [] {
      StepKeepsInv(c, s, steps[0]);
      WorkGoesDown(c, s, steps[0]);
      WorkIsBounded(c, Apply(c, s, steps[0]), steps[1..], s');
    }
  }

  /** While main waits on a round without skips, some thread can take such a step. */
  lemma SomeoneCanStep(c: Config, s: State) returns (step: Step)
    requires Inv(c, s) && Waiting(s.main) && s.skipped == 0 && c.workers >= 1
    ensures Enabled(c, s, step) && !step.SpuriousWake? && !step.Poll?
  {
    hide Sum, Inside;
    match s.lock
    case ByMain => step := Test;
    case ByWorker(w) =>
      assert Holds(s, w);
      step := if s.workers[w].Locked? then Decrement(w) else Release(w);
    case Free =>
      if s.main.Acquiring? {
        step := MainLock;
      } else if w: nat :| w < |s.workers| && !s.workers[w].Idle? {
        assert !Holds(s, w);
        step := if s.workers[w].Processing? then Process(w) else Lock(w);
      } else {
        SumZero(s.workers, Owed);
        step := Pop(0);
      }
  }

  lemma {:induction false} RoundEnds(c: Config, s: State) returns (steps: seq<Step>, s': State)
    requires Inv(c, s) && Waiting(s.main) && s.skipped == 0 && c.workers >= 1
    ensures Reaches(c, s, steps, s') && s'.main.Opened? && s'.curTs == s.curTs && s'.submitted == s.submitted
    decreases Measure(s)
  {
    hide Inv, Measure, Enabled, Apply;
    var step := SomeoneCanStep(c, s);
    var t := Apply(c, s, step);
    StepKeepsInv(c, s, step);
    StepsApproachTheEnd(c, s, step);
    if t.main.Opened? {
      steps, s' := [step], t;
      assert [step][1..] == [];
      assert Reaches(c, t, [], t);
    } else {
      var rest;
      rest, s' := RoundEnds(c, t);
      steps := [step] + rest;
      assert steps[1..] == rest;
    }
  }

  /** Once all strategies have been visited, the barrier can open iff none of them was skipped. */
  lemma BarrierOpensIff(c: Config, fromTs: real, s: State)
    requires Reachable(c, fromTs, s) && Waiting(s.main) && c.workers >= 1
    ensures (exists steps: seq<Step>, s': State :: Reaches(c, s, steps, s') && s'.main.Opened?) <==> s.skipped == 0
  {
    ReachableInv(c, fromTs, s);
    if s.skipped == 0 {
      var steps, s' := RoundEnds(c, s);
    } else {
      forall steps: seq<Step>, s': State | Reaches(c, s, steps, s') ensures !s'.main.Opened? {
        SkippedRoundStalls(c, s, steps, s');
      }
    }
  }

  /** Apart from spurious wake-ups only the last thread wakes the main one: at that moment every job of the
      round was processed, the queue is empty and every other thread idle. */
  lemma WokenByTheLast(c: Config, fromTs: real, s: State, step: Step)
    requires Reachable(c, fromTs, s) && s.main.Sleeping? && Enabled(c, s, step)
    requires !step.SpuriousWake? && !Apply(c, s, step).main.Sleeping?
    ensures s.queue == [] && s.popped == s.submitted && s.processed == multiset(s.submitted)
    ensures forall w :: 0 <= w < |s.workers| && !s.workers[w].Idle? ==> step == Release(w)
  {
    ReachableInv(c, fromTs, s);
    hide Reachable, RoundJobs, HeldJobs;
    assert step.Release? && s.count <= 0;
    NoneOwed(s.workers);
    assert Holds(s, step.w);
    forall w | 0 <= w < |s.workers| && !s.workers[w].Idle? ensures step == Release(w) {
      assert Holds(s, w);
    }
    assert s.processed + multiset{} == multiset(s.popped);
  }

  lemma {:induction false} NoneOwed(ws: seq<Worker>)
    requires Sum(ws, Owed) == 0
    ensures forall w :: 0 <= w < |ws| ==> ws[w].Idle? || ws[w].Counted?
    ensures Inside(ws) == multiset{}
  {
    if ws != [] {
      NoneOwed(ws[..|ws| - 1]);
      assert forall w :: 0 <= w < |ws| - 1 ==> ws[w] == ws[..|ws| - 1][w];
    }
  }
}
