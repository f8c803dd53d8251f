/** The simulated time of a backtest: after k rounds it is k time steps past the start, round after round up to
    the end of the range, and each job carries the time of its round. */
module BacktestClock {
  import opened Arithmetic
  import opened WorkerPool

  /** The rounds completed along a run. */
  function Rounds(steps: seq<Step>): nat {
    if steps == [] then 0 else (if steps[0].Advance? then 1 else 0) + Rounds(steps[1..])
  }

  /** The time of a round, the first one being round 0. */
  function TimeOf(c: Config, fromTs: real, k: nat): real { fromTs + k as real * c.timestep }

  /** A job is for the time of its round, `strategies` jobs making one round. */
  predicate OnTime(c: Config, fromTs: real, s: State, j: nat)
    requires j < |s.submitted|
  {
    c.strategies > 0
    && s.submitted[j].timestamp == TimeOf(c, fromTs, j / c.strategies)
    && s.submitted[j].timestamp <= c.toTs
  }

  /** `k` rounds are complete, and have submitted all strategies each. */
  ghost predicate Clocked(c: Config, fromTs: real, s: State, k: nat) {
    && s.curTs == TimeOf(c, fromTs, k)
    && (InRound(s.main) ==> s.curTs <= c.toTs && s.roundStart == k * c.strategies)
    && (s.main.Opened? ==> |s.submitted| == k * c.strategies + c.strategies)
    && (!InRound(s.main) ==> |s.submitted| == k * c.strategies)
    && forall j: nat :: j < |s.submitted| ==> OnTime(c, fromTs, s, j)
  }

  lemma RoundLength(k: nat, n: nat)
    ensures (k + 1) * n == k * n + n
  {
  }

  lemma TimeMoves(c: Config, fromTs: real, k: nat)
    ensures TimeOf(c, fromTs, k + 1) == TimeOf(c, fromTs, k) + c.timestep
  {
    assert (k + 1) as real * c.timestep == k as real * c.timestep + c.timestep;
  }

  lemma SubmitClocked(c: Config, fromTs: real, s: State, k: nat)
    requires Inv(c, s) && Clocked(c, fromTs, s, k) && Enabled(c, s, Submit)
    ensures Clocked(c, fromTs, Apply(c, s, Submit), k)
  {
    hide Accounting, Histories, Locking, HeldJobs, TimeOf;
    var s', n := Apply(c, s, Submit), |s.submitted|;
    assert n - s.roundStart < c.strategies;
    QuotientUnique(n, c.strategies, k);
    forall j: nat | j < |s'.submitted| ensures OnTime(c, fromTs, s', j) {
      if j < n {
        assert OnTime(c, fromTs, s, j) && s'.submitted[j] == s.submitted[j];
      }
    }
  }

  lemma TestClocked(c: Config, fromTs: real, s: State, k: nat)
    requires Inv(c, s) && Clocked(c, fromTs, s, k) && Enabled(c, s, Test)
    ensures Clocked(c, fromTs, Apply(c, s, Test), k)
  {
    hide Inside, Histories, HeldJobs, TimeOf, OnTime;
    if s.count <= 0 { AllIdle(c, s); }
    assert forall j: nat :: j < |s.submitted| ==> OnTime(c, fromTs, s, j);
    SameJobs(c, fromTs, s, Apply(c, s, Test));
  }

  lemma SameJobs(c: Config, fromTs: real, s: State, s': State)
    requires s'.submitted == s.submitted && forall j: nat :: j < |s.submitted| ==> OnTime(c, fromTs, s, j)
    ensures forall j: nat :: j < |s'.submitted| ==> OnTime(c, fromTs, s', j)
  {
    forall j: nat | j < |s'.submitted| ensures OnTime(c, fromTs, s', j) {
      assert OnTime(c, fromTs, s, j);
    }
  }

  lemma StepClocked(c: Config, fromTs: real, s: State, step: Step, k: nat)
    requires Inv(c, s) && Clocked(c, fromTs, s, k) && Enabled(c, s, step)
    ensures Clocked(c, fromTs, Apply(c, s, step), k + if step.Advance? then 1 else 0)
  {
    if step.Submit? {
      SubmitClocked(c, fromTs, s, k);
    } else if step.Test? {
      TestClocked(c, fromTs, s, k);
    } else {
      hide Inv, TimeOf, OnTime;
      RoundLength(k, c.strategies);
      TimeMoves(c, fromTs, k);
      SameJobs(c, fromTs, s, Apply(c, s, step));
    }
  }

  lemma {:induction false} RunClocked(c: Config, fromTs: real, s: State, steps: seq<Step>, s': State, k: nat)
    requires Inv(c, s) && Clocked(c, fromTs, s, k) && Reaches(c, s, steps, s')
    ensures Clocked(c, fromTs, s', k + Rounds(steps))
    decreases |steps|
  {
    hide Inv, Clocked, Enabled, Apply;
    if steps != [] {
      StepKeepsInv(c, s, steps[0]);
      StepClocked(c, fromTs, s, steps[0], k);
      RunClocked(c, fromTs, Apply(c, s, steps[0]), steps[1..], s', k + if steps[0].Advance? then 1 else 0);
    }
  }

  lemma ClockedInitially(c: Config, fromTs: real)
    ensures Clocked(c, fromTs, Initial(c, fromTs), 0)
  {
  }

  lemma ReachedClocked(c: Config, fromTs: real, steps: seq<Step>, s: State)
    requires Reaches(c, Initial(c, fromTs), steps, s)
    ensures Clocked(c, fromTs, s, Rounds(steps))
  {
    hide Inv, Enabled, Apply, Clocked;
    InvInitially(c, fromTs);
    ClockedInitially(c, fromTs);
    RunClocked(c, fromTs, Initial(c, fromTs), steps, s, 0);
  }

  /** In every run, in any interleaving, the time is as many steps past the start as rounds were completed, and
      inside a round it is not past the end of the range. */
  lemma TimeIsRounds(c: Config, fromTs: real, steps: seq<Step>, s: State)
    requires Reaches(c, Initial(c, fromTs), steps, s)
    ensures s.curTs == fromTs + Rounds(steps) as real * c.timestep
    ensures InRound(s.main) ==> s.curTs <= c.toTs
  {
    hide Reaches, OnTime;
    ReachedClocked(c, fromTs, steps, s);
  }

  /** Every job ever submitted carries the time of its round, `strategies` jobs making one round. */
  lemma JobsCarryTheirRound(c: Config, fromTs: real, s: State, j: nat)
    requires Reachable(c, fromTs, s) && j < |s.submitted|
    ensures c.strategies > 0
            && s.submitted[j].timestamp == fromTs + (j / c.strategies) as real * c.timestep <= c.toTs
  {
    hide Reaches;
    var steps: seq<Step> :| Reaches(c, Initial(c, fromTs), steps, s);
    ReachedClocked(c, fromTs, steps, s);
    assert OnTime(c, fromTs, s, j);
    OnTimeIs(c, fromTs, s, j);
  }

  lemma OnTimeIs(c: Config, fromTs: real, s: State, j: nat)
    requires j < |s.submitted| && OnTime(c, fromTs, s, j)
    ensures c.strategies > 0
            && s.submitted[j].timestamp == fromTs + (j / c.strategies) as real * c.timestep <= c.toTs
  {
  }

  // ---- Every round up to the end of the range can run ----

  lemma {:induction false} ReachesOn(c: Config, s: State, xs: seq<Step>, t: State, ys: seq<Step>, u: State)
    requires Reaches(c, s, xs, t) && Reaches(c, t, ys, u)
    ensures Reaches(c, s, xs + ys, u)
    decreases |xs|
  {
    hide Enabled, Apply;
    if xs == [] {
      assert xs + ys == ys;
    } else {
      assert (xs + ys)[1..] == xs[1..] + ys;
      ReachesOn(c, Apply(c, s, xs[0]), xs[1..], t, ys, u);
    }
  }

  lemma OneStep(c: Config, s: State, step: Step)
    requires Enabled(c, s, step)
    ensures Reaches(c, s, [step], Apply(c, s, step))
  {
    hide Enabled, Apply;
    assert [step][1..] == [];
  }

  lemma {:induction false} VisitAll(c: Config, s: State) returns (steps: seq<Step>, s': State)
    requires Inv(c, s) && s.main.Visiting? && s.main.i <= c.strategies && s.skipped == 0
    ensures Reaches(c, s, steps, s') && s'.main.Acquiring? && s'.skipped == 0 && s'.curTs == s.curTs
    ensures |s'.submitted| == |s.submitted| + (c.strategies - s.main.i)
    decreases c.strategies - s.main.i
  {
    var step := if s.main.i < c.strategies then Submit else CallWait;
    var t := Apply(c, s, step);
    OneStep(c, s, step);
    StepKeepsInv(c, s, step);
    if step.Submit? {
      hide Inv;
      var rest;
      rest, s' := VisitAll(c, t);
      steps := [step] + rest;
      ReachesOn(c, s, [step], t, rest, s');
    } else {
      steps, s' := [step], t;
    }
  }

  lemma OneRound(c: Config, s: State) returns (steps: seq<Step>, s': State)
    requires Inv(c, s) && s.main.AtTop? && s.curTs <= c.toTs && c.workers >= 1
    ensures Reaches(c, s, steps, s') && s'.main.AtTop? && s'.curTs == s.curTs + c.timestep
    ensures |s'.submitted| == |s.submitted| + c.strategies
  {
    hide Inv;
    var begun := Apply(c, s, Begin);
    OneStep(c, s, Begin);
    StepKeepsInv(c, s, Begin);
    var visits, visited := VisitAll(c, begun);
    InvReachable(c, begun, visits, visited);
    var waits, past := RoundEnds(c, visited);
    s' := Apply(c, past, Advance);
    OneStep(c, past, Advance);
    hide Apply, Enabled, Reaches;
    ReachesOn(c, s, [Begin], begun, visits, visited);
    ReachesOn(c, s, [Begin] + visits, visited, waits, past);
    ReachesOn(c, s, [Begin] + visits + waits, past, [Advance], s');
    steps := [Begin] + visits + waits + [Advance];
  }

  lemma {:induction false} RunRounds(c: Config, fromTs: real, k: nat) returns (steps: seq<Step>, s: State)
    requires c.workers >= 1 && forall i: nat :: i < k ==> TimeOf(c, fromTs, i) <= c.toTs
    ensures Reaches(c, Initial(c, fromTs), steps, s) && s.main.AtTop?
    ensures s.curTs == TimeOf(c, fromTs, k) && |s.submitted| == k * c.strategies
  {
    hide Inv;
    InvInitially(c, fromTs);
    var s0 := Initial(c, fromTs);
    if k == 0 {
      steps, s := [], s0;
    } else {
      hide TimeOf, Reaches, Apply, Enabled;
      TimeMoves(c, fromTs, k - 1);
      RoundLength(k - 1, c.strategies);
      var before, t := RunRounds(c, fromTs, k - 1);
      InvReachable(c, s0, before, t);
      var round;
      round, s := OneRound(c, t);
      ReachesOn(c, s0, before, t, round, s);
      steps := before + round;
    }
  }

  /** When the first `k` rounds begin in the range, some schedule runs them all: time and jobs follow,
      and the run can then stop, or go on while the time is in the range. */
  lemma RoundsCanRun(c: Config, fromTs: real, k: nat) returns (steps: seq<Step>, s: State)
    requires c.workers >= 1 && forall i: nat :: i < k ==> TimeOf(c, fromTs, i) <= c.toTs
    ensures Reaches(c, Initial(c, fromTs), steps, s) && s.main.AtTop?
    ensures s.curTs == fromTs + k as real * c.timestep && |s.submitted| == k * c.strategies
    ensures Enabled(c, s, Stop) && (Enabled(c, s, Begin) <==> fromTs + k as real * c.timestep <= c.toTs)
  {
    hide Reaches;
    steps, s := RunRounds(c, fromTs, k);
  }
}
