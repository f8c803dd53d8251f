/** When two-stage aggregation agrees with one stage, exactly: a condition on the times of the accepted
    ticks alone. */
module OhlcEpoch {
  import opened Basics
  import opened OhlcGeneration
  import opened OhlcGrid
  import opened OhlcCascade
  import opened OhlcWindows

  // ---- How many candles a run has ended ----

  /** All ticks share the window of the first, or lie in the windows of the first and the last. */
  predicate OneWindowOf(tf: int, acc: seq<Live>)
    requires Supported(tf)
  {
    forall i :: 0 <= i < |acc| ==> Window(tf, acc[i]) == Window(tf, acc[0])
  }

  predicate TwoWindowsOf(tf: int, acc: seq<Live>)
    requires Supported(tf)
  {
    forall i :: 0 <= i < |acc| ==> Window(tf, acc[i]) == Window(tf, acc[0]) || Window(tf, acc[i]) == Window(tf, Last(acc))
  }

  /** The windows never go back, and the current candle of the run is that of the last tick. */
  ghost predicate Counted(tf: int, acc: seq<Live>, r: Run)
    requires OnGrid(tf)
  {
    && Ascending(tf, acc)
    && r.final.last == LastAccepted(acc)
    && (r.final.current.None? <==> acc == [])
    && (acc != [] ==> CurrentAt(tf, r.final.current.value, Last(acc).timestamp))
    && (r.emitted == [] <==> OneWindowOf(tf, acc))
    && (|r.emitted| <= 1 <==> TwoWindowsOf(tf, acc))
  }

  predicate Ascending(tf: int, acc: seq<Live>)
    requires Supported(tf)
  {
    forall i :: 0 <= i < |acc| ==> Window(tf, acc[0]) <= Window(tf, acc[i]) <= Window(tf, Last(acc))
  }

  lemma WindowsAfter(tf: int, acc: seq<Live>, t: Live)
    requires Supported(tf) && acc != [] && Ascending(tf, acc) && Window(tf, Last(acc)) <= Window(tf, t)
    ensures Ascending(tf, acc + [t])
    ensures var changes := Window(tf, Last(acc)) != Window(tf, t);
            && (OneWindowOf(tf, acc + [t]) <==> OneWindowOf(tf, acc) && !changes)
            && (TwoWindowsOf(tf, acc + [t]) <==> if changes then OneWindowOf(tf, acc) else TwoWindowsOf(tf, acc))
  {
    hide Window, Supported;
    var after := acc + [t];
    assert after[|acc|] == t && forall i :: 0 <= i < |acc| ==> after[i] == acc[i];
    assert OneWindowOf(tf, after) ==> Window(tf, after[|acc|]) == Window(tf, after[0]) && Window(tf, after[|acc| - 1]) == Window(tf, after[0]);
    assert OneWindowOf(tf, after) ==> OneWindowOf(tf, acc) by {
      assert forall i :: 0 <= i < |acc| ==> Window(tf, acc[i]) == Window(tf, after[i]);
    }
    if TwoWindowsOf(tf, after) {
      assert forall i :: 0 <= i < |acc| ==> Window(tf, acc[i]) == Window(tf, after[i]);
    }
  }

  lemma CountStep(tf: int, acc: seq<Live>, r: Run, t: Live)
    requires OnGrid(tf) && Counted(tf, acc, r) && t.timestamp > LastAccepted(acc)
    ensures var x := StepTick(tf, r.final, t);
            Counted(tf, acc + [t], Run(x.next, Emit(r.emitted, x.ended)))
  {
    hide BaseTime;
    if acc != [] {
      hide OneWindowOf, TwoWindowsOf, Ascending;
      ClosingIsChangeOfWindow(tf, Last(acc).timestamp, t.timestamp);
      BaseTimeMonotone(tf, Last(acc), t);
      WindowsAfter(tf, acc, t);
    }
  }

  lemma {:induction false} RunCounts(tf: int, ticks: seq<Tick>)
    requires OnGrid(tf)
    ensures Counted(tf, Accepted(ticks), RunTicks(tf, INITIAL, ticks))
  {
    if ticks != [] {
      hide Counted, BaseTime, OnGrid, Advance;
      var front, t := Front(ticks), Last(ticks);
      RunCounts(tf, front);
      var acc, r := Accepted(front), RunTicks(tf, INITIAL, front);
      LastOfCounted(tf, acc, r);
      if t.timestamp <= LastAccepted(acc) {
        Rejected(tf, r.final, t);
      } else {
        CountStep(tf, acc, r, t);
      }
    }
  }

  lemma LastOfCounted(tf: int, acc: seq<Live>, r: Run)
    requires OnGrid(tf) && Counted(tf, acc, r)
    ensures r.final.last == LastAccepted(acc) >= 0 && Supported(tf)
  {
  }

  // ---- What the second stage makes of the ended small candles, when it misses the first ----

  /** The tick lies neither in the first nor in the last small window. */
  predicate Inner(fromTf: int, acc: seq<Live>, i: nat)
    requires Supported(fromTf)
  {
    i < |acc| && Window(fromTf, acc[i]) != Window(fromTf, acc[0]) && Window(fromTf, acc[i]) != Window(fromTf, Last(acc))
  }

  predicate NoInner(fromTf: int, acc: seq<Live>)
    requires Supported(fromTf)
  {
    forall i: nat :: i < |acc| ==> !Inner(fromTf, acc, i)
  }

  predicate Furthest(fromTf: int, acc: seq<Live>, j: nat)
    requires Supported(fromTf)
  {
    Inner(fromTf, acc, j) && forall i: nat :: j < i < |acc| ==> !Inner(fromTf, acc, i)
  }

  lemma {:induction false} FurthestExists(fromTf: int, acc: seq<Live>, i: nat) returns (j: nat)
    requires Supported(fromTf) && Inner(fromTf, acc, i)
    ensures Furthest(fromTf, acc, j)
    decreases |acc| - i
  {
    if k: nat :| i < k < |acc| && Inner(fromTf, acc, k) {
      j := FurthestExists(fromTf, acc, k);
    } else {
      j := i;
    }
  }

  /** The inner ticks all lie in the large window of tick `j`. */
  predicate InnerTogether(fromTf: int, toTf: int, acc: seq<Live>, j: nat)
    requires Supported(fromTf) && Supported(toTf) && j < |acc|
  {
    forall i: nat :: i < |acc| && Inner(fromTf, acc, i) ==> Window(toTf, acc[i]) == Window(toTf, acc[j])
  }

  /** The second stage has seen the small windows of the inner ticks, and no others. */
  ghost predicate Fed(fromTf: int, toTf: int, acc: seq<Live>, b: CandleRun)
    requires OnGrid(fromTf) && OnGrid(toTf)
  {
    && !b.failed && b.run.final.last >= 0
    && (NoInner(fromTf, acc) ==> b.run == Run(INITIAL, []))
    && (forall j: nat :: Furthest(fromTf, acc, j) ==>
                    && b.run.final.current.Some? && b.run.final.last == Window(fromTf, acc[j])
                    && CurrentAt(toTf, b.run.final.current.value, b.run.final.last)
                    && (b.run.emitted == [] <==> InnerTogether(fromTf, toTf, acc, j)))
  }

  /** A tick in the window of the last one makes no tick inner. */
  lemma FedInside(fromTf: int, toTf: int, acc: seq<Live>, b: CandleRun, t: Live)
    requires OnGrid(fromTf) && OnGrid(toTf) && acc != [] && Fed(fromTf, toTf, acc, b)
    requires Window(fromTf, t) == Window(fromTf, Last(acc))
    ensures Fed(fromTf, toTf, acc + [t], b)
  {
    hide Window;
    var after := acc + [t];
    assert forall i: nat :: i < |acc| ==> after[i] == acc[i];
    assert Last(after) == t && after[|acc|] == t;
    assert forall i: nat :: i < |after| ==> (Inner(fromTf, after, i) <==> i < |acc| && Inner(fromTf, acc, i));
    assert NoInner(fromTf, after) ==> NoInner(fromTf, acc) by {
      assert forall i: nat :: i < |acc| && Inner(fromTf, acc, i) ==> Inner(fromTf, after, i);
    }
    forall j: nat | Furthest(fromTf, after, j)
      ensures Furthest(fromTf, acc, j)
      ensures InnerTogether(fromTf, toTf, after, j) <==> InnerTogether(fromTf, toTf, acc, j)
    {
      assert forall i: nat :: i < |acc| && Inner(fromTf, acc, i) ==> Inner(fromTf, after, i);
    }
  }

  /** Which ticks are inner once the last small window has ended. */
  lemma InnerAfter(fromTf: int, acc: seq<Live>, t: Live)
    requires OnGrid(fromTf) && acc != [] && Ascending(fromTf, acc) && Window(fromTf, Last(acc)) < Window(fromTf, t)
    ensures var after := acc + [t];
            forall i: nat :: i < |acc| ==>
              (Inner(fromTf, after, i) <==> Window(fromTf, acc[i]) != Window(fromTf, acc[0]))
              && after[i] == acc[i]
    ensures !Inner(fromTf, acc + [t], |acc|)
  {
    hide Window;
    var after := acc + [t];
    assert forall i: nat :: i < |acc| ==> after[i] == acc[i];
    assert after[|acc|] == t == Last(after);
  }

  /** The first small window ends: its candle starts at or before the epoch, and is ignored. */
  lemma FirstWindowIgnored(fromTf: int, toTf: int, acc: seq<Live>, b: CandleRun, t: Live, sc: Candle)
    requires OnGrid(fromTf) && OnGrid(toTf) && InEpochWindow(fromTf, acc) && Ascending(fromTf, acc) && Fed(fromTf, toTf, acc, b)
    requires Window(fromTf, Last(acc)) == Window(fromTf, acc[0]) < Window(fromTf, t)
    requires sc.timestamp == Window(fromTf, Last(acc)) && sc.ended && sc.timeframe == fromTf
    ensures StepCandle(fromTf, toTf, b.run.final, sc) == Ok(OhlcGeneration.Step(b.run.final, None))
    ensures Fed(fromTf, toTf, acc + [t], b)
  {
    hide Window;
    InnerAfter(fromTf, acc, t);
    assert NoInner(fromTf, acc) && NoInner(fromTf, acc + [t]);
  }

  /** A later small window ends: its candle is accepted, and closes the large one iff the large window
      changes. */
  lemma LaterWindowFed(fromTf: int, toTf: int, acc: seq<Live>, b: CandleRun, sc: Candle)
    requires Nested(fromTf, toTf) && InEpochWindow(fromTf, acc) && Ascending(fromTf, acc) && Fed(fromTf, toTf, acc, b)
    requires Window(fromTf, acc[0]) < Window(fromTf, Last(acc))
    requires sc.timestamp == Window(fromTf, Last(acc)) && sc.ended && sc.timeframe == fromTf
    ensures var r := StepCandle(fromTf, toTf, b.run.final, sc);
            && r.Ok? && r.value.next.current.Some? && r.value.next.last == sc.timestamp
            && CurrentAt(toTf, r.value.next.current.value, sc.timestamp)
            && (NoInner(fromTf, acc) ==> b.run.emitted == [] && r.value.ended.None?)
            && (forall j: nat :: Furthest(fromTf, acc, j) ==>
                            (r.value.ended.None? <==> Window(toTf, acc[j]) == Window(toTf, Last(acc))))
  {
    hide BaseTime;
    LaterWindowIsPositive(fromTf, acc[0], Last(acc));
    WindowsNest(fromTf, toTf, Last(acc).timestamp);
    if !NoInner(fromTf, acc) {
      var i: nat :| i < |acc| && Inner(fromTf, acc, i);
      var j := FurthestExists(fromTf, acc, i);
      LaterWindowIsPositive(fromTf, acc[0], acc[j]);
      WindowsNest(fromTf, toTf, acc[j].timestamp);
      ClosingIsChangeOfWindow(toTf, b.run.final.last, sc.timestamp);
      assert forall k: nat :: Furthest(fromTf, acc, k) ==> k == j;
    }
  }

  lemma LaterWindowIsPositive(fromTf: int, t: Live, u: Live)
    requires OnGrid(fromTf) && Window(fromTf, t) <= 0 && Window(fromTf, t) < Window(fromTf, u)
    ensures Window(fromTf, u) > 0
  {
    hide Shift, Slot;
    BaseTimeOnGrid(fromTf, t.timestamp);
    BaseTimeOnGrid(fromTf, u.timestamp);
    if u.timestamp <= t.timestamp {
      ClosingIsChangeOfWindow(fromTf, u.timestamp, t.timestamp);
    } else {
      ClosingIsChangeOfWindow(fromTf, t.timestamp, u.timestamp);
    }
  }

  /** Whether the inner ticks lie together once the last small window has joined them. */
  lemma TogetherAfter(fromTf: int, toTf: int, acc: seq<Live>, t: Live)
    requires Nested(fromTf, toTf) && acc != [] && Ascending(fromTf, acc)
    requires Window(fromTf, acc[0]) < Window(fromTf, Last(acc)) < Window(fromTf, t)
    ensures Furthest(fromTf, acc + [t], |acc| - 1)
    ensures var together := InnerTogether(fromTf, toTf, acc + [t], |acc| - 1);
            (NoInner(fromTf, acc) ==> together)
            && forall j: nat :: Furthest(fromTf, acc, j) ==>
                           (together <==> InnerTogether(fromTf, toTf, acc, j)
                                          && Window(toTf, acc[j]) == Window(toTf, Last(acc)))
  {
    hide Window, Ascending;
    InnerAfter(fromTf, acc, t);
    var after, n := acc + [t], |acc| - 1;
    forall i: nat | i < |acc| && Window(fromTf, acc[i]) == Window(fromTf, Last(acc))
      ensures Window(toTf, acc[i]) == Window(toTf, Last(acc))
    {
      SameLarge(fromTf, toTf, acc[i], Last(acc));
    }
    assert forall i: nat :: i < |after| && Inner(fromTf, after, i) ==>
                       i < |acc| && (Inner(fromTf, acc, i) || Window(fromTf, acc[i]) == Window(fromTf, Last(acc)));
    assert forall i: nat :: i < |acc| && Inner(fromTf, acc, i) ==> Inner(fromTf, after, i);
  }

  lemma SameLarge(fromTf: int, toTf: int, t: Live, u: Live)
    requires Nested(fromTf, toTf) && Window(fromTf, t) == Window(fromTf, u)
    ensures Window(toTf, t) == Window(toTf, u)
  {
    if t.timestamp <= u.timestamp {
      SameLargeWindow(fromTf, toTf, t.timestamp, u.timestamp);
    } else {
      SameLargeWindow(fromTf, toTf, u.timestamp, t.timestamp);
    }
  }

  lemma FedAcross(fromTf: int, toTf: int, acc: seq<Live>, b: CandleRun, t: Live, sc: Candle)
    requires Nested(fromTf, toTf) && InEpochWindow(fromTf, acc) && Ascending(fromTf, acc) && Fed(fromTf, toTf, acc, b)
    requires Window(fromTf, acc[0]) <= Window(fromTf, Last(acc)) < Window(fromTf, t)
    requires sc.timestamp == Window(fromTf, Last(acc)) && sc.ended && sc.timeframe == fromTf
    ensures var r := StepCandle(fromTf, toTf, b.run.final, sc);
            r.Ok? && Fed(fromTf, toTf, acc + [t], CandleRun(Run(r.value.next, Emit(b.run.emitted, r.value.ended)), false))
  {
    hide Window, Ascending, InnerTogether;
    if Window(fromTf, acc[0]) == Window(fromTf, Last(acc)) {
      FirstWindowIgnored(fromTf, toTf, acc, b, t, sc);
    } else {
      LaterWindowFed(fromTf, toTf, acc, b, sc);
      TogetherAfter(fromTf, toTf, acc, t);
      var after, n := acc + [t], |acc| - 1;
      assert after[n] == Last(acc);
      assert forall j: nat :: Furthest(fromTf, after, j) ==> j == n;
      assert !NoInner(fromTf, after);
      if !NoInner(fromTf, acc) {
        var i: nat :| i < |acc| && Inner(fromTf, acc, i);
        var j := FurthestExists(fromTf, acc, i);
      }
      hide StepCandle, Inner;
    }
  }

  lemma {:induction false} RunFed(fromTf: int, toTf: int, ticks: seq<Tick>)
    requires Nested(fromTf, toTf) && InEpochWindow(fromTf, Accepted(ticks))
    ensures Fed(fromTf, toTf, Accepted(ticks), RunCandles(fromTf, toTf, INITIAL, RunTicks(fromTf, INITIAL, ticks).emitted))
  {
    hide Fed, Advance, Absorb, BaseTime, StepCandle;
    var front, t := Front(ticks), Last(ticks);
    var acc, s := Accepted(front), RunTicks(fromTf, INITIAL, front);
    RunCounts(fromTf, front);
    if acc == [] {
      assert acc + [t] == [t];
      FirstTickFed(fromTf, toTf, s, t);
    } else {
      RunFed(fromTf, toTf, front);
      var b := RunCandles(fromTf, toTf, INITIAL, s.emitted);
      if t.timestamp <= LastAccepted(acc) {
        Rejected(fromTf, s.final, t);
      } else {
        ClosingIsChangeOfWindow(fromTf, Last(acc).timestamp, t.timestamp);
        BaseTimeMonotone(fromTf, Last(acc), t);
        NextTickFed(fromTf, toTf, acc, s, b, t);
      }
    }
  }

  lemma FirstTickFed(fromTf: int, toTf: int, s: Run, t: Live)
    requires Nested(fromTf, toTf) && Counted(fromTf, [], s) && s.final.last == 0
    ensures var x := StepTick(fromTf, s.final, t);
            Fed(fromTf, toTf, [t], RunCandles(fromTf, toTf, INITIAL, Emit(s.emitted, x.ended)))
  {
    hide BaseTime, Absorb;
    assert OneWindowOf(fromTf, []);
    assert NoInner(fromTf, [t]);
  }

  lemma NextTickFed(fromTf: int, toTf: int, acc: seq<Live>, s: Run, b: CandleRun, t: Live)
    requires Nested(fromTf, toTf) && InEpochWindow(fromTf, acc) && Counted(fromTf, acc, s)
    requires b == RunCandles(fromTf, toTf, INITIAL, s.emitted) && Fed(fromTf, toTf, acc, b)
    requires t.timestamp > LastAccepted(acc) && Window(fromTf, Last(acc)) <= Window(fromTf, t)
    requires Closes(fromTf, s.final.current, t.timestamp) <==> Window(fromTf, Last(acc)) != Window(fromTf, t)
    ensures var x := StepTick(fromTf, s.final, t);
            Fed(fromTf, toTf, acc + [t], RunCandles(fromTf, toTf, INITIAL, Emit(s.emitted, x.ended)))
  {
    hide Fed, BaseTime, Absorb, StepCandle, OneWindowOf, TwoWindowsOf;
    if Closes(fromTf, s.final.current, t.timestamp) {
      var sc := s.final.current.value.(ended := true);
      FedAcross(fromTf, toTf, acc, b, t, sc);
      FedHasNotFailed(fromTf, toTf, acc, b);
      FedOn(fromTf, toTf, s.emitted, sc);
    } else {
      FedInside(fromTf, toTf, acc, b, t);
    }
  }

  lemma FedHasNotFailed(fromTf: int, toTf: int, acc: seq<Live>, b: CandleRun)
    requires OnGrid(fromTf) && OnGrid(toTf) && Fed(fromTf, toTf, acc, b)
    ensures !b.failed
  {
  }

  // ---- The exact condition ----

  /** The accepted ticks lie in at most two large windows, and those outside the first and the last small
      window lie in one. */
  predicate TooFewToDiffer(fromTf: int, toTf: int, acc: seq<Live>)
    requires Supported(fromTf) && Supported(toTf)
  {
    TwoWindowsOf(toTf, acc)
    && forall i: nat, j: nat :: i < |acc| && j < |acc| && Inner(fromTf, acc, i) && Inner(fromTf, acc, j) ==>
                           Window(toTf, acc[i]) == Window(toTf, acc[j])
  }

  lemma NothingEmittedIff(fromTf: int, toTf: int, acc: seq<Live>, b: CandleRun)
    requires OnGrid(fromTf) && OnGrid(toTf) && Fed(fromTf, toTf, acc, b)
    ensures b.run.emitted == [] <==>
            forall i: nat, j: nat :: i < |acc| && j < |acc| && Inner(fromTf, acc, i) && Inner(fromTf, acc, j) ==>
                                Window(toTf, acc[i]) == Window(toTf, acc[j])
  {
    hide Window;
    if !NoInner(fromTf, acc) {
      var i: nat :| i < |acc| && Inner(fromTf, acc, i);
      var j := FurthestExists(fromTf, acc, i);
    }
  }

  /** Too few ticks to differ agree, whatever their volumes: the second stage emits nothing, and the direct
      run at most one candle. */
  lemma FewTicksAgree(fromTf: int, toTf: int, ticks: seq<Tick>)
    requires Nested(fromTf, toTf) && InEpochWindow(fromTf, Accepted(ticks))
    ensures var cascade := RunCandles(fromTf, toTf, INITIAL, RunTicks(fromTf, INITIAL, ticks).emitted);
            TooFewToDiffer(fromTf, toTf, Accepted(ticks))
            <==> cascade.run.emitted == [] && Agrees(fromTf, toTf, ticks)
  {
    var acc := Accepted(ticks);
    RunFed(fromTf, toTf, ticks);
    RunCounts(toTf, ticks);
    var cascade := RunCandles(fromTf, toTf, INITIAL, RunTicks(fromTf, INITIAL, ticks).emitted);
    NothingEmittedIff(fromTf, toTf, acc, cascade);
    FedHasNotFailed(fromTf, toTf, acc, cascade);
    hide Fed, RunTicks, RunCandles, InEpochWindow, Ascending;
  }

  /** Two-stage aggregation agrees with one stage if the first accepted tick lies past the small window of
      the epoch, or the ticks are too few for the second stage to emit anything; with positive volumes, only
      if so. The condition is about tick times only. */
  lemma CascadeAgreesIff(fromTf: int, toTf: int, ticks: seq<Tick>)
    requires Nested(fromTf, toTf)
    ensures var few := !InEpochWindow(fromTf, Accepted(ticks)) || TooFewToDiffer(fromTf, toTf, Accepted(ticks));
            (few ==> Agrees(fromTf, toTf, ticks)) && (PositiveVolumes(ticks) && Agrees(fromTf, toTf, ticks) ==> few)
  {
    hide RunTicks, RunCandles, InEpochWindow, TooFewToDiffer, PositiveVolumes;
    if InEpochWindow(fromTf, Accepted(ticks)) {
      FewTicksAgree(fromTf, toTf, ticks);
      if PositiveVolumes(ticks) {
        CascadeIsPrefixIff(fromTf, toTf, ticks);
      }
    } else {
      WeeksKeepTogether(fromTf, toTf, Accepted(ticks));
      CascadeAgreesWithDirect(fromTf, toTf, ticks);
    }
  }

  const HOUR := 3_600_000

  function TradeAt(minutes: nat): Tick { Tick(minutes * 60_000, 1.0, 1.0, 1.0) }

  /** Three ticks, the second in a large window of its own, the first in the epoch window: the second stage emits nothing. */
  lemma ThreeTicksDiffer(fromTf: int, toTf: int, ticks: seq<Live>)
    requires Nested(fromTf, toTf) && |ticks| == 3 && Increasing(ticks) && InEpochWindow(fromTf, ticks)
    requires Window(toTf, ticks[0]) != Window(toTf, ticks[1]) && Window(toTf, ticks[1]) != Window(toTf, ticks[2])
    ensures RunCandles(fromTf, toTf, INITIAL, RunTicks(fromTf, INITIAL, ticks).emitted).run.emitted == []
    ensures |RunTicks(toTf, INITIAL, ticks).emitted| >= 2
  {
    hide RunTicks, RunCandles, Fed, Accepted, Window;
    IncreasingAcceptedWhole(ticks);
    RunFed(fromTf, toTf, ticks);
    NothingEmittedIff(fromTf, toTf, ticks, RunCandles(fromTf, toTf, INITIAL, RunTicks(fromTf, INITIAL, ticks).emitted));
    RunCounts(toTf, ticks);
  }

  /** One trade half an hour after the epoch, then one every four hours: hours folded into four hours give
      no candle where the direct run gives at least two. */
  lemma EarlyTradesDiffer()
    ensures var ticks := [TradeAt(30), TradeAt(270), TradeAt(510)];
            var direct := RunTicks(4 * HOUR, INITIAL, ticks).emitted;
            var cascade := RunCandles(HOUR, 4 * HOUR, INITIAL, RunTicks(HOUR, INITIAL, ticks).emitted).run.emitted;
            cascade == [] && |direct| >= 2
  {
    hide RunTicks, RunCandles;
    SmallTimeframesNest(HOUR, 4 * HOUR);
    ThreeTicksDiffer(HOUR, 4 * HOUR, [TradeAt(30), TradeAt(270), TradeAt(510)]);
  }
}
