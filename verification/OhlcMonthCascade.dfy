/** Two-stage aggregation into candles by month, exactly: the direct run closes a candle at every tick of a
    31st, and the second stage sees only whole small candles. */
module OhlcMonthCascade {
  import opened Basics
  import opened Calendar
  import opened OhlcGeneration
  import opened OhlcGrid
  import opened OhlcWindows
  import opened OhlcCascade
  import opened OhlcEpoch

  // ---- After two ticks in one small window of a 31st ----

  /** The small candle with both ticks has not ended yet: the direct run has cut it in two or more, and ended
      the first part as its candle `k`. `n` ticks have been accepted. */
  ghost predicate Pending(fromTf: int, d: Run, sc: Candle, last: int, b: Run, k: nat, n: nat)
    requires Aligned(fromTf, MONTH) && last >= 0
  {
    && k < |d.emitted| && d.final.current.Some?
    && sc.volume > d.emitted[k].volume
    && Late(MONTH, last) && d.final.current.value.timestamp == MonthStart(last)
    && if b.final.current.None? then k == 0 && b.emitted == [] && |d.emitted| + 1 == n
       else |b.emitted| + 1 == k && Closes(MONTH, b.final.current, sc.timestamp) && n >= 3
  }

  /** It has been fed on: the second stage has, or has emitted, a candle `k` with more
      volume. */
  ghost predicate Joined(d: Run, b: Run, k: nat, n: nat) {
    && k < |d.emitted| && n >= 3
    && if |b.emitted| > k then b.emitted[k].volume > d.emitted[k].volume
       else |b.emitted| == k && b.final.current.Some? && b.final.current.value.volume > d.emitted[k].volume
            && |d.emitted| >= k + 2
  }

  ghost predicate Strayed(fromTf: int, d: Run, s: Run, b: CandleRun, k: nat, n: nat)
    requires Aligned(fromTf, MONTH)
  {
    && !b.failed && d.final.last == s.final.last >= 0 && b.run.final.last >= 0 && s.final.current.Some?
    && var sc := s.final.current.value;
       CurrentAt(fromTf, sc, s.final.last) && sc.timestamp > b.run.final.last && sc.volume > 0.0
       && (Joined(d, b.run, k, n) || Pending(fromTf, d, sc, s.final.last, b.run, k, n))
  }

  lemma LateCloses(fromTf: int, last: int, t: Live)
    requires Aligned(fromTf, MONTH) && 0 <= last < t.timestamp && Late(MONTH, last)
    ensures t.timestamp >= MonthStart(last) + MONTH
    ensures Window(fromTf, t) == BaseTime(fromTf, last) ==>
              Late(MONTH, t.timestamp) && MonthStart(t.timestamp) == MonthStart(last)
  {
    hide DateOf, MonthStart, BaseTime, OnSmallGrid;
    MonthOnSmallGrid(fromTf, last);
    MonthOnSmallGrid(fromTf, t.timestamp);
    if Window(fromTf, t) == BaseTime(fromTf, last) {
      SameDay(last, t.timestamp);
    }
  }

  lemma PendingInside(fromTf: int, d: Run, s: Run, b: CandleRun, k: nat, n: nat, t: Live)
    requires Aligned(fromTf, MONTH) && Strayed(fromTf, d, s, b, k, n) && t.volume > 0.0
    requires Pending(fromTf, d, s.final.current.value, s.final.last, b.run, k, n)
    requires Accepts(s.final, t) && !Closes(fromTf, s.final.current, t.timestamp)
    ensures var xd, xs := StepTick(MONTH, d.final, t), StepTick(fromTf, s.final, t);
            xs.ended.None?
            && Strayed(fromTf, Run(xd.next, Emit(d.emitted, xd.ended)), Run(xs.next, s.emitted), b, k, n + 1)
  {
    hide DateOf, MonthStart, OnSmallGrid, Shift;
    ClosingIsChangeOfWindow(fromTf, s.final.last, t.timestamp);
    LateCloses(fromTf, s.final.last, t);
  }

  lemma JoinedInside(fromTf: int, d: Run, s: Run, b: CandleRun, k: nat, n: nat, t: Live)
    requires Aligned(fromTf, MONTH) && Strayed(fromTf, d, s, b, k, n) && t.volume > 0.0
    requires Joined(d, b.run, k, n)
    requires Accepts(s.final, t) && !Closes(fromTf, s.final.current, t.timestamp)
    ensures var xd, xs := StepTick(MONTH, d.final, t), StepTick(fromTf, s.final, t);
            xs.ended.None?
            && Strayed(fromTf, Run(xd.next, Emit(d.emitted, xd.ended)), Run(xs.next, s.emitted), b, k, n + 1)
  {
    hide DateOf, MonthStart, BaseTime, Pending;
    ClosingIsChangeOfWindow(fromTf, s.final.last, t.timestamp);
  }

  /** The ended small candle reaches the second stage. */
  lemma PendingFed(fromTf: int, d: Run, s: Run, b: CandleRun, k: nat, n: nat, t: Live)
    requires Aligned(fromTf, MONTH) && Strayed(fromTf, d, s, b, k, n)
    requires Pending(fromTf, d, s.final.current.value, s.final.last, b.run, k, n)
    requires Accepts(s.final, t)
    ensures var xd := StepTick(MONTH, d.final, t);
            var r := StepCandle(fromTf, MONTH, b.run.final, s.final.current.value.(ended := true));
            r.Ok? && Joined(Run(xd.next, Emit(d.emitted, xd.ended)), Run(r.value.next, Emit(b.run.emitted, r.value.ended)),
                            k, n + 1)
  {
    hide DateOf, MonthStart, BaseTime;
    LateCloses(fromTf, s.final.last, t);
  }

  lemma JoinedFed(fromTf: int, d: Run, s: Run, b: CandleRun, k: nat, n: nat, t: Live)
    requires Aligned(fromTf, MONTH) && Strayed(fromTf, d, s, b, k, n) && d.final.last >= 0
    requires Joined(d, b.run, k, n)
    ensures var xd := StepTick(MONTH, d.final, t);
            var r := StepCandle(fromTf, MONTH, b.run.final, s.final.current.value.(ended := true));
            r.Ok? && Joined(Run(xd.next, Emit(d.emitted, xd.ended)), Run(r.value.next, Emit(b.run.emitted, r.value.ended)),
                            k, n + 1)
  {
    hide DateOf, MonthStart, BaseTime, Pending;
  }

  lemma StrayAcross(fromTf: int, d: Run, s: Run, b: CandleRun, k: nat, n: nat, t: Live)
    requires Aligned(fromTf, MONTH) && Strayed(fromTf, d, s, b, k, n) && t.volume > 0.0
    requires Accepts(s.final, t) && Closes(fromTf, s.final.current, t.timestamp)
    ensures var xd, xs := StepTick(MONTH, d.final, t), StepTick(fromTf, s.final, t);
            xs.ended == Some(s.final.current.value.(ended := true))
            && var r := StepCandle(fromTf, MONTH, b.run.final, xs.ended.value);
               r.Ok? && r.value.next.last >= 0
               && Strayed(fromTf, Run(xd.next, Emit(d.emitted, xd.ended)), Run(xs.next, Emit(s.emitted, xs.ended)),
                          CandleRun(Run(r.value.next, Emit(b.run.emitted, r.value.ended)), false), k, n + 1)
  {
    if Joined(d, b.run, k, n) {
      JoinedFed(fromTf, d, s, b, k, n, t);
    } else {
      PendingFed(fromTf, d, s, b, k, n, t);
    }
    hide DateOf, MonthStart, BaseTime, Pending, Joined;
    ClosingIsChangeOfWindow(fromTf, s.final.last, t.timestamp);
  }

  /** The second of two ticks in one small window of a 31st. */
  lemma StrayStarts(fromTf: int, d: Run, s: Run, b: CandleRun, t: Live, n: nat) returns (k: nat)
    requires Aligned(fromTf, MONTH) && InStep(fromTf, MONTH, d, s, b) && s.final.current.Some? && t.volume > 0.0
    requires s.final.current.value.volume > 0.0
    requires Accepts(s.final, t) && CutInside(fromTf, MONTH, s.final.last, t.timestamp)
    requires if b.run.final.current.None? then n == 1 else n >= 2
    ensures var xd, xs := StepTick(MONTH, d.final, t), StepTick(fromTf, s.final, t);
            xs.ended.None?
            && Strayed(fromTf, Run(xd.next, Emit(d.emitted, xd.ended)), Run(xs.next, s.emitted), b, k, n + 1)
  {
    hide DateOf, MonthStart, OnSmallGrid, Shift;
    var last, end := s.final.last, d.final.current.value.timestamp + MONTH;
    k := |d.emitted|;
    ClosingIsChangeOfWindow(fromTf, last, t.timestamp);
    LateCloses(fromTf, last, t);
    LargeStart(fromTf, MONTH, last);
    GridTest(fromTf, end, last);
  }

  // ---- Whole runs ----

  lemma {:induction false} CurrentHasVolume(tf: int, ticks: seq<Tick>)
    requires Supported(tf) && PositiveVolumes(ticks)
    ensures var r := RunTicks(tf, INITIAL, ticks).final;
            r.current.Some? ==> r.current.value.volume > 0.0
  {
    if ticks != [] {
      hide BaseTime;
      CurrentHasVolume(tf, Front(ticks));
    }
  }

  /** While no pair is cut, the second stage has seen nothing at a late tick iff that tick is the first. */
  lemma NothingFedIff(fromTf: int, ticks: seq<Tick>)
    requires Aligned(fromTf, MONTH) && Accepted(ticks) != [] && KeepsTogether(fromTf, MONTH, Accepted(ticks))
    requires Late(MONTH, LastAccepted(Accepted(ticks)))
    ensures RunTicks(fromTf, INITIAL, ticks).emitted == [] <==> |Accepted(ticks)| == 1
  {
    hide DateOf, BaseTime, RunTicks;
    var acc := Accepted(ticks);
    RunCounts(fromTf, ticks);
    if |acc| >= 2 && OneWindowOf(fromTf, acc) {
      var n: nat := |acc| - 2;
      AcceptedIncrease(ticks);
      assert acc[n].timestamp < acc[n + 1].timestamp && Window(fromTf, acc[n]) == Window(fromTf, acc[n + 1]);
      SameSmallSameDay(fromTf, acc[n], acc[n + 1]);
    }
  }

  lemma SameSmallSameDay(fromTf: int, t: Live, u: Live)
    requires Aligned(fromTf, MONTH) && t.timestamp <= u.timestamp && Window(fromTf, t) == Window(fromTf, u)
    ensures DateOf(t.timestamp) == DateOf(u.timestamp)
  {
    hide DateOf, MonthStart, BaseTime, OnSmallGrid;
    MonthOnSmallGrid(fromTf, t.timestamp);
    MonthOnSmallGrid(fromTf, u.timestamp);
    SameDay(t.timestamp, u.timestamp);
  }

  lemma KeepsNext(fromTf: int, acc: seq<Live>, t: Live)
    requires Aligned(fromTf, MONTH) && KeepsTogether(fromTf, MONTH, acc)
    requires acc == [] || !CutInside(fromTf, MONTH, Last(acc).timestamp, t.timestamp)
    ensures KeepsTogether(fromTf, MONTH, acc + [t])
  {
    hide CutInside;
    var after := acc + [t];
    forall i: nat | i + 1 < |after| ensures !CutInside(fromTf, MONTH, after[i].timestamp, after[i + 1].timestamp) {
      assert after[i] == acc[i];
      assert after[i + 1] == if i + 1 < |acc| then acc[i + 1] else t;
    }
  }

  lemma FirstCut(fromTf: int, front: seq<Tick>, t: Live, d: Run, s: Run, b: CandleRun) returns (k: nat)
    requires Aligned(fromTf, MONTH) && PositiveVolumes(front) && t.volume > 0.0
    requires !InEpochWindow(fromTf, Accepted(front)) && KeepsTogether(fromTf, MONTH, Accepted(front))
    requires Accepted(front) != [] && t.timestamp > LastAccepted(Accepted(front))
    requires CutInside(fromTf, MONTH, Last(Accepted(front)).timestamp, t.timestamp)
    requires d == RunTicks(MONTH, INITIAL, front) && s == RunTicks(fromTf, INITIAL, front)
    requires b == RunCandles(fromTf, MONTH, INITIAL, s.emitted)
    ensures d.final.last == s.final.last >= 0
    ensures var xd, xs := StepTick(MONTH, d.final, t), StepTick(fromTf, s.final, t);
            xs.ended.None?
            && Strayed(fromTf, Run(xd.next, Emit(d.emitted, xd.ended)), Run(xs.next, s.emitted), b, k, |Accepted(front)| + 1)
  {
    hide BaseTime, Advance, KeepsTogether, DateOf, RunTicks, LargeAt, Behind;
    PipelinesInStep(fromTf, MONTH, front);
    NothingFedIff(fromTf, front);
    CurrentHasVolume(fromTf, front);
    k := StrayStarts(fromTf, d, s, b, t, |Accepted(front)|);
  }

  lemma StrayNext(fromTf: int, d: Run, s: Run, b: CandleRun, k: nat, n: nat, t: Live)
    requires Aligned(fromTf, MONTH) && Strayed(fromTf, d, s, b, k, n) && t.volume > 0.0 && Accepts(s.final, t)
    requires b == RunCandles(fromTf, MONTH, INITIAL, s.emitted)
    ensures var xd, xs := StepTick(MONTH, d.final, t), StepTick(fromTf, s.final, t);
            Strayed(fromTf, Run(xd.next, Emit(d.emitted, xd.ended)), Run(xs.next, Emit(s.emitted, xs.ended)),
                    RunCandles(fromTf, MONTH, INITIAL, Emit(s.emitted, xs.ended)), k, n + 1)
  {
    StrayStep(fromTf, d, s, b, k, n, t);
    NotFailed(fromTf, d, s, b, k, n);
    hide BaseTime, Advance, Strayed, RunCandles, StepCandle;
    var ended := StepTick(fromTf, s.final, t).ended;
    if ended.Some? { FedOn(fromTf, MONTH, s.emitted, ended.value); }
  }

  lemma PositiveFront(ticks: seq<Tick>)
    requires ticks != [] && PositiveVolumes(ticks)
    ensures PositiveVolumes(Front(ticks)) && Last(ticks).volume > 0.0
  {
  }

  /** Keeping together ends at a tick that cuts the one before it off. */
  lemma CutAtEnd(fromTf: int, acc: seq<Live>, t: Live)
    requires Aligned(fromTf, MONTH) && KeepsTogether(fromTf, MONTH, acc) && !KeepsTogether(fromTf, MONTH, acc + [t])
    ensures acc != [] && CutInside(fromTf, MONTH, Last(acc).timestamp, t.timestamp)
  {
    hide KeepsTogether, CutInside;
    if acc == [] || !CutInside(fromTf, MONTH, Last(acc).timestamp, t.timestamp) { KeepsNext(fromTf, acc, t); }
  }

  lemma {:induction false} PipelinesStray(fromTf: int, ticks: seq<Tick>) returns (k: nat)
    requires Aligned(fromTf, MONTH) && !InEpochWindow(fromTf, Accepted(ticks)) && PositiveVolumes(ticks)
    requires !KeepsTogether(fromTf, MONTH, Accepted(ticks))
    ensures var d, s := RunTicks(MONTH, INITIAL, ticks), RunTicks(fromTf, INITIAL, ticks);
            Strayed(fromTf, d, s, RunCandles(fromTf, MONTH, INITIAL, s.emitted), k, |Accepted(ticks)|)
    decreases |ticks|
  {
    hide StepTick, KeepsTogether, Strayed, CutInside, RunTicks, RunCandles, Aligned, OnGrid, PositiveVolumes, InEpochWindow,
      Window, Accepted;
    AlignedTimeframes(fromTf, MONTH);
    TwoToCut(fromTf, Accepted(ticks));
    RunSnoc(MONTH, ticks);
    RunSnoc(fromTf, ticks);
    LastTick(fromTf, ticks);
    PositiveFront(ticks);
    var front, t := Front(ticks), Last(ticks);
    var acc := Accepted(front);
    var d, s := RunTicks(MONTH, INITIAL, front), RunTicks(fromTf, INITIAL, front);
    var b := RunCandles(fromTf, MONTH, INITIAL, s.emitted);
    FoldDescribesLast(MONTH, fromTf, front);
    if t.timestamp <= LastAccepted(acc) {
      k := PipelinesStray(fromTf, front);
      Rejected(MONTH, d.final, t);
      Rejected(fromTf, s.final, t);
    } else if KeepsTogether(fromTf, MONTH, acc) {
      CutAtEnd(fromTf, acc, t);
      k := FirstCut(fromTf, front, t, d, s, b);
    } else {
      k := PipelinesStray(fromTf, front);
      StrayNext(fromTf, d, s, b, k, |acc|, t);
    }
  }

  lemma TwoToCut(fromTf: int, acc: seq<Live>)
    requires Aligned(fromTf, MONTH) && !KeepsTogether(fromTf, MONTH, acc)
    ensures |acc| >= 2
  {
  }

  lemma NotFailed(fromTf: int, d: Run, s: Run, b: CandleRun, k: nat, n: nat)
    requires Aligned(fromTf, MONTH) && Strayed(fromTf, d, s, b, k, n)
    ensures !b.failed
  {
  }

  lemma FoldDescribesLast(tf: int, fromTf: int, ticks: seq<Tick>)
    requires Supported(tf) && Supported(fromTf)
    ensures RunTicks(tf, INITIAL, ticks).final.last == RunTicks(fromTf, INITIAL, ticks).final.last == LastAccepted(Accepted(ticks))
  {
    hide RunTicks, Accepted;
    FoldDescribesGroups(tf, ticks);
    FoldDescribesGroups(fromTf, ticks);
  }

  lemma StrayStep(fromTf: int, d: Run, s: Run, b: CandleRun, k: nat, n: nat, t: Live)
    requires Aligned(fromTf, MONTH) && Strayed(fromTf, d, s, b, k, n) && t.volume > 0.0 && Accepts(s.final, t)
    ensures var xd, xs := StepTick(MONTH, d.final, t), StepTick(fromTf, s.final, t);
            if xs.ended.None? then
              Strayed(fromTf, Run(xd.next, Emit(d.emitted, xd.ended)), Run(xs.next, s.emitted), b, k, n + 1)
            else
              var r := StepCandle(fromTf, MONTH, b.run.final, xs.ended.value);
              r.Ok? && r.value.next.last >= 0
              && Strayed(fromTf, Run(xd.next, Emit(d.emitted, xd.ended)), Run(xs.next, Emit(s.emitted, xs.ended)),
                         CandleRun(Run(r.value.next, Emit(b.run.emitted, r.value.ended)), false), k, n + 1)
  {
    hide BaseTime, Absorb, DateOf, Pending, Joined, CurrentAt, StepCandle;
    if Closes(fromTf, s.final.current, t.timestamp) {
      StrayAcross(fromTf, d, s, b, k, n, t);
    } else if Joined(d, b.run, k, n) {
      JoinedInside(fromTf, d, s, b, k, n, t);
    } else {
      PendingInside(fromTf, d, s, b, k, n, t);
    }
  }

  /** Strayed pipelines disagree from the third tick on. */
  lemma StrayedDisagree(fromTf: int, d: Run, s: Run, b: CandleRun, k: nat, n: nat)
    requires Aligned(fromTf, MONTH) && Strayed(fromTf, d, s, b, k, n) && n > 2
    ensures !(b.run.emitted <= d.emitted && |d.emitted| <= |b.run.emitted| + 1)
  {
    hide BaseTime, DateOf, MonthStart, CurrentAt;
  }

  lemma {:induction false} GroupsAreFewer(tf: int, acc: seq<Live>)
    requires Supported(tf)
    ensures |Groups(tf, acc)| <= |acc|
  {
    if acc != [] { GroupsAreFewer(tf, Front(acc)); }
  }

  lemma OneCandleEndsNone(fromTf: int, toTf: int, c: Candle)
    requires Supported(toTf) && c.ended && c.timeframe == fromTf
    ensures RunCandles(fromTf, toTf, INITIAL, [c]).run.emitted == [] && !RunCandles(fromTf, toTf, INITIAL, [c]).failed
  {
    hide BaseTime, Absorb;
    assert [c][..0] == [];
  }

  lemma OfTimeframe(tf: int, c: Candle, g: Group)
    requires Supported(tf) && Describes(tf, c, g)
    ensures c.timeframe == tf
  {
  }

  /** Up to two ticks end one candle at most, and one small candle ends none. */
  lemma TwoTicksAgree(fromTf: int, toTf: int, ticks: seq<Tick>)
    requires Supported(fromTf) && Supported(toTf) && |Accepted(ticks)| <= 2
    ensures Agrees(fromTf, toTf, ticks)
  {
    hide RunTicks, StepCandle, Window, Groups, Accepted, Describes;
    var s := RunTicks(fromTf, INITIAL, ticks);
    FoldDescribesGroups(fromTf, ticks);
    FoldDescribesGroups(toTf, ticks);
    GroupsAreFewer(fromTf, Accepted(ticks));
    GroupsAreFewer(toTf, Accepted(ticks));
    if s.emitted != [] {
      var c := s.emitted[0];
      assert Candles(s)[0] == c;
      OfTimeframe(fromTf, c, Groups(fromTf, Accepted(ticks))[0]);
      OneCandleEndsNone(fromTf, toTf, c);
      assert s.emitted == [c];
    }
  }

  /** From a first tick past the epoch window, small candles folded into months agree with ticks folded into
      months if no two successive ticks share a small window on a 31st, or no more than two ticks were accepted
      at all; with positive volumes, only if so. */
  lemma MonthCascadeAgreesIff(fromTf: int, ticks: seq<Tick>)
    requires Aligned(fromTf, MONTH) && !InEpochWindow(fromTf, Accepted(ticks))
    ensures var whole := KeepsTogether(fromTf, MONTH, Accepted(ticks)) || |Accepted(ticks)| <= 2;
            (whole ==> Agrees(fromTf, MONTH, ticks)) && (PositiveVolumes(ticks) && Agrees(fromTf, MONTH, ticks) ==> whole)
  {
    hide KeepsTogether, Strayed, RunTicks, RunCandles, InEpochWindow, PositiveVolumes;
    var acc := Accepted(ticks);
    if |acc| <= 2 {
      TwoTicksAgree(fromTf, MONTH, ticks);
    } else if KeepsTogether(fromTf, MONTH, acc) {
      CascadeAgreesWithDirect(fromTf, MONTH, ticks);
    } else if PositiveVolumes(ticks) {
      var k := PipelinesStray(fromTf, ticks);
      var d, s := RunTicks(MONTH, INITIAL, ticks), RunTicks(fromTf, INITIAL, ticks);
      var b := RunCandles(fromTf, MONTH, INITIAL, s.emitted);
      StrayedDisagree(fromTf, d, s, b, k, |acc|);
    }
  }

  // ---- The last day of January ----

  function Hourly(hours: nat): Tick { Tick(30 * DAY + hours * HOUR, 1.0, 1.0, 1.0) }

  lemma LastOfJanuary(t: Live)
    requires 30 * DAY <= t.timestamp < 31 * DAY
    ensures Window(MONTH, t) == 0 && Window(DAY, t) == 30 * DAY
  {
    hide Gday, Dft;
    DaysOf1970();
    DftInvertsGday(Date(1970, 1, 31));
    MonthStartIsFirstDay(t.timestamp);
    assert t.timestamp / DAY == 30;
  }

  /** Two trades on 31 January, and one a day later: the direct run has ended two candles of January, and days
      folded into months none. */
  lemma TwoCandlesOfJanuary()
    ensures var ticks := [Hourly(1), Hourly(2), Hourly(25)];
            var direct := RunTicks(MONTH, INITIAL, ticks).emitted;
            var cascade := RunCandles(DAY, MONTH, INITIAL, RunTicks(DAY, INITIAL, ticks).emitted).run.emitted;
            |direct| == 2 && direct[0].timestamp == direct[1].timestamp == 0 && cascade == []
  {
    hide RunTicks, BaseTime, StepCandle, RunCandles, Window;
    var t, u, v := Hourly(1), Hourly(2), Hourly(25);
    LastOfJanuary(t);
    LastOfJanuary(u);
    FirstTicks(MONTH, t, u, v);
    FirstTicks(DAY, t, u, v);
    var small := RunTicks(DAY, INITIAL, [t, u, v]).emitted;
    OneCandleEndsNone(DAY, MONTH, small[0]);
    assert small == [small[0]];
  }

  lemma FirstTicks(tf: int, t: Live, u: Live, v: Live)
    requires Supported(tf) && t.timestamp < u.timestamp < v.timestamp
    requires Window(tf, t) == Window(tf, u) && v.timestamp >= Window(tf, t) + tf
    ensures var emitted := RunTicks(tf, INITIAL, [t, u, v]).emitted;
            |emitted| == (if u.timestamp >= Window(tf, t) + tf then 2 else 1)
            && forall i :: 0 <= i < |emitted| ==>
                      emitted[i].timestamp == Window(tf, t) && emitted[i].timeframe == tf && emitted[i].ended
  {
    hide BaseTime, Extend;
    assert Front([t, u, v]) == [t, u] && Front([t, u]) == [t] && Front([t]) == [];
    RunSnoc(tf, [t]);
    RunSnoc(tf, [t, u]);
    RunSnoc(tf, [t, u, v]);
  }

  // ---- Windows that do not nest ----

  /** A trade at midnight, `day` days after 1 January 1970. */
  function Midnight(day: nat): Tick { Tick(day * DAY, 1.0, 1.0, 1.0) }

  lemma EarlyMonth(day: nat, t: Live)
    requires 0 < day < 59 && t.timestamp == day * DAY
    ensures Window(MONTH, t) == if day < 31 then 0 else 31 * DAY
    ensures Window(2 * DAY, t) == day / 2 * 2 * DAY
  {
    hide Gday, YearDays;
    var d := if day < 31 then Date(1970, 1, day + 1) else Date(1970, 2, day - 30);
    GdayParts(Date(1970, 1, 1), 1969, 10);
    GdayParts(d, 1969, if day < 31 then 10 else 11);
    MonthWindow(d, day, t);
    assert day * DAY / (2 * DAY) == day / 2;
  }

  /** A run whose windows are known: the candles it ends. */
  lemma FourTicks(tf: int, t: Live, u: Live, v: Live, w: Live)
    requires Supported(tf) && t.timestamp < u.timestamp < v.timestamp < w.timestamp
    requires u.timestamp >= Window(tf, t) + tf
    ensures var emitted := RunTicks(tf, INITIAL, [t, u, v, w]).emitted;
            (v.timestamp < w.timestamp < Window(tf, u) + tf ==> |emitted| == 1)
            && (v.timestamp >= Window(tf, u) + tf && w.timestamp >= Window(tf, v) + tf ==>
                  |emitted| == 3 && emitted[0].timestamp == Window(tf, t)
                  && emitted[1].timestamp == Window(tf, u) && emitted[2].timestamp == Window(tf, v)
                  && forall i :: 0 <= i < 3 ==> emitted[i].timeframe == tf && emitted[i].ended)
  {
    hide BaseTime, Extend;
    var ticks := [t, u, v, w];
    assert Front(ticks) == [t, u, v] && Front([t, u, v]) == [t, u] && Front([t, u]) == [t] && Front([t]) == [];
    RunSnoc(tf, [t]);
    RunSnoc(tf, [t, u]);
    RunSnoc(tf, [t, u, v]);
    RunSnoc(tf, ticks);
  }

  /** The second stage after some candles: how many it has ended, and where the current one starts. */
  predicate FedTo(r: CandleRun, n: nat, start: int, last: int) {
    !r.failed && |r.run.emitted| == n && r.run.final.last == last
    && r.run.final.current.Some? && r.run.final.current.value.timestamp == start
  }

  lemma FeedFirst(fromTf: int, toTf: int, c: Candle)
    requires Supported(toTf) && c.timestamp > 0 && c.ended && c.timeframe == fromTf
    ensures FedTo(RunCandles(fromTf, toTf, INITIAL, [c]), 0, BaseTime(toTf, c.timestamp), c.timestamp)
  {
    hide BaseTime, Extend;
    FedOn(fromTf, toTf, [], c);
    assert [] + [c] == [c];
  }

  lemma FeedCloses(fromTf: int, toTf: int, cs: seq<Candle>, c: Candle, n: nat, start: int, last: int)
    requires Supported(toTf) && FedTo(RunCandles(fromTf, toTf, INITIAL, cs), n, start, last)
    requires c.timestamp > last >= 0 && c.timestamp >= start + toTf && c.ended && c.timeframe == fromTf
    ensures FedTo(RunCandles(fromTf, toTf, INITIAL, cs + [c]), n + 1, BaseTime(toTf, c.timestamp), c.timestamp)
  {
    hide BaseTime, Extend, RunCandles;
    FedOn(fromTf, toTf, cs, c);
  }

  /** Three small candles that each close the large one opened by the one before. */
  lemma ThreeCandles(fromTf: int, toTf: int, a: Candle, b: Candle, c: Candle)
    requires Supported(toTf) && 0 < a.timestamp < b.timestamp < c.timestamp
    requires a.timeframe == b.timeframe == c.timeframe == fromTf && a.ended && b.ended && c.ended
    requires b.timestamp >= BaseTime(toTf, a.timestamp) + toTf && c.timestamp >= BaseTime(toTf, b.timestamp) + toTf
    ensures |RunCandles(fromTf, toTf, INITIAL, [a, b, c]).run.emitted| == 2
  {
    hide BaseTime, RunCandles;
    assert [a, b] == [a] + [b] && [a, b, c] == [a, b] + [c];
    FeedFirst(fromTf, toTf, a);
    FeedCloses(fromTf, toTf, [a], b, 0, BaseTime(toTf, a.timestamp), a.timestamp);
    FeedCloses(fromTf, toTf, [a, b], c, 1, BaseTime(toTf, b.timestamp), b.timestamp);
  }

  lemma WinterWindows()
    ensures Window(MONTH, Midnight(4)) == 0 && BaseTime(MONTH, 4 * DAY) == 0 && BaseTime(MONTH, 30 * DAY) == 0
    ensures Window(MONTH, Midnight(31)) == 31 * DAY
    ensures Window(2 * DAY, Midnight(4)) == 4 * DAY && Window(2 * DAY, Midnight(31)) == 30 * DAY
    ensures Window(2 * DAY, Midnight(40)) == 40 * DAY
  {
    EarlyMonth(4, Midnight(4));
    EarlyMonth(30, Midnight(30));
    EarlyMonth(31, Midnight(31));
    EarlyMonth(40, Midnight(40));
  }

  /** Two days into months, with trades on 5 January and on 1, 10 and 20 February: the two days of 31 January
      and 1 February make a second candle of January, and the two stages end two candles to one. */
  lemma TwoDaysIntoMonths()
    ensures var ticks := [Midnight(4), Midnight(31), Midnight(40), Midnight(50)];
            MONTH % (2 * DAY) == 0
            && |RunTicks(MONTH, INITIAL, ticks).emitted| == 1
            && |RunCandles(2 * DAY, MONTH, INITIAL, RunTicks(2 * DAY, INITIAL, ticks).emitted).run.emitted| == 2
            && !Agrees(2 * DAY, MONTH, ticks)
  {
    hide BaseTime, RunTicks, RunCandles, Window;
    var t, u, v, w := Midnight(4), Midnight(31), Midnight(40), Midnight(50);
    WinterWindows();
    FourTicks(MONTH, t, u, v, w);
    FourTicks(2 * DAY, t, u, v, w);
    var small := RunTicks(2 * DAY, INITIAL, [t, u, v, w]).emitted;
    assert small == [small[0], small[1], small[2]];
    ThreeCandles(2 * DAY, MONTH, small[0], small[1], small[2]);
  }
}
