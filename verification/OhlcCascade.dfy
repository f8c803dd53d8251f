/** Two-stage aggregation (ticks to small candles to large candles) against one stage
    (ticks to large candles). */
module OhlcCascade {
  import opened Basics
  import opened Arithmetic
  import opened Calendar
  import opened OhlcGeneration
  import opened OhlcGrid
  import opened OhlcWindows

  // ---- Large candles start and end on the grid of the small ones ----

  /** Windows up to a week that nest, or parts of a day in months. */
  predicate Aligned(fromTf: int, toTf: int) {
    Nested(fromTf, toTf) || (toTf == MONTH && 0 < fromTf <= DAY && DAY % fromTf == 0)
  }

  predicate OnSmallGrid(fromTf: int, x: int)
    requires OnGrid(fromTf)
  {
    (x + Shift(fromTf)) % fromTf == 0
  }

  lemma AlignedTimeframes(fromTf: int, toTf: int)
    requires Aligned(fromTf, toTf)
    ensures OnGrid(fromTf) && Supported(toTf)
  {
  }

  /** A time has reached a point of the small grid iff its small window has. */
  lemma GridTest(fromTf: int, x: int, t: int)
    requires OnGrid(fromTf) && OnSmallGrid(fromTf, x) && t >= 0
    ensures t >= x <==> BaseTime(fromTf, t) >= x
  {
    hide BaseTime, Slot, Shift;
    BaseTimeOnGrid(fromTf, t);
    var s := BaseTime(fromTf, t) + Shift(fromTf);
    RemainderZero(s, fromTf, Slot(fromTf, t));
    MultipleGap(s, x + Shift(fromTf), fromTf);
  }

  /** On the 31st of a month, 30 days have passed since it began. */
  predicate Late(toTf: int, t: int) { toTf == MONTH && t >= 0 && DateOf(t).day == 31 }

  lemma LargeStart(fromTf: int, toTf: int, t: int)
    requires Aligned(fromTf, toTf) && t >= 0 && BaseTime(fromTf, t) >= 0
    ensures OnSmallGrid(fromTf, BaseTime(toTf, t)) && OnSmallGrid(fromTf, BaseTime(toTf, t) + toTf)
    ensures BaseTime(toTf, BaseTime(fromTf, t)) == BaseTime(toTf, t) <= t
    ensures t < BaseTime(toTf, t) + toTf <==> !Late(toTf, t)
  {
    if Nested(fromTf, toTf) {
      hide BaseTime, Shift;
      LargeOnSmallGrid(fromTf, toTf, t);
      OneLarger(fromTf, BaseTime(toTf, t), toTf);
      WindowsNest(fromTf, toTf, t);
      BaseTimeOnGrid(toTf, t);
    } else {
      MonthOnSmallGrid(fromTf, t);
    }
  }

  lemma OneLarger(fromTf: int, x: int, y: int)
    requires OnGrid(fromTf) && OnSmallGrid(fromTf, x) && y % fromTf == 0
    ensures OnSmallGrid(fromTf, x + y)
  {
    hide Shift;
    DivideDifference(x + Shift(fromTf), y, fromTf);
  }

  lemma MonthOnSmallGrid(fromTf: int, t: int)
    requires Aligned(fromTf, MONTH) && t >= 0
    ensures OnSmallGrid(fromTf, MonthStart(t)) && OnSmallGrid(fromTf, MonthStart(t) + MONTH)
    ensures 0 <= BaseTime(fromTf, t) && BaseTime(fromTf, t) / DAY == t / DAY
    ensures MonthStart(BaseTime(fromTf, t)) == MonthStart(t) <= t
    ensures t < MonthStart(t) + MONTH <==> !Late(MONTH, t)
  {
    hide DateOf, Gday, EpochDay;
    MonthStartIsFirstDay(t);
    DayOnGrid(fromTf, t / DAY);
    DayOnGrid(fromTf, t / DAY - (DateOf(t).day - 1));
    DayOnGrid(fromTf, t / DAY - (DateOf(t).day - 1) + 30);
    GridTest(fromTf, t / DAY * DAY, t);
    BaseTimeOnGrid(fromTf, t);
    SameDay(BaseTime(fromTf, t), t);
    DayOfMonthBound(t);
  }

  lemma DayOnGrid(fromTf: int, day: int)
    requires 0 < fromTf <= DAY && DAY % fromTf == 0
    ensures OnSmallGrid(fromTf, day * DAY)
  {
    var m := DAY / fromTf;
    assert DAY == fromTf * m;
    assert day * DAY == fromTf * (day * m);
    RemainderZero(day * DAY, fromTf, day * m);
  }

  lemma SameDay(t: int, u: int)
    requires 0 <= t <= u && u / DAY * DAY <= t
    ensures t / DAY == u / DAY && DateOf(t) == DateOf(u) && MonthStart(t) == MonthStart(u)
  {
    hide Dft, Gday;
  }

  lemma DayOfMonthBound(t: int)
    requires t >= 0
    ensures 1 <= DateOf(t).day <= 31
  {
    hide Dft, Gday;
    MonthStartIsFirstDay(t);
  }

  /** Two ticks in one small window, on a 31st: the direct run starts a candle by month at each. */
  predicate CutInside(fromTf: int, toTf: int, t: int, u: int)
    requires OnGrid(fromTf)
  {
    t >= 0 && u >= 0 && Late(toTf, t) && BaseTime(fromTf, t) == BaseTime(fromTf, u)
  }

  predicate KeepsTogether(fromTf: int, toTf: int, acc: seq<Live>)
    requires OnGrid(fromTf)
  {
    forall i: nat :: i + 1 < |acc| ==> !CutInside(fromTf, toTf, acc[i].timestamp, acc[i + 1].timestamp)
  }

  // ---- The simulation between the two pipelines ----

  /** The large candle that a first small candle opens. */
  function Lift(toTf: int, c: Candle): Candle
    requires Supported(toTf) && c.timestamp >= 0
  {
    Absorb(NewCandle(toTf, c.timestamp, c.bid, c.ofr), c.bid, c.ofr, c.volume)
  }

  function Join(large: Candle, c: Candle): Candle {
    Absorb(large, c.bid, c.ofr, c.volume)
  }

  /** The current candle of a generator fed up to time `last`. */
  predicate CurrentAt(tf: int, c: Candle, last: int)
    requires OnGrid(tf)
  {
    last > 0 && c.timestamp == BaseTime(tf, last) && c.timeframe == tf && !c.ended
  }

  /** The start of the current candle of the direct run: it ends on the small grid, later than `last`, except that a
      candle by month opened on a 31st is already over. */
  predicate LargeAt(fromTf: int, toTf: int, start: int, last: int)
    requires Aligned(fromTf, toTf)
  {
    last > 0 && start <= BaseTime(toTf, last) && OnSmallGrid(fromTf, start + toTf)
    && (last < start + toTf || Late(toTf, last))
  }

  /** `d`: direct run; `s`: run of the small timeframe; `b`: the candles ended by `s`, fed on. */
  ghost predicate InStep(fromTf: int, toTf: int, d: Run, s: Run, b: CandleRun)
    requires Aligned(fromTf, toTf)
  {
    !b.failed && d.final.last == s.final.last >= 0 && b.run.final.last >= 0
    && if s.final.current.None? then
         d == s && d.emitted == [] && d.final == INITIAL && b.run == Run(INITIAL, [])
       else
         var sc := s.final.current.value;
         CurrentAt(fromTf, sc, s.final.last) && sc.timestamp > b.run.final.last
         && d.final.current.Some?
         && LargeAt(fromTf, toTf, d.final.current.value.timestamp, d.final.last)
         && (b.run.final.current.None? ==> s.emitted == [])
         && Behind(toTf, d, sc, b.run)
  }

  /** Feeding the current small candle would bring the second stage level with `d`. */
  ghost predicate Behind(toTf: int, d: Run, sc: Candle, b: Run)
    requires Supported(toTf) && d.final.current.Some? && sc.timestamp > 0
  {
    var dc := d.final.current.value;
    if b.final.current.None? then b.final.last == 0 && b.emitted == d.emitted == [] && dc == Lift(toTf, sc)
    else
      var bc := b.final.current.value;
      if Closes(toTf, b.final.current, sc.timestamp) then
        d.emitted == b.emitted + [bc.(ended := true)] && dc == Lift(toTf, sc)
      else b.emitted == d.emitted && dc == Join(bc, sc)
  }

  /** Once the small candle has ended and has been fed on, both large candles agree. */
  lemma FeedLevels(fromTf: int, toTf: int, d: Run, s: Run, b: CandleRun)
    requires Aligned(fromTf, toTf) && InStep(fromTf, toTf, d, s, b) && s.final.current.Some?
    ensures var sc := s.final.current.value.(ended := true);
            StepCandle(fromTf, toTf, b.run.final, sc).Ok?
            && var x := StepCandle(fromTf, toTf, b.run.final, sc).value;
               x.next == State(d.final.current, sc.timestamp)
               && Emit(b.run.emitted, x.ended) == d.emitted
  {
    hide BaseTime, LargeAt;
  }

  predicate Accepts(s: State, t: Tick) { t.timestamp > s.last }

  /** A tick in the same small window does not close the large candle, unless it cuts inside. */
  lemma StaysOpen(fromTf: int, toTf: int, c: Candle, last: int, t: Live)
    requires Aligned(fromTf, toTf) && LargeAt(fromTf, toTf, c.timestamp, last) && last < t.timestamp
    requires Window(fromTf, t) == BaseTime(fromTf, last) && !CutInside(fromTf, toTf, last, t.timestamp)
    ensures !Closes(toTf, Some(c), t.timestamp) && LargeAt(fromTf, toTf, c.timestamp, t.timestamp)
  {
    hide BaseTime, OnSmallGrid, Aligned;
    AlignedTimeframes(fromTf, toTf);
    GridTest(fromTf, c.timestamp + toTf, last);
    GridTest(fromTf, c.timestamp + toTf, t.timestamp);
    BaseTimeMonotone(toTf, Tick(last, 0.0, 0.0, 0.0), t);
  }

  /** The large candle that the tick opens, or goes on with. */
  lemma LargeNext(fromTf: int, toTf: int, s: State, t: Live)
    requires Aligned(fromTf, toTf) && s.current.Some? && LargeAt(fromTf, toTf, s.current.value.timestamp, s.last)
    requires t.timestamp > s.last && Window(fromTf, t) >= 0
    ensures var x := StepTick(toTf, s, t).next;
            x.current.Some? && LargeAt(fromTf, toTf, x.current.value.timestamp, t.timestamp)
    ensures Closes(toTf, s.current, t.timestamp) <==> Closes(toTf, s.current, Window(fromTf, t))
  {
    hide BaseTime, OnSmallGrid, Aligned;
    AlignedTimeframes(fromTf, toTf);
    GridTest(fromTf, s.current.value.timestamp + toTf, t.timestamp);
    LargeStart(fromTf, toTf, t.timestamp);
    BaseTimeMonotone(toTf, Tick(s.last, 0.0, 0.0, 0.0), t);
  }

  lemma ExtendTwice(a: Bar, b: Bar, c: Bar)
    ensures Extend(a, Extend(b, c)) == Extend(Extend(a, b), c)
    ensures Extend(Extend(a, c), Extend(a, c)) == Extend(Extend(a, a), c)
  {
  }

  lemma LiftGrows(toTf: int, sc: Candle, bid: Bar, ofr: Bar, volume: real)
    requires Supported(toTf) && sc.timestamp >= 0
    ensures Lift(toTf, Absorb(sc, bid, ofr, volume)) == Absorb(Lift(toTf, sc), bid, ofr, volume)
  {
    hide BaseTime, Extend;
    ExtendTwice(sc.bid, sc.bid, bid);
    ExtendTwice(sc.ofr, sc.ofr, ofr);
  }

  lemma JoinGrows(large: Candle, sc: Candle, bid: Bar, ofr: Bar, volume: real)
    ensures Join(large, Absorb(sc, bid, ofr, volume)) == Absorb(Join(large, sc), bid, ofr, volume)
  {
    hide Extend;
    ExtendTwice(large.bid, sc.bid, bid);
    ExtendTwice(large.ofr, sc.ofr, ofr);
  }

  /** Both candles take the tick in. */
  lemma BothGrow(toTf: int, d: Run, sc: Candle, b: Run, t: Live)
    requires Supported(toTf) && d.final.current.Some? && sc.timestamp > 0 && Behind(toTf, d, sc, b)
    ensures var bid, ofr := PointBar(t.bid), PointBar(t.ofr);
            Absorb(sc, bid, ofr, t.volume).timestamp == sc.timestamp
            && Behind(toTf, Run(State(Some(Absorb(d.final.current.value, bid, ofr, t.volume)), t.timestamp), d.emitted),
                      Absorb(sc, bid, ofr, t.volume), b)
  {
    var bid, ofr := PointBar(t.bid), PointBar(t.ofr);
    LiftGrows(toTf, sc, bid, ofr, t.volume);
    if b.final.current.Some? { JoinGrows(b.final.current.value, sc, bid, ofr, t.volume); }
    hide BaseTime, Lift, Join, Extend;
  }

  lemma StepInsideSmallWindow(fromTf: int, toTf: int, d: Run, s: Run, b: CandleRun, t: Live)
    requires Aligned(fromTf, toTf) && InStep(fromTf, toTf, d, s, b) && s.final.current.Some?
    requires Accepts(s.final, t) && !Closes(fromTf, s.final.current, t.timestamp)
    requires !CutInside(fromTf, toTf, s.final.last, t.timestamp)
    ensures var xd, xs := StepTick(toTf, d.final, t), StepTick(fromTf, s.final, t);
            xs.ended.None?
            && InStep(fromTf, toTf, Run(xd.next, Emit(d.emitted, xd.ended)), Run(xs.next, s.emitted), b)
  {
    hide BaseTime, Aligned, LargeAt, Behind, CutInside;
    AlignedTimeframes(fromTf, toTf);
    ClosingIsChangeOfWindow(fromTf, s.final.last, t.timestamp);
    var dc := d.final.current.value;
    assert d.final.current == Some(dc);
    StaysOpen(fromTf, toTf, dc, d.final.last, t);
    BothGrow(toTf, d, s.final.current.value, b.run, t);
  }

  lemma StepAcrossSmallWindow(fromTf: int, toTf: int, d: Run, s: Run, b: CandleRun, b': CandleRun, t: Live)
    requires Aligned(fromTf, toTf) && InStep(fromTf, toTf, d, s, b) && s.final.current.Some?
    requires Accepts(s.final, t) && Closes(fromTf, s.final.current, t.timestamp)
    requires !b'.failed && b'.run == Run(State(d.final.current, s.final.current.value.timestamp), d.emitted)
    ensures var xd, xs := StepTick(toTf, d.final, t), StepTick(fromTf, s.final, t);
            xs.ended == Some(s.final.current.value.(ended := true))
            && InStep(fromTf, toTf, Run(xd.next, Emit(d.emitted, xd.ended)), Run(xs.next, Emit(s.emitted, xs.ended)), b')
  {
    hide BaseTime, Aligned, LargeAt, Behind;
    AlignedTimeframes(fromTf, toTf);
    ClosingIsChangeOfWindow(fromTf, s.final.last, t.timestamp);
    LargeNext(fromTf, toTf, d.final, t);
    SameStart(fromTf, toTf, t.timestamp);
    LevelAgain(fromTf, toTf, d, b'.run, t);
  }

  lemma SameStart(fromTf: int, toTf: int, t: int)
    requires Aligned(fromTf, toTf) && t >= 0 && BaseTime(fromTf, t) >= 0
    ensures BaseTime(toTf, BaseTime(fromTf, t)) == BaseTime(toTf, t)
  {
    hide BaseTime, OnSmallGrid;
    LargeStart(fromTf, toTf, t);
  }

  /** The second stage, just level, falls behind by the small candle that the tick opens. */
  lemma LevelAgain(fromTf: int, toTf: int, d: Run, b: Run, t: Live)
    requires Aligned(fromTf, toTf) && d.final.current.Some? && d.final.last >= 0 && Accepts(d.final, t)
    requires b.final.current == d.final.current && b.emitted == d.emitted
    requires Window(fromTf, t) > 0 && BaseTime(toTf, Window(fromTf, t)) == Window(toTf, t)
    requires Closes(toTf, d.final.current, t.timestamp) <==> Closes(toTf, d.final.current, Window(fromTf, t))
    ensures var xd, xs := StepTick(toTf, d.final, t), StepTick(fromTf, INITIAL, t);
            xs.next.current.Some? && xs.next.current.value.timestamp > 0 && xd.next.current.Some?
            && Behind(toTf, Run(xd.next, Emit(d.emitted, xd.ended)), xs.next.current.value, b)
  {
    hide BaseTime;
  }

  lemma FirstStep(fromTf: int, toTf: int, t: Live)
    requires Aligned(fromTf, toTf) && Window(fromTf, t) > 0
    ensures var xd, xs := StepTick(toTf, INITIAL, t), StepTick(fromTf, INITIAL, t);
            xd.ended.None? && xs.ended.None?
            && InStep(fromTf, toTf, Run(xd.next, []), Run(xs.next, []), CandleRun(Run(INITIAL, []), false))
  {
    hide BaseTime, OnSmallGrid;
    LargeStart(fromTf, toTf, t.timestamp);
  }

  /** The first tick the generators accept lies in the small window that holds the epoch. */
  predicate InEpochWindow(fromTf: int, acc: seq<Live>)
    requires OnGrid(fromTf)
  {
    acc != [] && Window(fromTf, acc[0]) <= 0
  }

  lemma KeepsFront(fromTf: int, toTf: int, acc: seq<Live>, t: Live)
    requires Aligned(fromTf, toTf) && KeepsTogether(fromTf, toTf, acc + [t])
    ensures KeepsTogether(fromTf, toTf, acc)
    ensures acc != [] ==> !CutInside(fromTf, toTf, Last(acc).timestamp, t.timestamp)
  {
    hide CutInside;
    var after := acc + [t];
    assert forall i: nat :: i < |acc| ==> after[i] == acc[i];
    if acc != [] {
      var n: nat := |acc| - 1;
      assert after[n + 1] == t && !CutInside(fromTf, toTf, after[n].timestamp, after[n + 1].timestamp);
    }
  }

  lemma InStepNext(fromTf: int, toTf: int, d: Run, s: Run, b: CandleRun, t: Live)
    requires Aligned(fromTf, toTf) && InStep(fromTf, toTf, d, s, b) && Accepts(s.final, t)
    requires b == RunCandles(fromTf, toTf, INITIAL, s.emitted)
    requires if s.final.current.None? then Window(fromTf, t) > 0 else !CutInside(fromTf, toTf, s.final.last, t.timestamp)
    ensures d.final.last >= 0
    ensures var xd, xs := StepTick(toTf, d.final, t), StepTick(fromTf, s.final, t);
            InStep(fromTf, toTf, Run(xd.next, Emit(d.emitted, xd.ended)), Run(xs.next, Emit(s.emitted, xs.ended)),
                   RunCandles(fromTf, toTf, INITIAL, Emit(s.emitted, xs.ended)))
  {
    AlignedTimeframes(fromTf, toTf);
    InStepFacts(fromTf, toTf, d, s, b);
    hide InStep, Aligned, CutInside, RunCandles, StepTick, StepCandle;
    if s.final.current.None? {
      FirstStep(fromTf, toTf, t);
    } else if !Closes(fromTf, s.final.current, t.timestamp) {
      StepInsideSmallWindow(fromTf, toTf, d, s, b, t);
    } else {
      FeedLevels(fromTf, toTf, d, s, b);
      var sc := s.final.current.value.(ended := true);
      FedOn(fromTf, toTf, s.emitted, sc);
      StepAcrossSmallWindow(fromTf, toTf, d, s, b, RunCandles(fromTf, toTf, INITIAL, s.emitted + [sc]), t);
    }
  }

  /** The last tick of a run, and what was accepted before it. */
  lemma LastTick(fromTf: int, ticks: seq<Tick>)
    requires OnGrid(fromTf) && ticks != [] && !InEpochWindow(fromTf, Accepted(ticks))
    ensures var acc, t := Accepted(Front(ticks)), Last(ticks);
            !InEpochWindow(fromTf, acc)
            && if t.timestamp <= LastAccepted(acc) then Accepted(ticks) == acc
               else Accepted(ticks) == acc + [t] && (acc == [] ==> Window(fromTf, t) > 0)
  {
    hide Window;
    assert Accepted(Front(ticks)) != [] ==> Accepted(ticks)[0] == Accepted(Front(ticks))[0];
  }

  lemma {:induction false} PipelinesInStep(fromTf: int, toTf: int, ticks: seq<Tick>)
    requires Aligned(fromTf, toTf) && !InEpochWindow(fromTf, Accepted(ticks))
    requires KeepsTogether(fromTf, toTf, Accepted(ticks))
    ensures var d, s := RunTicks(toTf, INITIAL, ticks), RunTicks(fromTf, INITIAL, ticks);
            InStep(fromTf, toTf, d, s, RunCandles(fromTf, toTf, INITIAL, s.emitted))
            && s.final.last == LastAccepted(Accepted(ticks)) && (s.final.current.None? <==> Accepted(ticks) == [])
  {
    if ticks != [] {
      AlignedTimeframes(fromTf, toTf);
      RunSnoc(toTf, ticks);
      RunSnoc(fromTf, ticks);
      LastTick(fromTf, ticks);
      hide StepTick, Aligned, OnGrid, InStep, KeepsTogether, CutInside, RunTicks, RunCandles, Window, InEpochWindow, Accepted;
      var front, t := Front(ticks), Last(ticks);
      var acc := Accepted(front);
      if t.timestamp > LastAccepted(acc) { KeepsFront(fromTf, toTf, acc, t); }
      PipelinesInStep(fromTf, toTf, front);
      var d, s := RunTicks(toTf, INITIAL, front), RunTicks(fromTf, INITIAL, front);
      var b := RunCandles(fromTf, toTf, INITIAL, s.emitted);
      InStepFacts(fromTf, toTf, d, s, b);
      AcceptedNext(fromTf, s, t);
      if Accepts(s.final, t) {
        InStepNext(fromTf, toTf, d, s, b, t);
      } else {
        Rejected(toTf, d.final, t);
        Rejected(fromTf, s.final, t);
      }
    }
  }

  lemma InStepFacts(fromTf: int, toTf: int, d: Run, s: Run, b: CandleRun)
    requires Aligned(fromTf, toTf) && InStep(fromTf, toTf, d, s, b)
    ensures !b.failed && d.final.last == s.final.last >= 0
    ensures s.final.current.None? ==> d == s == Run(INITIAL, []) && b.run == Run(INITIAL, [])
  {
  }

  lemma AcceptedNext(tf: int, s: Run, t: Tick)
    requires Supported(tf) && s.final.last >= 0
    ensures var x := StepTick(tf, s.final, t);
            if Accepts(s.final, t) then x.next.last == t.timestamp && x.next.current.Some? else x.next == s.final
  {
  }

  lemma Rejected(tf: int, s: State, t: Tick)
    requires Supported(tf) && s.last >= 0 && !Accepts(s, t)
    ensures StepTick(tf, s, t) == Step(s, None)
  {
  }

  lemma RunSnoc(tf: int, ticks: seq<Tick>)
    requires Supported(tf) && ticks != []
    ensures var r := RunTicks(tf, INITIAL, Front(ticks));
            var x := StepTick(tf, r.final, Last(ticks));
            RunTicks(tf, INITIAL, ticks) == Run(x.next, Emit(r.emitted, x.ended))
  {
  }

  /** One more candle reaches the second stage. */
  lemma FedOn(fromTf: int, toTf: int, cs: seq<Candle>, c: Candle)
    requires Supported(toTf) && !RunCandles(fromTf, toTf, INITIAL, cs).failed
    ensures var b := RunCandles(fromTf, toTf, INITIAL, cs).run;
            var r := StepCandle(fromTf, toTf, b.final, c);
            r.Ok? ==> RunCandles(fromTf, toTf, INITIAL, cs + [c])
                      == CandleRun(Run(r.value.next, Emit(b.emitted, r.value.ended)), false)
  {
    hide StepCandle;
    var fed := cs + [c];
    assert fed[..|fed| - 1] == cs;
  }

  /** What the two stages emit is what the direct run emits, a prefix in every field and at most one candle
      shorter, and no candle is refused. */
  predicate Agrees(fromTf: int, toTf: int, ticks: seq<Tick>)
    requires Supported(fromTf) && Supported(toTf)
  {
    var direct := RunTicks(toTf, INITIAL, ticks).emitted;
    var cascade := RunCandles(fromTf, toTf, INITIAL, RunTicks(fromTf, INITIAL, ticks).emitted);
    !cascade.failed && cascade.run.emitted <= direct && |direct| <= |cascade.run.emitted| + 1
  }

  /** Aggregating in two stages agrees with aggregating in one, from a first tick past the epoch window and,
      for candles by month, when no two ticks share a small window on a 31st. */
  lemma CascadeAgreesWithDirect(fromTf: int, toTf: int, ticks: seq<Tick>)
    requires Aligned(fromTf, toTf) && !InEpochWindow(fromTf, Accepted(ticks))
    requires KeepsTogether(fromTf, toTf, Accepted(ticks))
    ensures Agrees(fromTf, toTf, ticks)
  {
    hide LargeAt, CurrentAt, KeepsTogether;
    PipelinesInStep(fromTf, toTf, ticks);
  }

  // ---- The condition on the first tick is needed: the second stage never accepts the small
  //      candle that starts at or before the epoch, so its volume goes missing ----

  predicate PositiveVolumes(ticks: seq<Tick>) {
    forall t :: t in ticks ==> t.volume > 0.0
  }

  /** The second stage has missed the first small candle: `d`, `s` and `b` as in `InStep`. */
  ghost predicate Short(fromTf: int, toTf: int, d: Run, s: Run, b: CandleRun)
    requires Nested(fromTf, toTf)
  {
    !b.failed && d.final.last == s.final.last >= 0 && b.run.final.last >= 0
    && s.final.current.Some? && d.final.current.Some?
    && var sc, dc := s.final.current.value, d.final.current.value;
       CurrentAt(fromTf, sc, s.final.last) && CurrentAt(toTf, dc, d.final.last)
       && sc.volume > 0.0 && dc.volume > 0.0
       && if sc.timestamp <= 0 then
            b.run == Run(INITIAL, []) && d.emitted == [] && dc.timestamp == BaseTime(toTf, 0)
          else
            sc.timestamp > b.run.final.last && Missing(toTf, d, sc, b.run)
  }

  ghost predicate Missing(toTf: int, d: Run, sc: Candle, b: Run)
    requires OnGrid(toTf) && d.final.current.Some? && b.final.last >= 0
  {
    var dc, w := d.final.current.value, BaseTime(toTf, 0);
    if d.emitted == [] then
      b.emitted == [] && dc.timestamp == w
      && if b.final.current.None? then dc.volume > sc.volume
         else CurrentAt(toTf, b.final.current.value, b.final.last)
              && b.final.current.value.timestamp == w
              && dc.volume > b.final.current.value.volume + sc.volume
    else
      d.emitted[0].timestamp == w < dc.timestamp
      && if b.emitted == [] then Apart(toTf, d.emitted[0], b) else b.emitted[0] != d.emitted[0]
  }

  ghost predicate Apart(toTf: int, first: Candle, b: Run)
    requires OnGrid(toTf) && b.final.last >= 0
  {
    b.final.current.Some? ==>
      var bc := b.final.current.value;
      CurrentAt(toTf, bc, b.final.last)
      && (bc.timestamp > first.timestamp || (bc.timestamp == first.timestamp && bc.volume < first.volume))
  }

  lemma ShortInsideSmallWindow(fromTf: int, toTf: int, d: Run, s: Run, b: CandleRun, t: Tick)
    requires Nested(fromTf, toTf) && Short(fromTf, toTf, d, s, b) && t.volume > 0.0
    requires Accepts(s.final, t) && !Closes(fromTf, s.final.current, t.timestamp)
    ensures var xd, xs := StepTick(toTf, d.final, t), StepTick(fromTf, s.final, t);
            xs.ended.None?
            && Short(fromTf, toTf, Run(xd.next, Emit(d.emitted, xd.ended)), Run(xs.next, s.emitted), b)
  {
    hide BaseTime;
    BaseTimeOnGrid(fromTf, s.final.last);
    ClosingIsChangeOfWindow(fromTf, s.final.last, t.timestamp);
    ClosingIsChangeOfWindow(toTf, s.final.last, t.timestamp);
    SameLargeWindow(fromTf, toTf, s.final.last, t.timestamp);
  }

  lemma ShortAcrossSmallWindow(fromTf: int, toTf: int, d: Run, s: Run, b: CandleRun, t: Tick)
    requires Nested(fromTf, toTf) && Short(fromTf, toTf, d, s, b) && t.volume > 0.0
    requires Accepts(s.final, t) && Closes(fromTf, s.final.current, t.timestamp)
    ensures var xd, xs := StepTick(toTf, d.final, t), StepTick(fromTf, s.final, t);
            xs.ended.Some?
            && var r := StepCandle(fromTf, toTf, b.run.final, xs.ended.value);
               r.Ok?
               && Short(fromTf, toTf, Run(xd.next, Emit(d.emitted, xd.ended)), Run(xs.next, Emit(s.emitted, xs.ended)),
                        CandleRun(Run(r.value.next, Emit(b.run.emitted, r.value.ended)), false))
  {
    hide BaseTime;
    var sc := s.final.current.value;
    BaseTimeOnGrid(fromTf, s.final.last);
    ClosingIsChangeOfWindow(fromTf, s.final.last, t.timestamp);
    ClosingIsChangeOfWindow(toTf, s.final.last, t.timestamp);
    ClosingIsChangeOfWindow(toTf, 0, t.timestamp);
    if sc.timestamp > 0 {
      WindowsNest(fromTf, toTf, s.final.last);
      if b.run.final.current.Some? {
        ClosingIsChangeOfWindow(toTf, b.run.final.last, sc.timestamp);
      }
    }
  }

  lemma FirstShort(fromTf: int, toTf: int, t: Tick)
    requires Nested(fromTf, toTf) && t.timestamp > 0 && BaseTime(fromTf, t.timestamp) <= 0 && t.volume > 0.0
    ensures var xd, xs := StepTick(toTf, INITIAL, t), StepTick(fromTf, INITIAL, t);
            xd.ended.None? && xs.ended.None?
            && Short(fromTf, toTf, Run(xd.next, []), Run(xs.next, []), CandleRun(Run(INITIAL, []), false))
  {
    hide BaseTime;
    BaseTimeOnGrid(fromTf, t.timestamp);
    BaseTimeOnGrid(fromTf, 0);
    ClosingIsChangeOfWindow(fromTf, 0, t.timestamp);
    SameLargeWindow(fromTf, toTf, 0, t.timestamp);
  }

  lemma {:induction false} PipelinesShort(fromTf: int, toTf: int, ticks: seq<Tick>)
    requires Nested(fromTf, toTf) && InEpochWindow(fromTf, Accepted(ticks)) && PositiveVolumes(ticks)
    ensures var d, s := RunTicks(toTf, INITIAL, ticks), RunTicks(fromTf, INITIAL, ticks);
            Short(fromTf, toTf, d, s, RunCandles(fromTf, toTf, INITIAL, s.emitted))
            && s.final.last == LastAccepted(Accepted(ticks))
  {
    hide BaseTime, Advance, KeepsTogether;
    var front, t := Front(ticks), Last(ticks);
    var d, s := RunTicks(toTf, INITIAL, front), RunTicks(fromTf, INITIAL, front);
    if Accepted(front) == [] {
      WeeksKeepTogether(fromTf, toTf, []);
      PipelinesInStep(fromTf, toTf, front);
      assert Accepted(ticks) == [t];
      FirstShort(fromTf, toTf, t);
    } else {
      assert Accepted(ticks)[0] == Accepted(front)[0];
      PipelinesShort(fromTf, toTf, front);
      var b := RunCandles(fromTf, toTf, INITIAL, s.emitted);
      if !Accepts(s.final, t) {
        Rejected(toTf, d.final, t);
        Rejected(fromTf, s.final, t);
      } else if !Closes(fromTf, s.final.current, t.timestamp) {
        ShortInsideSmallWindow(fromTf, toTf, d, s, b, t);
      } else {
        ShortAcrossSmallWindow(fromTf, toTf, d, s, b, t);
        FedOn(fromTf, toTf, s.emitted, StepTick(fromTf, s.final, t).ended.value);
      }
    }
    AcceptedNext(fromTf, s, t);
  }

  lemma WeeksKeepTogether(fromTf: int, toTf: int, acc: seq<Live>)
    requires Nested(fromTf, toTf)
    ensures KeepsTogether(fromTf, toTf, acc)
  {
  }

  /** With positive volumes, a first tick in the epoch window spoils whatever the second stage emits. */
  lemma CascadeIsPrefixIff(fromTf: int, toTf: int, ticks: seq<Tick>)
    requires Nested(fromTf, toTf) && PositiveVolumes(ticks)
    ensures var direct := RunTicks(toTf, INITIAL, ticks).emitted;
            var small := RunTicks(fromTf, INITIAL, ticks).emitted;
            var cascade := RunCandles(fromTf, toTf, INITIAL, small).run.emitted;
            cascade <= direct <==> !InEpochWindow(fromTf, Accepted(ticks)) || cascade == []
  {
    hide InEpochWindow;
    if InEpochWindow(fromTf, Accepted(ticks)) {
      PipelinesShort(fromTf, toTf, ticks);
    } else {
      WeeksKeepTogether(fromTf, toTf, Accepted(ticks));
      CascadeAgreesWithDirect(fromTf, toTf, ticks);
    }
  }
}
