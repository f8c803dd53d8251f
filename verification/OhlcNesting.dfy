/** For which timeframes two-stage aggregation agrees with one stage whatever the ticks: exactly those whose
    windows nest. */
module OhlcNesting {
  import opened Basics
  import opened Arithmetic
  import opened OhlcGeneration
  import opened OhlcGrid
  import opened OhlcWindows
  import opened OhlcCascade
  import opened OhlcEpoch
  import opened OhlcMonthCascade

  /** Every run whose first tick is past the epoch window comes out the same in two stages. */
  ghost predicate AlwaysAgree(fromTf: int, toTf: int)
    requires OnGrid(fromTf) && Supported(toTf)
  {
    forall ticks: seq<Tick> :: !InEpochWindow(fromTf, Accepted(ticks)) ==> Agrees(fromTf, toTf, ticks)
  }

  // ---- A large window that starts inside a small one ----

  predicate Straddled(fromTf: int, toTf: int, b: int)
    requires OnGrid(fromTf) && OnGrid(toTf)
  {
    b > WEEK && (b + Shift(toTf)) % toTf == 0 && (b + Shift(fromTf)) % fromTf != 0
  }

  lemma StartsOnGridNest(fromTf: int, toTf: int, b: int)
    requires OnGrid(fromTf) && OnGrid(toTf) && (b + Shift(toTf)) % toTf == 0
    requires (b + Shift(fromTf)) % fromTf == 0 && (b + toTf + Shift(fromTf)) % fromTf == 0
    ensures Nested(fromTf, toTf)
  {
    hide Shift;
    DivideDifference(b + toTf + Shift(fromTf), b + Shift(fromTf), fromTf);
    var m, k := toTf / fromTf, (b + Shift(toTf)) / toTf;
    assert toTf == fromTf * m && b + Shift(toTf) == k * toTf;
    assert k * toTf == fromTf * (k * m) by {
      assert k * toTf == k * (fromTf * m) == fromTf * (k * m);
    }
    RemainderZero(k * toTf, fromTf, k * m);
    DivideDifference(b + Shift(toTf), b + Shift(fromTf), fromTf);
  }

  lemma StraddledStart(fromTf: int, toTf: int) returns (b: int)
    requires OnGrid(fromTf) && OnGrid(toTf) && !Nested(fromTf, toTf)
    ensures Straddled(fromTf, toTf, b)
  {
    var k := 2 * WEEK;
    b := k * toTf - Shift(toTf);
    MulOrder(1, toTf, k);
    RemainderZero(b + Shift(toTf), toTf, k);
    RemainderZero(b + toTf + Shift(toTf), toTf, k + 1);
    hide Nested;
    if (b + Shift(fromTf)) % fromTf == 0 {
      if (b + toTf + Shift(fromTf)) % fromTf == 0 { StartsOnGridNest(fromTf, toTf, b); }
      b := b + toTf;
    }
  }

  /** The millisecond before the start shares its small window, and not its large one. */
  lemma AcrossStart(fromTf: int, toTf: int, b: int)
    requires OnGrid(fromTf) && OnGrid(toTf) && Straddled(fromTf, toTf, b)
    ensures BaseTime(fromTf, b - 1) == BaseTime(fromTf, b) && b < BaseTime(fromTf, b - 1) + fromTf
    ensures BaseTime(toTf, b - 1) + toTf <= b
  {
    hide BaseTime, Slot, Shift;
    ClosingIsChangeOfWindow(fromTf, b - 1, b);
    ClosingIsChangeOfWindow(toTf, b - 1, b);
    BaseTimeOnGrid(fromTf, b);
    BaseTimeOnGrid(fromTf, b - 1);
    BaseTimeOnGrid(toTf, b);
    BaseTimeOnGrid(toTf, b - 1);
    RemainderZero(BaseTime(fromTf, b) + Shift(fromTf), fromTf, Slot(fromTf, b));
    RemainderZero(BaseTime(toTf, b - 1) + Shift(toTf), toTf, Slot(toTf, b - 1));
    MultipleGap(BaseTime(toTf, b - 1) + Shift(toTf), b + Shift(toTf), toTf);
  }

  // ---- Two trades around such a start, and two much later ----

  function TradeOn(time: int): Tick { Tick(time, 1.0, 1.0, 1.0) }

  /** The first candle of a run of two ticks and two much later ones: it holds one tick or both. */
  lemma FirstCandle(tf: int, t: Live, u: Live, v: Live, w: Live)
    requires Supported(tf) && t.timestamp < u.timestamp < v.timestamp < w.timestamp
    requires v.timestamp >= Window(tf, t) + tf && v.timestamp >= Window(tf, u) + tf && w.timestamp >= Window(tf, v) + tf
    ensures var emitted := RunTicks(tf, INITIAL, [t, u, v, w]).emitted;
            var cut := u.timestamp >= Window(tf, t) + tf;
            |emitted| == (if cut then 3 else 2)
            && emitted[0].volume == (if cut then t.volume else t.volume + u.volume)
            && (forall i :: 0 <= i < |emitted| ==> emitted[i].timeframe == tf && emitted[i].ended)
            && emitted[0].timestamp == Window(tf, t) && Last(emitted).timestamp == Window(tf, v)
  {
    hide BaseTime, Extend;
    var ticks := [t, u, v, w];
    assert Front(ticks) == [t, u, v] && Front([t, u, v]) == [t, u] && Front([t, u]) == [t] && Front([t]) == [];
    RunSnoc(tf, [t]);
    RunSnoc(tf, [t, u]);
    RunSnoc(tf, [t, u, v]);
    RunSnoc(tf, ticks);
  }

  /** The second of two small candles closes the large one that the first opens. */
  lemma SecondCloses(fromTf: int, toTf: int, c: Candle, e: Candle)
    requires Supported(toTf) && 0 < c.timestamp < e.timestamp && c.ended && e.ended && c.timeframe == e.timeframe == fromTf
    requires e.timestamp >= BaseTime(toTf, c.timestamp) + toTf
    ensures var r := RunCandles(fromTf, toTf, INITIAL, [c, e]);
            !r.failed && |r.run.emitted| == 1 && r.run.emitted[0].volume == c.volume
  {
    hide BaseTime, Extend;
    assert [c] == [] + [c] && [c, e] == [c] + [e];
    FedOn(fromTf, toTf, [], c);
    FedOn(fromTf, toTf, [c], e);
  }

  lemma WindowBounds(tf: int, t: int)
    requires OnGrid(tf) && t >= 0
    ensures BaseTime(tf, t) <= t < BaseTime(tf, t) + tf <= BaseTime(tf, t) + WEEK
  {
    BaseTimeOnGrid(tf, t);
  }

  lemma StraddledDiffers(fromTf: int, toTf: int, b: int)
    requires OnGrid(fromTf) && OnGrid(toTf) && Straddled(fromTf, toTf, b)
    ensures var ticks := [TradeOn(b - 1), TradeOn(b), TradeOn(b + 3 * WEEK), TradeOn(b + 6 * WEEK)];
            !InEpochWindow(fromTf, Accepted(ticks)) && !Agrees(fromTf, toTf, ticks)
  {
    hide BaseTime, RunTicks, RunCandles, Accepted, Shift;
    var t, u, v, w := TradeOn(b - 1), TradeOn(b), TradeOn(b + 3 * WEEK), TradeOn(b + 6 * WEEK);
    var ticks := [t, u, v, w];
    AcrossStart(fromTf, toTf, b);
    IncreasingAcceptedWhole(ticks);
    StartsMuchEarlier(fromTf, b);
    StartsMuchEarlier(toTf, b);
    FirstCandle(fromTf, t, u, v, w);
    FirstCandle(toTf, t, u, v, w);
    var small := RunTicks(fromTf, INITIAL, ticks).emitted;
    WindowBounds(toTf, small[0].timestamp);
    SecondCloses(fromTf, toTf, small[0], small[1]);
    assert small == [small[0], small[1]];
  }

  lemma StartsMuchEarlier(tf: int, b: int)
    requires OnGrid(tf) && b > WEEK
    ensures 0 < BaseTime(tf, b - 1) <= b - 1 && BaseTime(tf, b) <= b && BaseTime(tf, b - 1) + tf <= b + WEEK
    ensures b + 2 * WEEK < BaseTime(tf, b + 3 * WEEK) <= b + 3 * WEEK
  {
    hide BaseTime;
    WindowBounds(tf, b - 1);
    WindowBounds(tf, b);
    WindowBounds(tf, b + 3 * WEEK);
  }

  // ---- Two trades in one small window of 31 January, and two much later ----

  /** The first of two successive times at the start of 31 January that share a small window. */
  lemma PairOfJanuary(fromTf: int) returns (t: int)
    requires OnGrid(fromTf) && fromTf >= 2
    ensures 30 * DAY <= t <= 30 * DAY + 1 && BaseTime(fromTf, t + 1) == BaseTime(fromTf, t)
    ensures t + 1 < BaseTime(fromTf, t) + fromTf
  {
    hide BaseTime;
    t := 30 * DAY;
    ClosingIsChangeOfWindow(fromTf, t, t + 1);
    WindowBounds(fromTf, t);
    WindowBounds(fromTf, t + 1);
    if BaseTime(fromTf, t + 1) != BaseTime(fromTf, t) {
      t := t + 1;
      ClosingIsChangeOfWindow(fromTf, t, t + 1);
    }
  }

  /** Three large candles against one: the second stage sees the pair as one small candle. */
  lemma JanuaryDiffers(fromTf: int, t: int)
    requires OnGrid(fromTf) && 30 * DAY <= t <= 30 * DAY + 1
    requires BaseTime(fromTf, t + 1) == BaseTime(fromTf, t) && t + 1 < BaseTime(fromTf, t) + fromTf
    ensures var ticks := [TradeOn(t), TradeOn(t + 1), Midnight(40), TradeOn(100 * DAY)];
            !InEpochWindow(fromTf, Accepted(ticks)) && !Agrees(fromTf, MONTH, ticks)
  {
    hide BaseTime, RunTicks, RunCandles, Accepted;
    var ticks := [TradeOn(t), TradeOn(t + 1), Midnight(40), TradeOn(100 * DAY)];
    LastOfJanuary(ticks[0]);
    LastOfJanuary(ticks[1]);
    EarlyMonth(40, ticks[2]);
    WindowBounds(fromTf, t);
    WindowBounds(fromTf, 40 * DAY);
    WindowBounds(fromTf, 100 * DAY);
    IncreasingAcceptedWhole(ticks);
    FirstCandle(fromTf, ticks[0], ticks[1], ticks[2], ticks[3]);
    FirstCandle(MONTH, ticks[0], ticks[1], ticks[2], ticks[3]);
    var small := RunTicks(fromTf, INITIAL, ticks).emitted;
    BaseTimeMonotone(MONTH, TradeOn(small[0].timestamp), ticks[0]);
    SecondCloses(fromTf, MONTH, small[0], small[1]);
    assert small == [small[0], small[1]];
  }

  /** Two stages agree with one on every run iff the windows nest; those of months never do. */
  lemma AlwaysAgreeIff(fromTf: int, toTf: int)
    requires OnGrid(fromTf) && Supported(toTf) && fromTf >= 2
    ensures AlwaysAgree(fromTf, toTf) <==> Nested(fromTf, toTf)
  {
    hide InEpochWindow, Accepted, Agrees;
    if Nested(fromTf, toTf) {
      forall ticks: seq<Tick> | !InEpochWindow(fromTf, Accepted(ticks)) ensures Agrees(fromTf, toTf, ticks) {
        WeeksKeepTogether(fromTf, toTf, Accepted(ticks));
        CascadeAgreesWithDirect(fromTf, toTf, ticks);
      }
    } else if toTf == MONTH {
      var t := PairOfJanuary(fromTf);
      JanuaryDiffers(fromTf, t);
    } else {
      var b := StraddledStart(fromTf, toTf);
      StraddledDiffers(fromTf, toTf, b);
    }
  }

  /** Of the timeframes of whole seconds that the construction accepts: those under a week, a week of itself,
      and those into a week that divide the three days by which weeks are shifted. */
  lemma AcceptedAgreeIff(fromTf: int, toTf: int)
    requires OnGrid(fromTf) && Supported(toTf) && fromTf % 1000 == 0 && toTf % 1000 == 0
    requires Seconds(fromTf) > 0 && Seconds(toTf) % Seconds(fromTf) == 0
    ensures AlwaysAgree(fromTf, toTf) <==>
            toTf < WEEK || (toTf == WEEK && (fromTf == WEEK || 3 * DAY % fromTf == 0))
  {
    hide AlwaysAgree;
    WholeSecondsDivideIff(fromTf, toTf);
    AlwaysAgreeIff(fromTf, toTf);
    assert 0 % fromTf == 0;
  }

  /** Seven hours into a week, and two or three days into a month, are accepted and do not always agree. */
  lemma AcceptedThatDiffer()
    ensures Seconds(WEEK) % Seconds(7 * HOUR) == 0 && !AlwaysAgree(7 * HOUR, WEEK)
    ensures Seconds(MONTH) % Seconds(2 * DAY) == 0 && !AlwaysAgree(2 * DAY, MONTH)
    ensures Seconds(MONTH) % Seconds(3 * DAY) == 0 && !AlwaysAgree(3 * DAY, MONTH)
  {
    hide AlwaysAgree;
    AcceptedAgreeIff(7 * HOUR, WEEK);
    AcceptedAgreeIff(2 * DAY, MONTH);
    AcceptedAgreeIff(3 * DAY, MONTH);
  }
}
