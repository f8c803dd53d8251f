/** The online OHLC generator: ticks, or ended candles of a smaller timeframe, are folded into
    candles of a larger one. Times are integer milliseconds; prices and volumes are exact reals. */
module OhlcGeneration {
  import opened Arithmetic
  import opened Basics
  import opened Calendar

  const WEEK := 7 * DAY
  const MONTH := 30 * DAY

  datatype Result<+T> = Ok(value: T) | ValueError

  datatype Tick = Tick(timestamp: int, bid: real, ofr: real, volume: real)

  datatype Bar = Bar(open: real, high: real, low: real, close: real)

  datatype Candle = Candle(timestamp: int, timeframe: int, ended: bool, bid: Bar, ofr: Bar, volume: real)

  /** Timeframes for which `basetime` has a branch. */
  predicate Supported(tf: int) {
    0 < tf <= WEEK || tf == MONTH
  }

  function BaseTime(tf: int, timestamp: int): int
    requires Supported(tf) && timestamp >= 0
  {
    if tf < WEEK then timestamp / tf * tf
    else if tf == WEEK then
      var day := timestamp / DAY;
      var weekday := (day + 3) % 7;  // Monday is 0, and 1970-01-01 was a Thursday
      (day - weekday) * DAY
    else MonthStart(timestamp)
  }

  // ---- Specification: one step and whole runs of the generator ----

  datatype State = State(current: Option<Candle>, last: int)

  datatype Step = Step(next: State, ended: Option<Candle>)

  const INITIAL := State(None, 0)

  function PointBar(price: real): Bar { Bar(price, price, price, price) }

  function Extend(b: Bar, c: Bar): Bar {
    Bar(b.open, Max(b.high, c.high), Min(b.low, c.low), c.close)
  }

  function NewCandle(tf: int, timestamp: int, bid: Bar, ofr: Bar): Candle
    requires Supported(tf) && timestamp >= 0
  {
    Candle(BaseTime(tf, timestamp), tf, false, bid, ofr, 0.0)
  }

  function Absorb(c: Candle, bid: Bar, ofr: Bar, volume: real): Candle {
    c.(bid := Extend(c.bid, bid), ofr := Extend(c.ofr, ofr), volume := c.volume + volume)
  }

  predicate Closes(tf: int, current: Option<Candle>, timestamp: int) {
    current.Some? && timestamp >= current.value.timestamp + tf
  }

  function Advance(tf: int, s: State, timestamp: int, bid: Bar, ofr: Bar, volume: real): Step
    requires Supported(tf) && s.last >= 0
  {
    if timestamp <= s.last then Step(s, None)
    else
      var closes := Closes(tf, s.current, timestamp);
      var base := if s.current.None? || closes then NewCandle(tf, timestamp, bid, ofr) else s.current.value;
      Step(State(Some(Absorb(base, bid, ofr, volume)), timestamp),
           if closes then Some(s.current.value.(ended := true)) else None)
  }

  function StepTick(tf: int, s: State, t: Tick): Step
    requires Supported(tf) && s.last >= 0
  {
    Advance(tf, s, t.timestamp, PointBar(t.bid), PointBar(t.ofr), t.volume)
  }

  function StepCandle(fromTf: int, tf: int, s: State, c: Candle): Result<Step>
    requires Supported(tf) && s.last >= 0
  {
    if !c.ended then Ok(Step(s, None))
    else if fromTf != c.timeframe then ValueError
    else Ok(Advance(tf, s, c.timestamp, c.bid, c.ofr, c.volume))
  }

  datatype Run = Run(final: State, emitted: seq<Candle>)

  function Emit(emitted: seq<Candle>, ended: Option<Candle>): seq<Candle> {
    if ended.Some? then emitted + [ended.value] else emitted
  }

  function RunTicks(tf: int, s: State, ticks: seq<Tick>): (r: Run)
    requires Supported(tf) && s.last >= 0
    ensures r.final.last >= s.last
  {
    if ticks == [] then Run(s, [])
    else
      var r := RunTicks(tf, s, ticks[..|ticks| - 1]);
      var x := StepTick(tf, r.final, ticks[|ticks| - 1]);
      Run(x.next, Emit(r.emitted, x.ended))
  }

  /** A mismatched timeframe stops the run; the state reached so far is kept. */
  datatype CandleRun = CandleRun(run: Run, failed: bool)

  function RunCandles(fromTf: int, tf: int, s: State, cs: seq<Candle>): (r: CandleRun)
    requires Supported(tf) && s.last >= 0
    ensures r.run.final.last >= s.last
  {
    if cs == [] then CandleRun(Run(s, []), false)
    else
      var r := RunCandles(fromTf, tf, s, cs[..|cs| - 1]);
      if r.failed then r
      else
        match StepCandle(fromTf, tf, r.run.final, cs[|cs| - 1])
        case ValueError => r.(failed := true)
        case Ok(x) => CandleRun(Run(x.next, Emit(r.run.emitted, x.ended)), false)
  }

  lemma {:induction false} RunCandlesFailureIsFinal(fromTf: int, tf: int, s: State, cs: seq<Candle>, k: nat)
    requires Supported(tf) && s.last >= 0 && k <= |cs|
    requires RunCandles(fromTf, tf, s, cs[..k]).failed
    ensures RunCandles(fromTf, tf, s, cs) == RunCandles(fromTf, tf, s, cs[..k])
  {
    if k < |cs| {
      assert cs[..|cs| - 1][..k] == cs[..k];
      RunCandlesFailureIsFinal(fromTf, tf, s, cs[..|cs| - 1], k);
    } else {
      assert cs[..k] == cs;
    }
  }

  // ---- The generator object ----

  datatype Construction = Made(generator: OhlcGenerator) | NotADivider | DivisionByZero

  /** The number of whole seconds in a timeframe, cut toward zero. */
  function Seconds(tf: int): int { TruncDiv(tf, 1000) }

  lemma ShiftedRemainder(q: int, d: int, x: int)
    requires d > 0
    ensures (q * d + x) % d == x % d
  {
    var p := x / d;
    assert x == p * d + x % d;
    assert q * d + x == (q + p) * d + x % d;
    QuotientUnique(q * d + x, d, q + p);
  }

  /** The check on whole seconds against division of the timeframes, fractions included. An accepted
      timeframe is a divider iff it divides what its fractions leave over; a divider is accepted iff its
      whole seconds divide the whole seconds that its fractions add up to. */
  lemma TruncationKeepsDivisionIff(fromTf: nat, toTf: nat)
    requires Seconds(fromTf) > 0
    ensures var a, r, b, s := Seconds(fromTf), fromTf % 1000, Seconds(toTf), toTf % 1000;
            && (b % a == 0 ==> (toTf % fromTf == 0 <==> (s - b / a * r) % fromTf == 0))
            && (toTf % fromTf == 0 ==> (b % a == 0 <==> (toTf / fromTf * r / 1000) % a == 0))
  {
    var a, r, b, s := Seconds(fromTf), fromTf % 1000, Seconds(toTf), toTf % 1000;
    assert fromTf == 1000 * a + r && toTf == 1000 * b + s;
    if b % a == 0 {
      var q := b / a;
      assert b == q * a;
      assert toTf == q * fromTf + (s - q * r) by {
        assert q * fromTf == 1000 * (q * a) + q * r;
      }
      ShiftedRemainder(q, fromTf, s - q * r);
    }
    if toTf % fromTf == 0 {
      var m := toTf / fromTf;
      assert toTf == m * fromTf;
      DividerInSeconds(a, r, m);
      ShiftedRemainder(m, a, m * r / 1000);
    }
  }

  lemma DividerInSeconds(a: nat, r: nat, m: nat)
    ensures m * (1000 * a + r) / 1000 == m * a + m * r / 1000
  {
    var x := m * r;
    assert m * (1000 * a + r) == 1000 * (m * a) + x;
    QuotientUnique(1000 * (m * a) + x, 1000, m * a + x / 1000);
  }

  /** On whole seconds there is nothing left over: the construction accepts exactly the dividers. */
  lemma WholeSecondsDivideIff(fromTf: nat, toTf: nat)
    requires fromTf > 0 && fromTf % 1000 == 0 && toTf % 1000 == 0
    ensures Seconds(fromTf) > 0
    ensures Seconds(toTf) % Seconds(fromTf) == 0 <==> toTf % fromTf == 0
  {
    var x, y := fromTf / 1000, toTf / 1000;
    ThousandfoldDivides(x, y);
    assert fromTf == 1000 * x && toTf == 1000 * y;
  }

  lemma ThousandfoldDivides(x: nat, y: nat)
    requires x > 0
    ensures 1000 * y % (1000 * x) == 0 <==> y % x == 0
  {
    var q, r := y / x, y % x;
    assert 1000 * y == q * (1000 * x) + 1000 * r;
    QuotientUnique(1000 * y, 1000 * x, q);
  }

  /** A second and a half is accepted as a divider of two seconds, and two and a half are refused as a
      divider of seven and a half. */
  lemma FractionsAreMisjudged()
    ensures Seconds(2000) % Seconds(1500) == 0 && 2000 % 1500 != 0
    ensures Seconds(7500) % Seconds(2500) != 0 && 7500 % 2500 == 0
  {
  }

  class OhlcGenerator {
    const fromTf: int
    const toTf: int
    var ohlc: Option<Candle>
    var lastTimestamp: int
    var lastConsumed: nat

    ghost predicate Valid()
      reads this
    {
      lastTimestamp >= 0
    }

    ghost function Abs(): State
      reads this
    {
      State(ohlc, lastTimestamp)
    }

    constructor (fromTf: int, toTf: int)
      ensures Valid() && Abs() == INITIAL && this.fromTf == fromTf && this.toTf == toTf
    {
      this.fromTf, this.toTf := fromTf, toTf;
      ohlc, lastTimestamp, lastConsumed := None, 0, 0;
    }

    /** The checked construction: the timeframes are cut to whole seconds before they are divided. */
    static method Create(fromTf: int, toTf: int) returns (r: Construction)
      ensures r.DivisionByZero? <==> fromTf != 0 && Seconds(fromTf) == 0
      ensures r.NotADivider? <==> Seconds(fromTf) != 0 && Seconds(toTf) % Seconds(fromTf) != 0
      ensures r.Made? ==> fresh(r.generator) && r.generator.Valid() && r.generator.Abs() == INITIAL
                          && r.generator.fromTf == fromTf && r.generator.toTf == toTf
    {
      if fromTf != 0 {
        if Seconds(fromTf) == 0 {
          return DivisionByZero;
        }
        if Seconds(toTf) % Seconds(fromTf) != 0 {
          return NotADivider;
        }
      }
      var g := new OhlcGenerator(fromTf, toTf);
      r := Made(g);
    }

    method UpdateFromTick(fromTick: Option<Tick>) returns (ended: Option<Candle>)
      requires Valid() && Supported(toTf)
      modifies this`ohlc, this`lastTimestamp
      ensures Valid()
      ensures fromTick.None? ==> Abs() == old(Abs()) && ended == None
      ensures fromTick.Some? ==> Step(Abs(), ended) == StepTick(toTf, old(Abs()), fromTick.value)
    {
      ended := None;
      if fromTick.None? {
        return;
      }
      var t := fromTick.value;
      if t.timestamp <= lastTimestamp {
        return;
      }
      if ohlc.Some? && t.timestamp >= ohlc.value.timestamp + toTf {
        ended := Some(ohlc.value.(ended := true));
        ohlc := None;
      }
      if ohlc.None? {
        ohlc := Some(Candle(BaseTime(toTf, t.timestamp), toTf, false, PointBar(t.bid), PointBar(t.ofr), 0.0));
      }
      var c := ohlc.value;
      c := c.(volume := c.volume + t.volume);
      c := c.(bid := c.bid.(high := Max(c.bid.high, t.bid), low := Min(c.bid.low, t.bid)));
      c := c.(bid := c.bid.(close := t.bid));
      c := c.(ofr := c.ofr.(high := Max(c.ofr.high, t.ofr), low := Min(c.ofr.low, t.ofr)));
      c := c.(ofr := c.ofr.(close := t.ofr));
      ohlc := Some(c);
      lastTimestamp := t.timestamp;
    }

    method GenerateFromTicks(fromTicks: seq<Tick>) returns (toOhlcs: seq<Candle>)
      requires Valid() && Supported(toTf)
      modifies this
      ensures Valid() && lastConsumed == |fromTicks|
      ensures Run(Abs(), toOhlcs) == RunTicks(toTf, old(Abs()), fromTicks)
    {
      toOhlcs := [];
      lastConsumed := 0;
      for i := 0 to |fromTicks|
        invariant Valid() && lastConsumed == i
        invariant Run(Abs(), toOhlcs) == RunTicks(toTf, old(Abs()), fromTicks[..i])
      {
        assert fromTicks[..i + 1][..i] == fromTicks[..i];
        var ended := UpdateFromTick(Some(fromTicks[i]));
        if ended.Some? {
          toOhlcs := toOhlcs + [ended.value];
        }
        lastConsumed := lastConsumed + 1;
      }
      assert fromTicks[..|fromTicks|] == fromTicks;
    }

    method UpdateFromOhlc(fromOhlc: Option<Candle>) returns (r: Result<Option<Candle>>)
      requires Valid() && Supported(toTf)
      modifies this`ohlc, this`lastTimestamp
      ensures Valid()
      ensures fromOhlc.None? ==> Abs() == old(Abs()) && r == Ok(None)
      ensures fromOhlc.Some? ==>
                match StepCandle(fromTf, toTf, old(Abs()), fromOhlc.value)
                case ValueError => r.ValueError? && Abs() == old(Abs())
                case Ok(x) => Abs() == x.next && r == Ok(x.ended)
    {
      if fromOhlc.None? || !fromOhlc.value.ended {
        return Ok(None);
      }
      var f := fromOhlc.value;
      if fromTf != f.timeframe {
        return ValueError;
      }
      if f.timestamp <= lastTimestamp {
        return Ok(None);
      }
      var ended: Option<Candle> := None;
      if ohlc.Some? && f.timestamp >= ohlc.value.timestamp + toTf {
        ended := Some(ohlc.value.(ended := true));
        ohlc := None;
      }
      if ohlc.None? {
        ohlc := Some(Candle(BaseTime(toTf, f.timestamp), toTf, false, f.bid, f.ofr, 0.0));
      }
      var c := ohlc.value;
      c := c.(volume := c.volume + f.volume);
      c := c.(bid := c.bid.(high := Max(c.bid.high, f.bid.high), low := Min(c.bid.low, f.bid.low)));
      c := c.(bid := c.bid.(close := f.bid.close));
      c := c.(ofr := c.ofr.(high := Max(c.ofr.high, f.ofr.high), low := Min(c.ofr.low, f.ofr.low)));
      c := c.(ofr := c.ofr.(close := f.ofr.close));
      ohlc := Some(c);
      lastTimestamp := f.timestamp;
      return Ok(ended);
    }

    method GenerateFromOhlcs(fromOhlcs: seq<Candle>) returns (r: Result<seq<Candle>>)
      requires Valid() && Supported(toTf)
      modifies this
      ensures Valid()
      ensures var spec := RunCandles(fromTf, toTf, old(Abs()), fromOhlcs);
              Abs() == spec.run.final
              && (if spec.failed then r.ValueError? else r == Ok(spec.run.emitted) && lastConsumed == |fromOhlcs|)
    {
      var toOhlcs := [];
      lastConsumed := 0;
      for i := 0 to |fromOhlcs|
        invariant Valid() && lastConsumed == i
        invariant RunCandles(fromTf, toTf, old(Abs()), fromOhlcs[..i]) == CandleRun(Run(Abs(), toOhlcs), false)
      {
        assert fromOhlcs[..i + 1][..i] == fromOhlcs[..i];
        var x := UpdateFromOhlc(Some(fromOhlcs[i]));
        if x.ValueError? {
          RunCandlesFailureIsFinal(fromTf, toTf, old(Abs()), fromOhlcs, i + 1);
          return ValueError;
        }
        if x.value.Some? {
          toOhlcs := toOhlcs + [x.value.value];
        }
        lastConsumed := lastConsumed + 1;
      }
      assert fromOhlcs[..|fromOhlcs|] == fromOhlcs;
      return Ok(toOhlcs);
    }
  }
}
