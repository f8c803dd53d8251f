/** The tick fold against its declarative meaning: one candle per non-empty time window. */
module OhlcWindows {
  import opened Basics
  import opened Calendar
  import opened OhlcGeneration
  import Grid = OhlcGrid

  /** An accepted tick, and a non-empty group of them. */
  type Live = t: Tick | t.timestamp > 0 witness Tick(1, 0.0, 0.0, 0.0)

  type Group = g: seq<Live> | g != [] witness [Tick(1, 0.0, 0.0, 0.0)]

  // ---- What the generator keeps of its input ----

  function LastAccepted(acc: seq<Live>): int {
    if acc == [] then 0 else Last(acc).timestamp
  }

  /** Ticks later than everything before them; the others are ignored. */
  function Accepted(ticks: seq<Tick>): (acc: seq<Live>)
    ensures |acc| <= |ticks|
  {
    if ticks == [] then []
    else
      var acc := Accepted(Front(ticks));
      var t := Last(ticks);
      if t.timestamp <= LastAccepted(acc) then acc else acc + [t]
  }

  predicate Increasing(ticks: seq<Tick>) {
    forall i :: 0 < i < |ticks| ==> ticks[i - 1].timestamp < ticks[i].timestamp
  }

  /** What is kept is strictly increasing, and every tick is at or before the last one kept. */
  lemma {:induction false} AcceptedIncrease(ticks: seq<Tick>)
    ensures var acc := Accepted(ticks);
            Increasing(acc) && forall i :: 0 <= i < |ticks| ==> ticks[i].timestamp <= LastAccepted(acc)
  {
    if ticks != [] {
      AcceptedIncrease(Front(ticks));
    }
  }

  /** A strictly increasing stream of positive times is kept whole. */
  lemma {:induction false} IncreasingAcceptedWhole(ticks: seq<Live>)
    requires Increasing(ticks)
    ensures Accepted(ticks) == ticks
  {
    if ticks != [] {
      IncreasingAcceptedWhole(Front(ticks));
      assert Front(ticks) + [Last(ticks)] == ticks;
    }
  }

  // ---- The groups the code forms, and the groups it should form ----

  function Flatten(gs: seq<Group>): seq<Live> {
    if gs == [] then [] else Flatten(Front(gs)) + Last(gs)
  }

  function Window(tf: int, t: Live): int
    requires Supported(tf)
  {
    BaseTime(tf, t.timestamp)
  }

  predicate Joins(tf: int, gs: seq<Group>, t: Live)
    requires Supported(tf)
  {
    gs != [] && t.timestamp < Window(tf, Last(gs)[0]) + tf
  }

  function Place(tf: int, gs: seq<Group>, t: Live): (r: seq<Group>)
    requires Supported(tf)
    ensures r != [] && Last(Last(r)) == t
  {
    if Joins(tf, gs, t) then
      var g: Group := Last(gs) + [t];
      Front(gs) + [g]
    else
      var g: Group := [t];
      gs + [g]
  }

  /** Groups as the closing test of the code cuts them. */
  function Groups(tf: int, acc: seq<Live>): (gs: seq<Group>)
    requires Supported(tf)
    ensures gs == [] <==> acc == []
    ensures acc != [] ==> Last(Last(gs)) == Last(acc)
  {
    if acc == [] then [] else Place(tf, Groups(tf, Front(acc)), Last(acc))
  }

  lemma PlaceFlatten(tf: int, gs: seq<Group>, t: Live)
    requires Supported(tf)
    ensures Flatten(Place(tf, gs, t)) == Flatten(gs) + [t]
  {
    var r := Place(tf, gs, t);
    if Joins(tf, gs, t) {
      assert Front(r) == Front(gs) && Last(r) == Last(gs) + [t];
      assert Flatten(Front(gs)) + (Last(gs) + [t]) == Flatten(Front(gs)) + Last(gs) + [t];
    } else {
      assert Front(r) == gs && Last(r) == [t];
    }
  }

  lemma {:induction false} GroupsFlatten(tf: int, acc: seq<Live>)
    requires Supported(tf)
    ensures Flatten(Groups(tf, acc)) == acc
  {
    if acc != [] {
      GroupsFlatten(tf, Front(acc));
      PlaceFlatten(tf, Groups(tf, Front(acc)), Last(acc));
      assert Front(acc) + [Last(acc)] == acc;
    }
  }

  predicate OneWindow(tf: int, g: Group)
    requires Supported(tf)
  {
    forall k :: 0 <= k < |g| ==> Window(tf, g[k]) == Window(tf, g[0])
  }

  /** Each group lies inside one window, and the windows strictly increase. */
  predicate ByWindow(tf: int, gs: seq<Group>)
    requires Supported(tf)
  {
    (forall i :: 0 <= i < |gs| ==> OneWindow(tf, gs[i]))
    && (forall i :: 0 < i < |gs| ==> Window(tf, gs[i - 1][0]) < Window(tf, gs[i][0]))
  }

  /** At each tick, the closing test agrees with a change of window since the tick before. */
  predicate ClosesWithWindow(tf: int, acc: seq<Live>)
    requires Supported(tf)
  {
    forall i :: 0 < i < |acc| ==> ClosesAt(tf, acc[i - 1], acc[i])
  }

  predicate ClosesAt(tf: int, t: Live, u: Live)
    requires Supported(tf)
  {
    u.timestamp >= Window(tf, t) + tf <==> Window(tf, u) != Window(tf, t)
  }

  lemma BaseTimeMonotone(tf: int, t: Live, u: Live)
    requires Supported(tf) && t.timestamp <= u.timestamp
    ensures Window(tf, t) <= Window(tf, u)
  {
    if tf == MONTH {
      MonthStartMonotone(t.timestamp, u.timestamp);
    } else {
      Grid.ClosingIsChangeOfWindow(tf, t.timestamp, u.timestamp);
    }
  }

  lemma PlaceByWindow(tf: int, gs: seq<Group>, t: Live)
    requires Supported(tf) && gs != [] && ByWindow(tf, gs)
    requires Window(tf, Last(Last(gs))) <= Window(tf, t)
    ensures ByWindow(tf, Place(tf, gs, t)) <==> ClosesAt(tf, Last(Last(gs)), t)
  {
    hide Window;
    var r, n := Place(tf, gs, t), |gs| - 1;
    assert OneWindow(tf, gs[n]);
    assert Window(tf, Last(gs[n])) == Window(tf, gs[n][0]);
    if Joins(tf, gs, t) {
      assert r[..n] == gs[..n] && r[n] == gs[n] + [t] && r[n][|gs[n]|] == t;
      if ClosesAt(tf, Last(gs[n]), t) {
        assert OneWindow(tf, r[n]);
      } else {
        assert !OneWindow(tf, r[n]);
      }
    } else {
      assert r[..n + 1] == gs && r[n + 1] == [t];
      assert OneWindow(tf, r[n + 1]);
    }
  }

  lemma PlaceReflectsByWindow(tf: int, gs: seq<Group>, t: Live)
    requires Supported(tf) && ByWindow(tf, Place(tf, gs, t))
    ensures ByWindow(tf, gs)
  {
    hide Window;
    var r := Place(tf, gs, t);
    forall i | 0 <= i < |gs| ensures OneWindow(tf, gs[i]) && r[i][0] == gs[i][0] {
      assert OneWindow(tf, r[i]);
      assert forall k :: 0 <= k < |gs[i]| ==> r[i][k] == gs[i][k];
    }
  }

  /** The groups of the code are the time windows iff the closing test agrees with the windows. */
  lemma {:induction false} GroupsAreWindowsIff(tf: int, acc: seq<Live>)
    requires Supported(tf) && Increasing(acc)
    ensures ByWindow(tf, Groups(tf, acc)) <==> ClosesWithWindow(tf, acc)
  {
    if |acc| > 0 {
      hide Window, ByWindow, ClosesAt, ClosesWithWindow, Place;
      var front, t, gs := Front(acc), Last(acc), Groups(tf, Front(acc));
      GroupsAreWindowsIff(tf, front);
      if front == [] {
        SingleGroup(tf, t);
        assert ClosesWithWindow(tf, acc) by { NothingToClose(tf, acc); }
      } else {
        ClosesSnoc(tf, acc);
        BaseTimeMonotone(tf, Last(front), t);
        if ByWindow(tf, gs) {
          PlaceByWindow(tf, gs, t);
        } else if ByWindow(tf, Place(tf, gs, t)) {
          PlaceReflectsByWindow(tf, gs, t);
        }
      }
    }
  }

  lemma NothingToClose(tf: int, acc: seq<Live>)
    requires Supported(tf) && |acc| == 1
    ensures ClosesWithWindow(tf, acc)
  {
  }

  lemma ClosesSnoc(tf: int, acc: seq<Live>)
    requires Supported(tf) && |acc| > 1
    ensures ClosesWithWindow(tf, acc)
       <==> (ClosesWithWindow(tf, Front(acc)) && ClosesAt(tf, Last(Front(acc)), Last(acc)))
  {
    hide ClosesAt;
    var n := |acc| - 1;
    assert Last(Front(acc)) == acc[n - 1] && Last(acc) == acc[n];
  }

  lemma SingleGroup(tf: int, t: Live)
    requires Supported(tf)
    ensures ByWindow(tf, Place(tf, [], t))
  {
    hide Window, Supported;
    var groups := Place(tf, [], t);
    assert groups == [[t]];
    assert OneWindow(tf, groups[0]);
  }

  /** Up to a week the code cuts exactly at the windows. */
  lemma GroupsAreWindows(tf: int, acc: seq<Live>)
    requires Grid.OnGrid(tf) && Increasing(acc)
    ensures ByWindow(tf, Groups(tf, acc))
  {
    forall i | 0 < i < |acc| ensures ClosesAt(tf, acc[i - 1], acc[i]) {
      Grid.ClosingIsChangeOfWindow(tf, acc[i - 1].timestamp, acc[i].timestamp);
    }
    GroupsAreWindowsIff(tf, acc);
  }

  // ---- What one candle says about its group ----

  function Volume(ticks: seq<Tick>): real {
    if ticks == [] then 0.0 else Volume(Front(ticks)) + Last(ticks).volume
  }

  /** Open first, close last, high greatest, low least. */
  predicate BarOf(b: Bar, prices: seq<real>) {
    prices != [] && b.open == prices[0] && b.close == Last(prices)
    && b.high in prices && b.low in prices
    && forall i :: 0 <= i < |prices| ==> b.low <= prices[i] <= b.high
  }

  function Bids(g: seq<Tick>): seq<real> { seq(|g|, i requires 0 <= i < |g| => g[i].bid) }

  function Offers(g: seq<Tick>): seq<real> { seq(|g|, i requires 0 <= i < |g| => g[i].ofr) }

  predicate Describes(tf: int, c: Candle, g: Group)
    requires Supported(tf)
  {
    c.timestamp == Window(tf, g[0]) && c.timeframe == tf && c.volume == Volume(g)
    && BarOf(c.bid, Bids(g)) && BarOf(c.ofr, Offers(g))
  }

  lemma BarOfPoint(p: real)
    ensures BarOf(Extend(PointBar(p), PointBar(p)), [p])
  {
    assert [p][0] == p;
  }

  lemma BarOfExtended(b: Bar, prices: seq<real>, p: real)
    requires BarOf(b, prices)
    ensures BarOf(Extend(b, PointBar(p)), prices + [p])
  {
    var all := prices + [p];
    assert all[|prices|] == p;
    assert forall q :: q in prices ==> q in all;
  }

  lemma DescribesExtended(tf: int, c: Candle, g: Group, t: Live)
    requires Supported(tf) && Describes(tf, c, g)
    ensures Describes(tf, Absorb(c, PointBar(t.bid), PointBar(t.ofr), t.volume), g + [t])
  {
    hide Window;
    BarOfExtended(c.bid, Bids(g), t.bid);
    BarOfExtended(c.ofr, Offers(g), t.ofr);
    assert Bids(g + [t]) == Bids(g) + [t.bid] && Offers(g + [t]) == Offers(g) + [t.ofr];
    assert Front(g + [t]) == g;
  }

  lemma DescribesFirst(tf: int, t: Live)
    requires Supported(tf)
    ensures Describes(tf, Absorb(NewCandle(tf, t.timestamp, PointBar(t.bid), PointBar(t.ofr)),
                                 PointBar(t.bid), PointBar(t.ofr), t.volume), [t])
  {
    hide BaseTime;
    BarOfPoint(t.bid);
    BarOfPoint(t.ofr);
    assert Bids([t]) == [t.bid] && Offers([t]) == [t.ofr];
    assert Front([t]) == [] && Volume([t]) == t.volume;
  }

  // ---- The fold over a whole run ----

  function Candles(r: Run): seq<Candle> {
    Emit(r.emitted, r.final.current)
  }

  predicate AllDescribed(tf: int, cs: seq<Candle>, gs: seq<Group>)
    requires Supported(tf)
  {
    |cs| == |gs|
    && forall i :: 0 <= i < |gs| ==> Describes(tf, cs[i], gs[i]) && (cs[i].ended <==> i < |gs| - 1)
  }

  lemma {:induction false} FoldDescribesGroups(tf: int, ticks: seq<Tick>)
    requires Supported(tf)
    ensures var acc, r := Accepted(ticks), RunTicks(tf, INITIAL, ticks);
            r.final.last == LastAccepted(acc) && (r.final.current.None? <==> acc == [])
            && AllDescribed(tf, Candles(r), Groups(tf, acc))
  {
    if ticks != [] {
      hide BaseTime, AllDescribed, Absorb, NewCandle, Place;
      var front, t := Front(ticks), Last(ticks);
      FoldDescribesGroups(tf, front);
      var acc, r := Accepted(front), RunTicks(tf, INITIAL, front);
      if t.timestamp > LastAccepted(acc) {
        assert Front(acc + [t]) == acc;
        FoldStep(tf, r, Groups(tf, acc), t);
      }
    } else {
      assert Candles(Run(INITIAL, [])) == [];
    }
  }

  lemma FoldStep(tf: int, r: Run, gs: seq<Group>, t: Live)
    requires Supported(tf) && t.timestamp > r.final.last >= 0
    requires (r.final.current.None? <==> gs == []) && AllDescribed(tf, Candles(r), gs)
    ensures var x := StepTick(tf, r.final, t);
            x.next.current.Some? && x.next.last == t.timestamp
            && AllDescribed(tf, Candles(Run(x.next, Emit(r.emitted, x.ended))), Place(tf, gs, t))
  {
    hide BaseTime, Describes;
    DescribesFirst(tf, t);
    if gs != [] {
      var n, c := |gs| - 1, r.final.current.value;
      assert Candles(r)[n] == c;
      DescribesExtended(tf, c, gs[n], t);
      DescribesEnded(tf, c, gs[n]);
      assert c.timestamp == Window(tf, gs[n][0]);
    }
  }

  lemma DescribesEnded(tf: int, c: Candle, g: Group)
    requires Supported(tf) && Describes(tf, c, g)
    ensures Describes(tf, c.(ended := true), g) && c.timestamp == Window(tf, g[0])
  {
  }

  /** The tick fold is grouping by time window, up to a week: the ended candles and the current
      one are exactly one candle per non-empty window of the accepted ticks. */
  lemma TickFoldIsGroupByWindow(tf: int, ticks: seq<Tick>)
    requires Grid.OnGrid(tf)
    ensures var acc, cs := Accepted(ticks), Candles(RunTicks(tf, INITIAL, ticks));
            var gs := Groups(tf, acc);
            Flatten(gs) == acc && ByWindow(tf, gs) && AllDescribed(tf, cs, gs)
            && forall i :: 0 < i < |cs| ==> cs[i - 1].timestamp < cs[i].timestamp
  {
    hide BaseTime, Window;
    AcceptedIncrease(ticks);
    FoldDescribesGroups(tf, ticks);
    GroupsFlatten(tf, Accepted(ticks));
    GroupsAreWindows(tf, Accepted(ticks));
  }

  function TotalVolume(cs: seq<Candle>): real {
    if cs == [] then 0.0 else TotalVolume(Front(cs)) + Last(cs).volume
  }

  lemma {:induction false} VolumeAppend(g: seq<Tick>, h: seq<Tick>)
    ensures Volume(g + h) == Volume(g) + Volume(h)
  {
    if h == [] {
      assert g + h == g;
    } else {
      VolumeAppend(g, Front(h));
      assert Front(g + h) == g + Front(h);
    }
  }

  lemma {:induction false} VolumeOfGroups(cs: seq<Candle>, gs: seq<Group>)
    requires |cs| == |gs|
    requires forall i :: 0 <= i < |gs| ==> cs[i].volume == Volume(gs[i])
    ensures TotalVolume(cs) == Volume(Flatten(gs))
  {
    if cs != [] {
      VolumeOfGroups(Front(cs), Front(gs));
      VolumeAppend(Flatten(Front(gs)), Last(gs));
    }
  }

  /** No volume is lost or counted twice, for every supported timeframe. */
  lemma VolumeConserved(tf: int, ticks: seq<Tick>)
    requires Supported(tf)
    ensures TotalVolume(Candles(RunTicks(tf, INITIAL, ticks))) == Volume(Accepted(ticks))
  {
    hide BaseTime;
    FoldDescribesGroups(tf, ticks);
    GroupsFlatten(tf, Accepted(ticks));
    VolumeOfGroups(Candles(RunTicks(tf, INITIAL, ticks)), Groups(tf, Accepted(ticks)));
  }

  /** Batches compose: feeding `xs` and then `ys` is feeding `xs + ys`. */
  lemma {:induction false} BatchesCompose(tf: int, s: State, xs: seq<Tick>, ys: seq<Tick>)
    requires Supported(tf) && s.last >= 0
    ensures var a := RunTicks(tf, s, xs);
            var b := RunTicks(tf, a.final, ys);
            RunTicks(tf, s, xs + ys) == Run(b.final, a.emitted + b.emitted)
  {
    hide StepTick;
    var a := RunTicks(tf, s, xs);
    if ys == [] {
      assert xs + ys == xs;
      assert a.emitted + [] == a.emitted;
    } else {
      var front := ys[..|ys| - 1];
      BatchesCompose(tf, s, xs, front);
      assert (xs + ys)[..|xs + ys| - 1] == xs + front;
      assert (xs + ys)[|xs + ys| - 1] == ys[|ys| - 1];
    }
  }

  // ---- The month timeframe closes 30 days after the first of the month ----

  lemma MonthWindow(d: Date, n: nat, t: Live)
    requires ValidDate(d) && d.year >= 1970 && Gday(d) == EpochDay() + n && t.timestamp == n * DAY
    ensures Window(MONTH, t) == (n - (d.day - 1)) * DAY
  {
    hide Gday, Dft;
    DftInvertsGday(d);
    assert n * DAY / DAY == n;
    MonthStartIsFirstDay(n * DAY);
  }

  lemma DaysOf1970()
    ensures Gday(Date(1970, 1, 30)) == EpochDay() + 29 && Gday(Date(1970, 1, 31)) == EpochDay() + 30
    ensures Gday(Date(1970, 2, 28)) == EpochDay() + 58 && Gday(Date(1970, 3, 1)) == EpochDay() + 59
  {
    hide Gday, YearDays;
    GdayParts(Date(1970, 1, 1), 1969, 10);
    GdayParts(Date(1970, 1, 30), 1969, 10);
    GdayParts(Date(1970, 1, 31), 1969, 10);
    GdayParts(Date(1970, 2, 28), 1969, 11);
    GdayParts(Date(1970, 3, 1), 1970, 0);
    YearDaysStep(1970);
  }

  /** Two ticks, at midnight of two successive days of the epoch. */
  function Midnights(n: nat): (r: seq<Live>)
    requires n > 0
    ensures |r| == 2 && Increasing(r)
  {
    [Tick(n * DAY, 1.0, 1.0, 1.0), Tick((n + 1) * DAY, 1.0, 1.0, 1.0)]
  }

  /** Grouping by month fails both ways. The 31st opens a second candle for its own month, and 1 March
      is added to the candle of February. */
  lemma MonthGroupingFails()
    ensures var january := Midnights(29);
            Window(MONTH, january[0]) == Window(MONTH, january[1]) && |Groups(MONTH, january)| == 2
            && !ByWindow(MONTH, Groups(MONTH, january))
    ensures var march := Midnights(58);
            Window(MONTH, march[0]) != Window(MONTH, march[1]) && |Groups(MONTH, march)| == 1
            && !ByWindow(MONTH, Groups(MONTH, march))
  {
    hide Window, Gday;
    DaysOf1970();
    TwoDays(Date(1970, 1, 30), Date(1970, 1, 31), 29);
    TwoDays(Date(1970, 2, 28), Date(1970, 3, 1), 58);
  }

  lemma TwoDays(d: Date, e: Date, n: nat)
    requires ValidDate(d) && ValidDate(e) && d.year >= 1970 && e.year >= 1970 && n > 0
    requires Gday(d) == EpochDay() + n && Gday(e) == EpochDay() + n + 1
    ensures var ticks := Midnights(n);
            Window(MONTH, ticks[0]) == (n - (d.day - 1)) * DAY
            && Window(MONTH, ticks[1]) == (n + 1 - (e.day - 1)) * DAY
            && |Groups(MONTH, ticks)| == (if d.day >= 30 then 2 else 1)
            && (ByWindow(MONTH, Groups(MONTH, ticks)) <==> ClosesAt(MONTH, ticks[0], ticks[1]))
  {
    hide Window, Gday, ByWindow;
    var ticks := Midnights(n);
    MonthWindow(d, n, ticks[0]);
    MonthWindow(e, n + 1, ticks[1]);
    GroupsAreWindowsIff(MONTH, ticks);
    assert Front(ticks) == [ticks[0]] && Front([ticks[0]]) == [];
    assert Groups(MONTH, [ticks[0]]) == [[ticks[0]]];
  }
}
