/** What the one-pass statistics mean, and why the order of the strategies does not matter. */
module StatisticsLaws {
  import opened Basics
  import opened TradeStatistics

  // ---- Peaks and draw-downs against prefix sums ----

  function Cumulated(s: seq<Trade>, u: Unit, i: nat): real
    requires i <= |s|
  {
    Total(s[..i], u)
  }

  /** `x` is the maximum of 0 and all sums of the first trades. */
  predicate MaxOfPrefixes(s: seq<Trade>, u: Unit, x: real) {
    (forall i :: 0 <= i <= |s| ==> Cumulated(s, u, i) <= x) && exists i :: 0 <= i <= |s| && Cumulated(s, u, i) == x
  }

  lemma CumulatedFront(s: seq<Trade>, u: Unit)
    requires s != []
    ensures forall i :: 0 <= i < |s| ==> Cumulated(Front(s), u, i) == Cumulated(s, u, i)
    ensures Cumulated(s, u, |s|) == Total(s, u)
  {
    forall i | 0 <= i < |s| ensures Cumulated(Front(s), u, i) == Cumulated(s, u, i) {
      assert Front(s)[..i] == s[..i];
    }
    assert s[..|s|] == s;
  }

  lemma TrackStep(s: seq<Trade>, u: Unit, recover: int)
    ensures s == [] ==> Fold(s, u, recover).track == Track(0.0, 0.0, 0, recover)
    ensures s != [] ==> Fold(s, u, recover).track == Advance(Fold(Front(s), u, recover).track, Last(s), u)
  {
    hide Elapsed, Advance;
  }

  lemma MaxStep(s: seq<Trade>, u: Unit, x: real)
    requires s != [] && MaxOfPrefixes(Front(s), u, x)
    ensures MaxOfPrefixes(s, u, Max(x, Total(s, u)))
  {
    hide Cumulated;
    CumulatedFront(s, u);
    var i :| 0 <= i < |s| && Cumulated(Front(s), u, i) == x;
    assert Cumulated(s, u, i) == x;
  }

  /** The cumulated result is the sum of all trades, and the peak the maximum of 0 and all prefix sums. */
  lemma {:induction false} PeakIsMaxOfPrefixes(s: seq<Trade>, u: Unit, recover: int)
    ensures Fold(s, u, recover).track.cum == Total(s, u)
    ensures MaxOfPrefixes(s, u, Fold(s, u, recover).track.peak)
  {
    hide Fold, Bucket, Cumulated, MaxOfPrefixes;
    TrackStep(s, u, recover);
    if s == [] {
      EmptyMax(u);
    } else {
      PeakIsMaxOfPrefixes(Front(s), u, recover);
      MaxStep(s, u, Fold(Front(s), u, recover).track.peak);
    }
  }

  lemma EmptyMax(u: Unit)
    ensures MaxOfPrefixes([], u, 0.0)
  {
    assert Cumulated([], u, 0) == 0.0;
  }

  lemma MaxOfPrefixesUnique(s: seq<Trade>, u: Unit, x: real, y: real)
    requires MaxOfPrefixes(s, u, x) && MaxOfPrefixes(s, u, y)
    ensures x == y
  {
  }

  /** Each squared draw-down is the squared distance from the highest sum so far to the current one. */
  lemma {:induction false} DrawDownsFromPeaks(s: seq<Trade>, u: Unit, recover: int, i: nat, peak: real)
    requires i < |s| && MaxOfPrefixes(s[..i + 1], u, peak)
    ensures var d := peak - Cumulated(s, u, i + 1); Fold(s, u, recover).drawDowns[i] == d * d
  {
    hide Elapsed, Bucket, Cumulated, MaxOfPrefixes, Advance;
    if i < |s| - 1 {
      assert Front(s)[..i + 1] == s[..i + 1];
      DrawDownsFromPeaks(Front(s), u, recover, i, peak);
      CumulatedFront(s, u);
    } else {
      assert s[..i + 1] == s;
      PeakIsMaxOfPrefixes(s, u, recover);
      MaxOfPrefixesUnique(s, u, peak, Fold(s, u, recover).track.peak);
      CumulatedFront(s, u);
      SquareOfOpposite(Fold(s, u, recover).track.cum - peak);
    }
  }

  lemma SquareOfOpposite(x: real)
    ensures Square(x) == Square(-x)
  {
  }

  // ---- The longest time to recover ----

  /** Trade `i` brings the cumulated result to a maximum, a tie included. */
  predicate ReachesPeak(s: seq<Trade>, u: Unit, i: nat)
    requires i < |s|
  {
    Cumulated(s, u, i + 1) >= 0.0 && forall j :: 0 <= j <= i ==> Cumulated(s, u, j) <= Cumulated(s, u, i + 1)
  }

  /** The exit times of the trades that reach a peak, in order. */
  function PeakTimes(s: seq<Trade>, u: Unit): seq<int> {
    if s == [] then []
    else PeakTimes(Front(s), u) + (if ReachesPeak(s, u, |s| - 1) then [Last(s).exit] else [])
  }

  /** The last trade reaches a peak exactly when the pass records one. */
  lemma LastReachesPeak(s: seq<Trade>, u: Unit, recover: int)
    requires s != []
    ensures ReachesPeak(s, u, |s| - 1) <==> Total(s, u) >= Fold(Front(s), u, recover).track.peak
  {
    hide Cumulated, Fold, Bucket;
    PeakIsMaxOfPrefixes(Front(s), u, recover);
    CumulatedFront(s, u);
    FirstCumulated(Front(s), u);
    var f := Front(s);
    var j :| 0 <= j <= |f| && Cumulated(f, u, j) == Fold(f, u, recover).track.peak;
    assert Cumulated(s, u, j) == Cumulated(f, u, j);
  }

  lemma FirstCumulated(s: seq<Trade>, u: Unit)
    ensures Cumulated(s, u, 0) == 0.0
  {
    assert s[..0] == [];
  }

  /** `gap` is the longest time between successive peaks, or `from` when none is longer; the clock
      does not run from a peak at time 0. */
  predicate LongestGap(peaks: seq<int>, from: int, gap: int) {
    gap >= from
    && (forall i :: 0 < i < |peaks| && peaks[i - 1] > 0 ==> peaks[i] - peaks[i - 1] <= gap)
    && (gap == from || exists i :: 0 < i < |peaks| && peaks[i - 1] > 0 && peaks[i] - peaks[i - 1] == gap)
  }

  lemma LongestGapSnoc(peaks: seq<int>, from: int, gap: int, t: int)
    requires LongestGap(peaks, from, gap)
    ensures LongestGap(peaks + [t], from,
                       if peaks != [] && Last(peaks) > 0 then MaxInt(gap, t - Last(peaks)) else gap)
  {
    var all := peaks + [t];
    assert forall i :: 0 <= i < |peaks| ==> all[i] == peaks[i];
    assert all[|peaks|] == t;
  }

  /** The maximum time to recover is the longest time between successive peaks of the run. */
  lemma {:induction false} RecoverIsLongestGap(s: seq<Trade>, u: Unit, recover: int)
    ensures var k, peaks := Fold(s, u, recover).track, PeakTimes(s, u);
            k.peakTs == (if peaks == [] then 0 else Last(peaks)) && LongestGap(peaks, recover, k.recover)
  {
    hide Fold, Bucket, LongestGap, Cumulated, ReachesPeak;
    TrackStep(s, u, recover);
    if s == [] {
      assert LongestGap([], recover, recover) by { NoGap(recover); }
    } else {
      RecoverIsLongestGap(Front(s), u, recover);
      LastReachesPeak(s, u, recover);
      PeakIsMaxOfPrefixes(s, u, recover);
      LongestGapSnoc(PeakTimes(Front(s), u), recover, Fold(Front(s), u, recover).track.recover, Last(s).exit);
      assert PeakTimes(Front(s), u) + [] == PeakTimes(Front(s), u);
    }
  }

  lemma NoGap(from: int)
    ensures LongestGap([], from, from)
  {
  }

  // ---- Monthly buckets ----

  /** Sum of the results that fall in bucket `b`. */
  function InBucket(s: seq<Trade>, u: Unit, b: nat): real {
    if s == [] then 0.0 else InBucket(Front(s), u, b) + (if Bucket(s) == b then Result(Last(s), u) else 0.0)
  }

  lemma {:induction false} NothingBeyond(s: seq<Trade>, u: Unit, b: nat)
    requires b > Bucket(s)
    ensures InBucket(s, u, b) == 0.0
  {
    if s != [] {
      NothingBeyond(Front(s), u, b);
    }
  }

  lemma MonthsStep(s: seq<Trade>, u: Unit, recover: int)
    requires s != []
    ensures Fold(s, u, recover).months
         == AddToLast(Fold(Front(s), u, recover).months + Zeros(Elapsed(s)), Result(Last(s), u))
    ensures Fold(s, u, recover).winning + Fold(s, u, recover).losing
         == Fold(Front(s), u, recover).winning + Fold(Front(s), u, recover).losing + Result(Last(s), u)
  {
    hide Elapsed, Advance, AddToLast;
  }

  /** Each bucket holds exactly the results of its trades. */
  lemma {:induction false} MonthsAreBuckets(s: seq<Trade>, u: Unit, recover: int, b: nat)
    requires b <= Bucket(s)
    ensures Fold(s, u, recover).months[b] == InBucket(s, u, b)
  {
    hide Elapsed;
    if s != [] {
      hide Fold;
      MonthsStep(s, u, recover);
      if b <= Bucket(Front(s)) {
        MonthsAreBuckets(Front(s), u, recover, b);
      } else {
        NothingBeyond(Front(s), u, b);
      }
    }
  }

  lemma {:induction false} SumZeros(m: seq<real>, n: nat)
    ensures Sum(m + Zeros(n)) == Sum(m)
  {
    if n == 0 {
      assert m + Zeros(0) == m;
    } else {
      SumZeros(m, n - 1);
      assert Front(m + Zeros(n)) == m + Zeros(n - 1);
    }
  }

  lemma SumAddToLast(m: seq<real>, x: real)
    requires m != []
    ensures Sum(AddToLast(m, x)) == Sum(m) + x
  {
    assert Front(AddToLast(m, x)) == Front(m);
  }

  /** No result is lost: the buckets, and the winning and losing totals, add up to the total. */
  lemma {:induction false} ResultsConserved(s: seq<Trade>, u: Unit, recover: int)
    ensures var k := Fold(s, u, recover);
            Sum(k.months) == Total(s, u) == k.winning + k.losing
  {
    if s == [] {
      assert Front([0.0]) == [];
    } else {
      hide Elapsed, AddToLast, Zeros, Fold, Bucket;
      MonthsStep(s, u, recover);
      ResultsConserved(Front(s), u, recover);
      var m := Fold(Front(s), u, recover).months;
      SumZeros(m, Elapsed(s));
      SumAddToLast(m + Zeros(Elapsed(s)), Result(Last(s), u));
    }
  }

  // ---- The two units ----

  function Percentages(s: seq<Trade>): seq<real> {
    if s == [] then [] else Percentages(Front(s)) + [Last(s).pnlPct]
  }

  function Profits(s: seq<Trade>): seq<real> {
    if s == [] then [] else Profits(Front(s)) + [Last(s).pnl]
  }

  lemma {:induction false} TotalsOfUnits(s: seq<Trade>)
    ensures Total(s, Pct) == Sum(Percentages(s)) && Total(s, Money) == Sum(Profits(s))
  {
    if s != [] {
      TotalsOfUnits(Front(s));
    }
  }

  /** The report in percent is about the percentages of the trades, and the one in money about their
      profits: both the cumulated results and the buckets add up to them. */
  lemma EachUnitItsOwn(s: seq<Trade>, recoverPct: int, recover: int, flat: int)
    ensures var r := ReportOf(s, recoverPct, recover, flat);
            r.pct.track.cum == Sum(r.pct.months) == Sum(Percentages(s))
            && r.money.track.cum == Sum(r.money.months) == Sum(Profits(s))
  {
    hide Fold, Total, MaxOfPrefixes;
    TotalsOfUnits(s);
    PeakIsMaxOfPrefixes(s, Pct, recoverPct);
    PeakIsMaxOfPrefixes(s, Money, recover);
    ResultsConserved(s, Pct, recoverPct);
    ResultsConserved(s, Money, recover);
  }

  // ---- The order of the strategies does not matter ----

  /** No two different trades left at the same time. */
  predicate NoTies(ts: seq<Trade>) {
    forall i, j :: 0 <= i < |ts| && 0 <= j < |ts| && ts[i].exit == ts[j].exit ==> ts[i] == ts[j]
  }

  lemma PermutationMembers(a: seq<Trade>, b: seq<Trade>, i: nat) returns (j: nat)
    requires multiset(a) == multiset(b) && i < |a|
    ensures j < |b| && b[j] == a[i]
  {
    assert a[i] in multiset(a);
    assert a[i] in b;
    j :| j < |b| && b[j] == a[i];
  }

  lemma SameLast(a: seq<Trade>, b: seq<Trade>)
    requires SortedByExit(a) && SortedByExit(b) && multiset(a) == multiset(b) && NoTies(a) && a != [] && b != []
    ensures Last(a) == Last(b)
  {
    var i := PermutationMembers(a, b, |a| - 1);
    var j := PermutationMembers(b, a, |b| - 1);
    assert Last(a).exit <= Last(b).exit;
    assert a[j] == Last(b) && Last(b).exit <= Last(a).exit;
  }

  lemma FrontMultiset(a: seq<Trade>)
    requires a != []
    ensures multiset(a) == multiset(Front(a)) + multiset{Last(a)}
  {
    assert a == Front(a) + [Last(a)];
  }

  lemma Cancel<T>(a: multiset<T>, b: multiset<T>, x: T)
    requires a + multiset{x} == b + multiset{x}
    ensures a == b
  {
    assert a == (a + multiset{x}) - multiset{x};
    assert b == (b + multiset{x}) - multiset{x};
  }

  lemma {:induction false} SortedUnique(a: seq<Trade>, b: seq<Trade>)
    requires SortedByExit(a) && SortedByExit(b) && multiset(a) == multiset(b) && NoTies(a)
    ensures a == b
  {
    assert |a| == |multiset(a)| == |multiset(b)| == |b|;
    if a != [] {
      SameLast(a, b);
      FrontMultiset(a);
      FrontMultiset(b);
      Cancel(multiset(Front(a)), multiset(Front(b)), Last(a));
      SortedUnique(Front(a), Front(b));
      assert a == Front(a) + [Last(a)] && b == Front(b) + [Last(b)];
    }
  }

  lemma NoTiesOfPermutation(a: seq<Trade>, ts: seq<Trade>)
    requires multiset(a) == multiset(ts) && NoTies(ts)
    ensures NoTies(a)
  {
    forall i, j | 0 <= i < |a| && 0 <= j < |a| && a[i].exit == a[j].exit ensures a[i] == a[j] {
      var k := PermutationMembers(a, ts, i);
      var l := PermutationMembers(a, ts, j);
    }
  }

  ghost predicate OneSortedOrder(ts: seq<Trade>) {
    forall a: seq<Trade>, b: seq<Trade> :: SortedPermutation(a, ts) && SortedPermutation(b, ts) ==> a == b
  }

  /** The sorted order is determined by the trades alone iff no two different trades tie. */
  lemma SortedOrderUniqueIff(ts: seq<Trade>)
    ensures OneSortedOrder(ts) <==> NoTies(ts)
  {
    if NoTies(ts) {
      forall a: seq<Trade>, b: seq<Trade> | SortedPermutation(a, ts) && SortedPermutation(b, ts) ensures a == b {
        NoTiesOfPermutation(a, ts);
        SortedUnique(a, b);
      }
    } else {
      var i, j :| 0 <= i < |ts| && 0 <= j < |ts| && ts[i].exit == ts[j].exit && ts[i] != ts[j];
      var a := Sort(ts);
      var k := PermutationMembers(ts, a, i);
      var l := PermutationMembers(ts, a, j);
      var b := SwapTied(a, k, l);
      assert SortedPermutation(a, ts) && SortedPermutation(b, ts);
    }
  }

  lemma SwapTied(a: seq<Trade>, k: nat, l: nat) returns (b: seq<Trade>)
    requires SortedByExit(a) && k < |a| && l < |a| && a[k] != a[l] && a[k].exit == a[l].exit
    ensures SortedByExit(b) && multiset(b) == multiset(a) && b != a
  {
    b := a[k := a[l]][l := a[k]];
    SwapPermutes(a, k, l);
    assert b[k] != a[k];
    assert forall i :: 0 <= i < |a| ==> b[i].exit == a[i].exit;
  }

  lemma SwapPermutes(a: seq<Trade>, k: nat, l: nat)
    requires k < |a| && l < |a| && k != l
    ensures multiset(a[k := a[l]][l := a[k]]) == multiset(a)
  {
  }

  /** All trades of the strategies, in the order in which they were added. */
  function Flatten(strategies: seq<seq<Trade>>): seq<Trade> {
    if strategies == [] then [] else Flatten(strategies[..|strategies| - 1]) + strategies[|strategies| - 1]
  }

  /** Strategies added in any order give the same report, whatever sort is used, when no two
      different trades left at the same time. */
  lemma StrategyOrderDoesNotMatter(xs: seq<seq<Trade>>, ys: seq<seq<Trade>>, a: seq<Trade>, b: seq<Trade>,
                                   recoverPct: int, recover: int, flat: int)
    requires multiset(xs) == multiset(ys) && NoTies(Flatten(xs))
    requires SortedPermutation(a, Flatten(xs)) && SortedPermutation(b, Flatten(ys))
    ensures ReportOf(a, recoverPct, recover, flat) == ReportOf(b, recoverPct, recover, flat)
  {
    FlattenPermutes(xs, ys);
    NoTiesOfPermutation(a, Flatten(xs));
    SortedUnique(a, b);
  }

  lemma {:induction false} FlattenAppend(xs: seq<seq<Trade>>, ys: seq<seq<Trade>>)
    ensures Flatten(xs + ys) == Flatten(xs) + Flatten(ys)
  {
    if ys == [] {
      assert xs + ys == xs;
    } else {
      FlattenAppend(xs, Front(ys));
      assert Front(xs + ys) == xs + Front(ys) && Last(xs + ys) == Last(ys);
      Associate(Flatten(xs), Flatten(Front(ys)), Last(ys));
    }
  }

  lemma FlattenOne(x: seq<Trade>)
    ensures Flatten([x]) == x
  {
    assert Front([x]) == [] && [] + x == x;
  }

  lemma RemoveOne<T>(xs: seq<T>, i: nat)
    requires i < |xs|
    ensures xs == xs[..i] + [xs[i]] + xs[i + 1..]
    ensures multiset(xs) == multiset(xs[..i] + xs[i + 1..]) + multiset{xs[i]}
  {
    MiddleOut(xs[..i], [xs[i]], xs[i + 1..]);
    assert multiset([xs[i]]) == multiset{xs[i]};
    assert xs == xs[..i] + [xs[i]] + xs[i + 1..];
  }

  lemma MiddleOut<T>(a: seq<T>, b: seq<T>, c: seq<T>)
    ensures multiset(a + b + c) == multiset(a + c) + multiset(b)
  {
  }

  lemma FlattenRemove(xs: seq<seq<Trade>>, i: nat)
    requires i < |xs|
    ensures multiset(Flatten(xs)) == multiset(Flatten(xs[..i] + xs[i + 1..])) + multiset(xs[i])
    ensures multiset(xs) == multiset(xs[..i] + xs[i + 1..]) + multiset{xs[i]}
  {
    hide Flatten;
    RemoveOne(xs, i);
    FlattenAppend(xs[..i] + [xs[i]], xs[i + 1..]);
    FlattenAppend(xs[..i], [xs[i]]);
    FlattenOne(xs[i]);
    FlattenAppend(xs[..i], xs[i + 1..]);
    MiddleOut(Flatten(xs[..i]), xs[i], Flatten(xs[i + 1..]));
  }

  lemma {:induction false} FlattenPermutes(xs: seq<seq<Trade>>, ys: seq<seq<Trade>>)
    requires multiset(xs) == multiset(ys)
    ensures multiset(Flatten(xs)) == multiset(Flatten(ys))
  {
    hide Flatten;
    assert |xs| == |multiset(xs)| == |multiset(ys)| == |ys|;
    if xs == [] {
      assert ys == [];
    } else {
      var n := |xs| - 1;
      assert xs[n] in multiset(xs);
      assert xs[n] in ys;
      var i: nat :| i < |ys| && ys[i] == xs[n];
      FlattenRemove(ys, i);
      FlattenRemove(xs, n);
      assert xs[..n] + xs[n + 1..] == xs[..n];
      Cancel(multiset(xs[..n]), multiset(ys[..i] + ys[i + 1..]), xs[n]);
      FlattenPermutes(xs[..n], ys[..i] + ys[i + 1..]);
    }
  }

  /** With a tie, the order in which two strategies are added can change the peak. */
  lemma TiesCanChangeThePeak()
    ensures var win, lose := Trade(0, 1, 1.0, 1.0), Trade(0, 1, -1.0, -1.0);
            SortedPermutation([win, lose], [lose, win]) && SortedPermutation([lose, win], [lose, win])
            && Fold([win, lose], Money, 0).track.peak == 1.0
            && Fold([lose, win], Money, 0).track.peak == 0.0
  {
    hide Fold, Bucket, Elapsed;
    var win, lose := Trade(0, 1, 1.0, 1.0), Trade(0, 1, -1.0, -1.0);
    assert Front([win, lose]) == [win] && Front([lose, win]) == [lose] && Front([win]) == [] && Front([lose]) == [];
    TrackStep([], Money, 0);
    TrackStep([win], Money, 0);
    TrackStep([lose], Money, 0);
    TrackStep([win, lose], Money, 0);
    TrackStep([lose, win], Money, 0);
    assert multiset([win, lose]) == multiset([lose, win]);
  }
}
