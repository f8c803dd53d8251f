/** Global statistics over closed trades: one pass over the trades sorted by exit time. Times are
    non-negative integer milliseconds, profits exact reals. */
module TradeStatistics {
  import opened Basics
  import opened Calendar

  const TF_MONTH := 30 * DAY
  const MAX_MONTHS := 999

  datatype Trade = Trade(entry: nat, exit: nat, pnlPct: real, pnl: real)

  /** The two currencies of a result: percentage, or money. */
  datatype Unit = Pct | Money

  function Result(t: Trade, u: Unit): real { if u.Pct? then t.pnlPct else t.pnl }

  // ---- Specification of the pass over the sorted trades ----

  /** Cumulated result, its running maximum, the time of the last maximum and the longest time
      between two of them. */
  datatype Track = Track(cum: real, peak: real, peakTs: int, recover: int)

  function Advance(k: Track, t: Trade, u: Unit): Track {
    var cum := k.cum + Result(t, u);
    if cum >= k.peak then
      Track(cum, cum, t.exit, if k.peakTs > 0 then MaxInt(k.recover, t.exit - k.peakTs) else k.recover)
    else k.(cum := cum)
  }

  function ElapsedMonths(from: nat, to: nat): nat {
    var m := TruncDiv(MonthStart(to) - MonthStart(from), TF_MONTH);
    if m <= 0 then 0 else if m <= MAX_MONTHS then m else MAX_MONTHS
  }

  /** The monthly bucket of the last trade. */
  function Bucket(s: seq<Trade>): nat {
    if s == [] then 0 else Bucket(Front(s)) + Elapsed(s)
  }

  function Zeros(n: nat): seq<real> { seq(n, _ => 0.0) }

  function AddToLast(m: seq<real>, x: real): seq<real>
    requires m != []
  {
    m[|m| - 1 := m[|m| - 1] + x]
  }

  function LongestFlat(s: seq<Trade>, flat: int): int {
    if |s| <= 1 then flat else MaxInt(LongestFlat(Front(s), flat), Last(s).entry - s[|s| - 2].exit)
  }

  function Total(s: seq<Trade>, u: Unit): real {
    if s == [] then 0.0 else Total(Front(s), u) + Result(Last(s), u)
  }

  /** Everything the pass keeps for one unit. */
  datatype UnitReport = UnitReport(track: Track, drawDowns: seq<real>, months: seq<real>, winning: real, losing: real)

  function Square(x: real): real { x * x }

  function Record(k: UnitReport, t: Trade, elapsed: nat, u: Unit): UnitReport
    requires k.months != []
  {
    var x := Result(t, u);
    var track := Advance(k.track, t, u);
    UnitReport(track, k.drawDowns + [Square(track.cum - track.peak)], AddToLast(k.months + Zeros(elapsed), x),
               if x > 0.0 then k.winning + x else k.winning,
               if x < 0.0 then k.losing + x else k.losing)
  }

  /** Months since the trade before the last one. */
  function Elapsed(s: seq<Trade>): nat {
    if |s| <= 1 then 0 else ElapsedMonths(s[|s| - 2].entry, Last(s).entry)
  }

  function Fold(s: seq<Trade>, u: Unit, recover: int): (k: UnitReport)
    ensures |k.months| == Bucket(s) + 1 && |k.drawDowns| == |s|
  {
    if s == [] then UnitReport(Track(0.0, 0.0, 0, recover), [], [0.0], 0.0, 0.0)
    else Record(Fold(Front(s), u, recover), Last(s), Elapsed(s), u)
  }

  datatype Report = Report(pct: UnitReport, money: UnitReport, longestFlat: int)

  /** The report of the pass, from the values that the statistics object starts with. */
  function ReportOf(s: seq<Trade>, recoverPct: int, recover: int, flat: int): Report {
    Report(Fold(s, Pct, recoverPct), Fold(s, Money, recover), LongestFlat(s, flat))
  }

  // ---- Sorting, as the standard library specifies it ----

  predicate SortedByExit(s: seq<Trade>) {
    forall i, j :: 0 <= i < j < |s| ==> s[i].exit <= s[j].exit
  }

  predicate SortedPermutation(s: seq<Trade>, ts: seq<Trade>) {
    SortedByExit(s) && multiset(s) == multiset(ts)
  }

  function Insert(s: seq<Trade>, t: Trade): (r: seq<Trade>)
    requires SortedByExit(s)
    ensures SortedByExit(r) && multiset(r) == multiset(s) + multiset{t}
    ensures r != [] && (r[0] == t || (s != [] && r[0] == s[0]))
  {
    if s == [] || t.exit < s[0].exit then
      InsertFirst(s, t);
      [t] + s
    else
      var r := Insert(s[1..], t);
      InsertLater(s, t, r);
      [s[0]] + r
  }

  lemma SortedCons(t: Trade, s: seq<Trade>)
    requires SortedByExit(s) && (s != [] ==> t.exit <= s[0].exit)
    ensures SortedByExit([t] + s)
  {
    assert forall i :: 0 <= i < |s| ==> s[0].exit <= s[i].exit;
  }

  lemma MultisetCons(t: Trade, s: seq<Trade>)
    ensures multiset([t] + s) == multiset(s) + multiset{t}
  {
  }

  lemma InsertFirst(s: seq<Trade>, t: Trade)
    requires SortedByExit(s) && (s != [] ==> t.exit <= s[0].exit)
    ensures SortedByExit([t] + s) && multiset([t] + s) == multiset(s) + multiset{t}
  {
    SortedCons(t, s);
    MultisetCons(t, s);
  }

  lemma InsertLater(s: seq<Trade>, t: Trade, r: seq<Trade>)
    requires SortedByExit(s) && s != [] && s[0].exit <= t.exit
    requires SortedByExit(r) && multiset(r) == multiset(s[1..]) + multiset{t}
    requires r != [] && (r[0] == t || (s[1..] != [] && r[0] == s[1..][0]))
    ensures SortedByExit([s[0]] + r) && multiset([s[0]] + r) == multiset(s) + multiset{t}
  {
    SortedCons(s[0], r);
    hide SortedByExit;
    MultisetCons(s[0], r);
    MultisetCons(s[0], s[1..]);
    assert s == [s[0]] + s[1..];
  }

  function Sort(ts: seq<Trade>): (s: seq<Trade>)
    ensures SortedPermutation(s, ts)
  {
    if ts == [] then []
    else
      assert ts == Front(ts) + [Last(ts)];
      Insert(Sort(Front(ts)), Last(ts))
  }

  // ---- The statistics object ----

  class GlobalStatistics {
    var tradesResults: seq<Trade>
    var longestFlatPeriod: int
    var recoverPct: int
    var recover: int

    constructor ()
      ensures tradesResults == [] && longestFlatPeriod == recoverPct == recover == 0
    {
      tradesResults, longestFlatPeriod, recoverPct, recover := [], 0, 0, 0;
    }

    /** Takes over the trades of one strategy. */
    method Add(trades: seq<Trade>)
      modifies this`tradesResults
      ensures tradesResults == old(tradesResults) + trades
    {
      tradesResults := tradesResults + trades;
    }

    method ComputeStats() returns (r: Report)
      modifies this
      ensures SortedPermutation(tradesResults, old(tradesResults))
      ensures r == ReportOf(tradesResults, old(recoverPct), old(recover), old(longestFlatPeriod))
      ensures recoverPct == r.pct.track.recover && recover == r.money.track.recover
              && longestFlatPeriod == r.longestFlat
    {
      hide ElapsedMonths, Fold, LongestFlat, Record, SortedByExit;
      tradesResults := Sort(tradesResults);
      FoldOfNone();
      var pct := UnitReport(Track(0.0, 0.0, 0, recoverPct), [], [0.0], 0.0, 0.0);
      var money := UnitReport(Track(0.0, 0.0, 0, recover), [], [0.0], 0.0, 0.0);
      ghost var s, r0Pct, r0, f0 := tradesResults, recoverPct, recover, longestFlatPeriod;
      var i := 0;
      while i < |tradesResults|
        invariant 0 <= i <= |s| && tradesResults == s
        invariant pct == Fold(s[..i], Pct, r0Pct) && money == Fold(s[..i], Money, r0)
        invariant longestFlatPeriod == LongestFlat(s[..i], f0)
      {
        var trade := tradesResults[i];
        FoldStep(s, i, Pct, r0Pct);
        FoldStep(s, i, Money, r0);
        FlatStep(s, i, f0);
        var elapsed := 0;
        if i > 0 {
          var prev := tradesResults[i - 1];
          longestFlatPeriod := MaxInt(longestFlatPeriod, trade.entry - prev.exit);
          elapsed := ElapsedMonths(prev.entry, trade.entry);
        }
        pct := Book(pct, trade, elapsed, Pct);
        money := Book(money, trade, elapsed, Money);
        i := i + 1;
      }
      assert s[..|s|] == s;
      recoverPct, recover := pct.track.recover, money.track.recover;
      r := Report(pct, money, longestFlatPeriod);
    }

    /** The part of the pass that is written once per unit. */
    static method Book(k: UnitReport, trade: Trade, elapsed: nat, u: Unit) returns (r: UnitReport)
      requires k.months != []
      ensures r == Record(k, trade, elapsed, u)
    {
      var x := Result(trade, u);
      var cum, max, maxTs, recover := k.track.cum, k.track.peak, k.track.peakTs, k.track.recover;
      var months, winning, losing := k.months, k.winning, k.losing;
      cum := cum + x;
      if cum >= max {
        max := cum;
        if maxTs > 0 {
          recover := MaxInt(recover, trade.exit - maxTs);
        }
        maxTs := trade.exit;
      }
      for e := 0 to elapsed
        invariant months == k.months + Zeros(e)
      {
        months := months + [0.0];
      }
      if x > 0.0 {
        winning := winning + x;
      } else if x < 0.0 {
        losing := losing + x;
      }
      months := months[|months| - 1 := months[|months| - 1] + x];
      var drawDowns := k.drawDowns + [Square(cum - max)];
      r := UnitReport(Track(cum, max, maxTs, recover), drawDowns, months, winning, losing);
    }
  }

  lemma FoldOfNone()
    ensures forall u, recover :: Fold([], u, recover) == UnitReport(Track(0.0, 0.0, 0, recover), [], [0.0], 0.0, 0.0)
    ensures forall flat :: LongestFlat([], flat) == flat
  {
  }

  lemma FoldStep(s: seq<Trade>, i: nat, u: Unit, recover: int)
    requires i < |s|
    ensures Fold(s[..i + 1], u, recover)
         == Record(Fold(s[..i], u, recover), s[i], if i > 0 then ElapsedMonths(s[i - 1].entry, s[i].entry) else 0, u)
  {
    hide ElapsedMonths, Record;
    assert Front(s[..i + 1]) == s[..i];
  }

  lemma FlatStep(s: seq<Trade>, i: nat, flat: int)
    requires i < |s|
    ensures LongestFlat(s[..i + 1], flat)
         == if i > 0 then MaxInt(LongestFlat(s[..i], flat), s[i].entry - s[i - 1].exit) else LongestFlat(s[..i], flat)
  {
    assert Front(s[..i + 1]) == s[..i];
    if i == 0 {
      assert s[..0] == [];
    }
  }
}
