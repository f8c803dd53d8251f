/** The daily samples of the virtual account: one update per tick of the backtest, resampled to one
    sample per day. Times are integer milliseconds. */
module DailySamples {
  import opened Basics
  import opened Calendar

  const MAX_DAYS := 999

  datatype Values = Values(drawDown: real, drawDownRate: real, equity: real, profitLoss: real)

  datatype Sample = Sample(timestamp: int, values: Values)

  /** The account values at the time of an update. */
  datatype Update = Update(timestamp: int, values: Values)

  function DayStart(timestamp: int): int { TruncDiv(timestamp, DAY) * DAY }

  // ---- Specification of one update ----

  datatype Account = Account(samples: seq<Sample>, last: int)

  /** `n` further days after `start`, all with the same values. */
  function Days(start: int, n: nat, v: Values): seq<Sample> {
    seq(n, i requires 0 <= i < n => Sample(start + (i + 1) * DAY, v))
  }

  function Elapsed(last: int, timestamp: int): nat {
    var days := MinInt(MAX_DAYS, TruncDiv(DayStart(timestamp) - DayStart(last), DAY));
    if days > 0 then days else 0
  }

  function WithLast(samples: seq<Sample>, v: Values): seq<Sample>
    requires samples != []
  {
    var n := |samples| - 1;
    samples[n := samples[n].(values := v)]
  }

  function Sampled(a: Account, u: Update): (r: Account)
    ensures r.samples != []
  {
    var samples := if a.samples == [] then [Sample(DayStart(u.timestamp), u.values)] else a.samples;
    if a.last > 0 then
      Account(WithLast(samples + Days(DayStart(a.last), Elapsed(a.last, u.timestamp), samples[|samples| - 1].values),
                       u.values), u.timestamp)
    else Account(samples, u.timestamp)
  }

  const NEW := Account([], 0)

  function Run(us: seq<Update>): (a: Account)
    ensures us != [] ==> a.samples != [] && a.last == us[|us| - 1].timestamp
  {
    if us == [] then NEW else Sampled(Run(us[..|us| - 1]), us[|us| - 1])
  }

  // ---- The account object ----

  class VirtualAccountData {
    var balance: real
    var profitLoss: real
    var drawDown: real
    var drawDownRate: real
    var samples: seq<Sample>
    var lastUpdateTimestamp: int

    ghost function Abs(): Account
      reads this
    {
      Account(samples, lastUpdateTimestamp)
    }

    function Current(): Values
      reads this
    {
      Values(drawDown, drawDownRate, balance, profitLoss)
    }

    constructor (balance: real)
      ensures Abs() == NEW && Current() == Values(0.0, 0.0, balance, 0.0)
    {
      this.balance, profitLoss, drawDown, drawDownRate := balance, 0.0, 0.0, 0.0;
      samples, lastUpdateTimestamp := [], 0;
    }

    method DailyUpdate(timestamp: int)
      modifies this`samples, this`lastUpdateTimestamp
      ensures Abs() == Sampled(old(Abs()), Update(timestamp, Current()))
      ensures old(samples) == [] || old(lastUpdateTimestamp) > 0 ==>
                var now := samples[|samples| - 1].values;
                now.drawDown == drawDown && now.drawDownRate == drawDownRate
                && now.equity == balance && now.profitLoss == profitLoss
      ensures old(samples) != [] && old(lastUpdateTimestamp) <= 0 ==> samples == old(samples)
    {
      hide DayStart, TruncDiv;
      var currentBt := DayStart(timestamp);
      if samples == [] {
        samples := samples + [Sample(currentBt, Current())];
      }
      if lastUpdateTimestamp > 0 {
        var previousBt := DayStart(lastUpdateTimestamp);
        var elapsedDays := MinInt(MAX_DAYS, TruncDiv(currentBt - previousBt, DAY));
        ghost var before := samples;
        assert before + Days(previousBt, 0, before[|before| - 1].values) == before;
        if elapsedDays > 0 {
          var prevSample := samples[|samples| - 1];
          ghost var n := elapsedDays;
          while elapsedDays > 0
            invariant 0 <= elapsedDays <= n && lastUpdateTimestamp == old(lastUpdateTimestamp)
            invariant previousBt == DayStart(lastUpdateTimestamp) + (n - elapsedDays) * DAY
            invariant samples == before + Days(DayStart(lastUpdateTimestamp), n - elapsedDays, prevSample.values)
          {
            elapsedDays := elapsedDays - 1;
            previousBt := previousBt + DAY;
            samples := samples + [Sample(previousBt, prevSample.values)];
          }
        }
        samples := samples[|samples| - 1 := samples[|samples| - 1].(values := Current())];
      }
      lastUpdateTimestamp := timestamp;
    }
  }

  // ---- Resampling over whole runs ----

  /** Updates come at positive times that do not go back. */
  predicate Timely(us: seq<Update>) {
    forall i :: 0 <= i < |us| ==> us[i].timestamp > 0 && (i > 0 ==> us[i - 1].timestamp <= us[i].timestamp)
  }

  function Day(u: Update): int { TruncDiv(u.timestamp, DAY) }

  predicate NoLongGap(us: seq<Update>) {
    forall i :: 0 < i < |us| ==> Day(us[i]) - Day(us[i - 1]) <= 999
  }

  lemma ElapsedDays(u: Update, u': Update)
    requires 0 < u.timestamp <= u'.timestamp
    ensures Elapsed(u.timestamp, u'.timestamp) == MinInt(MAX_DAYS, Day(u') - Day(u)) && Day(u) <= Day(u')
  {
    var d := Day(u') - Day(u);
    assert DayStart(u'.timestamp) - DayStart(u.timestamp) == d * DAY;
    assert TruncDiv(d * DAY, DAY) == d;
  }

  /** The account never has more than one sample per day, and has one for each day iff no two
      successive updates are more than 999 days apart. */
  lemma {:induction false} OneSamplePerDayIff(us: seq<Update>)
    requires us != [] && Timely(us)
    ensures var n, span := |Run(us).samples|, Day(us[|us| - 1]) - Day(us[0]) + 1;
            n <= span && (n == span <==> NoLongGap(us))
  {
    hide Day, Elapsed, DayStart;
    var k := |us| - 1;
    var front := us[..k];
    if k == 0 {
      assert Run(front) == NEW;
    } else {
      OneSamplePerDayIff(front);
      ElapsedDays(us[k - 1], us[k]);
      assert NoLongGap(us) <==> NoLongGap(front) && Day(us[k]) - Day(us[k - 1]) <= MAX_DAYS by {
        if NoLongGap(us) {
          assert forall i :: 0 <= i < k ==> front[i] == us[i];
        }
      }
    }
  }

  /** Two updates 1000 days apart: the last of the 1001 days has no sample, and the day before it holds
      its values. */
  lemma LongGapMisdates(v: Values, w: Values)
    ensures var us := [Update(DAY, v), Update(1001 * DAY, w)];
            var samples := Run(us).samples;
            !NoLongGap(us) && |samples| == 1000 && samples[999] == Sample(1000 * DAY, w)
  {
    var us := [Update(DAY, v), Update(1001 * DAY, w)];
    assert us[..1] == [us[0]] && us[..1][..0] == [];
    assert Run(us[..1]) == Account([Sample(DAY, v)], DAY);
    assert Elapsed(DAY, 1001 * DAY) == 999;
  }

  /** `v` are the values at the last update on or before day `d`. */
  predicate LastUpTo(us: seq<Update>, d: int, v: Values) {
    exists k :: 0 <= k < |us| && UpTo(us, d, v, k)
  }

  predicate UpTo(us: seq<Update>, d: int, v: Values, k: nat)
    requires k < |us|
  {
    us[k].values == v && Day(us[k]) <= d && (k + 1 < |us| ==> Day(us[k + 1]) > d)
  }

  ghost predicate StepFunction(us: seq<Update>, samples: seq<Sample>)
    requires us != []
  {
    |samples| == Day(us[|us| - 1]) - Day(us[0]) + 1
    && forall i :: 0 <= i < |samples| ==>
         samples[i].timestamp == (Day(us[0]) + i) * DAY && LastUpTo(us, Day(us[0]) + i, samples[i].values)
  }

  /** The samples resample the account as a step function: one per day from the first update to the
      last, each with the values of the last update on or before that day. */
  lemma {:induction false} SamplesAreStepFunction(us: seq<Update>)
    requires us != [] && Timely(us) && NoLongGap(us)
    ensures StepFunction(us, Run(us).samples)
    ensures Run(us).samples[|Run(us).samples| - 1].values == us[|us| - 1].values
  {
    var k := |us| - 1;
    var front := us[..k];
    if k == 0 {
      assert Run(front) == NEW && UpTo(us, Day(us[0]), us[0].values, 0);
    } else {
      hide Day, Elapsed, DayStart, StepFunction, Timely, NoLongGap;
      PrefixTimely(us);
      SamplesAreStepFunction(front);
      StepExtends(us, Run(front).samples);
    }
  }

  lemma PrefixTimely(us: seq<Update>)
    requires |us| > 1 && Timely(us) && NoLongGap(us)
    ensures var front, k := us[..|us| - 1], |us| - 1;
            Timely(front) && NoLongGap(front) && front[0] == us[0]
            && 0 < us[k - 1].timestamp <= us[k].timestamp && Day(us[k]) - Day(us[k - 1]) <= MAX_DAYS
  {
    hide Day;
    var front := us[..|us| - 1];
    assert forall i :: 0 <= i < |front| ==> front[i] == us[i];
  }

  lemma StepExtends(us: seq<Update>, old': seq<Sample>)
    requires |us| > 1
    requires var k := |us| - 1;
             0 < us[k - 1].timestamp <= us[k].timestamp && Day(us[k]) - Day(us[k - 1]) <= MAX_DAYS
             && StepFunction(us[..k], old') && old' != [] && old'[|old'| - 1].values == us[k - 1].values
    ensures var k := |us| - 1;
            var new' := Sampled(Account(old', us[k - 1].timestamp), us[k]).samples;
            StepFunction(us, new') && new'[|new'| - 1].values == us[k].values
  {
    hide Day, Elapsed, DayStart, LastUpTo;
    var k := |us| - 1;
    var front, u, u' := us[..k], us[k - 1], us[k];
    var first := Day(us[0]);
    ElapsedDays(u, u');
    var gap := Day(u') - Day(u);
    var new' := Sampled(Account(old', u.timestamp), u').samples;
    assert DayStart(u.timestamp) == Day(u) * DAY by { DayStartOfDay(u); }
    assert |new'| == |old'| + gap;
    forall i | 0 <= i < |new'|
      ensures new'[i].timestamp == (first + i) * DAY && LastUpTo(us, first + i, new'[i].values)
    {
      if i == |new'| - 1 {
        Here(us, k);
        if gap > 0 {
          DayOffset(Day(u), gap - 1, first + i);
        }
      } else if i >= |old'| - 1 {
        Earlier'(us, k - 1, first + i);
        if i >= |old'| {
          DayOffset(Day(u), i - |old'|, first + i);
        }
      } else {
        assert new'[i] == old'[i];
        StillLast(us, first + i, old'[i].values);
      }
    }
  }

  lemma DayStartOfDay(u: Update)
    ensures DayStart(u.timestamp) == Day(u) * DAY
  {
  }

  lemma DayOffset(d: int, j: int, e: int)
    requires e == d + j + 1
    ensures d * DAY + (j + 1) * DAY == e * DAY
  {
  }

  lemma Here(us: seq<Update>, k: nat)
    requires k == |us| - 1
    ensures LastUpTo(us, Day(us[k]), us[k].values)
  {
    assert UpTo(us, Day(us[k]), us[k].values, k);
  }

  lemma Earlier'(us: seq<Update>, k: nat, d: int)
    requires k + 1 < |us| && Day(us[k]) <= d < Day(us[k + 1])
    ensures LastUpTo(us, d, us[k].values)
  {
    assert UpTo(us, d, us[k].values, k);
  }

  lemma StillLast(us: seq<Update>, d: int, v: Values)
    requires |us| > 1 && LastUpTo(us[..|us| - 1], d, v) && d < Day(us[|us| - 2])
    ensures LastUpTo(us, d, v)
  {
    hide Day;
    var front := us[..|us| - 1];
    var j :| 0 <= j < |front| && UpTo(front, d, v, j);
    assert front[j] == us[j] && (j + 1 < |front| ==> front[j + 1] == us[j + 1]);
    assert UpTo(us, d, v, j);
  }

  /** Whatever the gaps, sample times are strictly increasing multiples of a day, and none lies after
      the day of the last update. */
  lemma {:induction false} SampleTimesIncrease(us: seq<Update>)
    requires us != [] && Timely(us)
    ensures var s := Run(us).samples;
            (forall i :: 0 <= i < |s| ==> s[i].timestamp % DAY == 0)
            && (forall i, j :: 0 <= i < j < |s| ==> s[i].timestamp < s[j].timestamp)
            && s[|s| - 1].timestamp <= Day(us[|us| - 1]) * DAY
  {
    var k := |us| - 1;
    var front := us[..k];
    if k == 0 {
      assert Run(front) == NEW;
    } else {
      SampleTimesIncrease(front);
      TimesExtend(Run(front).samples, us[k - 1], us[k]);
    }
  }

  lemma TimesExtend(s: seq<Sample>, u: Update, u': Update)
    requires s != [] && 0 < u.timestamp <= u'.timestamp
    requires forall i :: 0 <= i < |s| ==> s[i].timestamp % DAY == 0
    requires forall i, j :: 0 <= i < j < |s| ==> s[i].timestamp < s[j].timestamp
    requires s[|s| - 1].timestamp <= Day(u) * DAY
    ensures var t := Sampled(Account(s, u.timestamp), u').samples;
            (forall i :: 0 <= i < |t| ==> t[i].timestamp % DAY == 0)
            && (forall i, j :: 0 <= i < j < |t| ==> t[i].timestamp < t[j].timestamp)
            && t[|t| - 1].timestamp <= Day(u') * DAY
  {
    hide Day, Elapsed, DayStart;
    ElapsedDays(u, u');
    DayStartOfDay(u);
    var t := Sampled(Account(s, u.timestamp), u').samples;
    var d := Day(u);
    forall i | |s| <= i < |t| ensures t[i].timestamp == (d + (i - |s|) + 1) * DAY {
      DayOffset(d, i - |s|, d + (i - |s|) + 1);
    }
    assert forall i :: 0 <= i < |s| ==> t[i].timestamp == s[i].timestamp;
  }
}
