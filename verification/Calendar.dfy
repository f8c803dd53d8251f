/** Day numbers of the proleptic Gregorian calendar: `gday` counts days, `dft` turns a
    day number back into a date, and the month branch of `baseTime` builds on both. */
module Calendar {
  import opened Basics

  datatype Date = Date(year: int, month: int, day: int)

  predicate IsLeap(y: int) {
    y % 4 == 0 && (y % 100 != 0 || y % 400 == 0)
  }

  function DaysInMonth(y: int, m: int): int {
    if m == 2 then (if IsLeap(y) then 29 else 28)
    else if m == 4 || m == 6 || m == 9 || m == 11 then 30
    else 31
  }

  /** A date of the proleptic Gregorian calendar, in any year. */
  predicate GregorianDate(d: Date) {
    1 <= d.month <= 12 && 1 <= d.day <= DaysInMonth(d.year, d.month)
  }

  predicate ValidDate(d: Date) {
    d.year >= 1 && GregorianDate(d)
  }

  /** The calendar's own successor, which knows nothing of day numbers. */
  function NextDay(d: Date): Date {
    if d.day < DaysInMonth(d.year, d.month) then Date(d.year, d.month, d.day + 1)
    else if d.month < 12 then Date(d.year, d.month + 1, 1)
    else Date(d.year + 1, 1, 1)
  }

  function AddDays(d: Date, n: nat): Date
    decreases n
  {
    if n == 0 then d else NextDay(AddDays(d, n - 1))
  }

  predicate Earlier(a: Date, b: Date) {
    a.year < b.year
    || (a.year == b.year && (a.month < b.month || (a.month == b.month && a.day < b.day)))
  }

  /** Integer division of the source language: it truncates toward zero. */
  function TruncDiv(a: int, b: int): int
    requires b > 0
  {
    if a >= 0 then a / b else -((-a) / b)
  }

  /** Days before 1 March of the March-based year `y`. */
  function YearDays(y: int): int {
    y * 365 + TruncDiv(y, 4) - TruncDiv(y, 100) + TruncDiv(y, 400)
  }

  /** Days from 1 March to the start of the `m`-th month after it. */
  function MonthDays(m: int): int {
    (m * 306 + 5) / 10
  }

  function MarchMonth(d: Date): int { (d.month + 9) % 12 }

  function MarchYear(d: Date): int { d.year - MarchMonth(d) / 10 }

  function Gday(d: Date): int {
    YearDays(MarchYear(d)) + MonthDays(MarchMonth(d)) + (d.day - 1)
  }

  function Dft(n: int): Date {
    var y0 := TruncDiv(10000 * n + 14780, 3652425);
    var r0 := n - YearDays(y0);
    var y := if r0 < 0 then y0 - 1 else y0;
    var r := if r0 < 0 then n - YearDays(y) else r0;
    var mi := TruncDiv(52 + 100 * r, 3060);
    Date(y + TruncDiv(mi + 2, 12), (mi + 2) % 12 + 1, r - MonthDays(mi) + 1)
  }

  lemma QuotientBy4(y: int)
    requires y >= 1
    ensures TruncDiv(y, 4) - TruncDiv(y - 1, 4) == (if y % 4 == 0 then 1 else 0)
  {
  }

  lemma QuotientBy100(y: int)
    requires y >= 1
    ensures TruncDiv(y, 100) - TruncDiv(y - 1, 100) == (if y % 100 == 0 then 1 else 0)
  {
  }

  lemma QuotientBy400(y: int)
    requires y >= 1
    ensures TruncDiv(y, 400) - TruncDiv(y - 1, 400) == (if y % 400 == 0 then 1 else 0)
  {
  }

  lemma LeapDivisors(y: int)
    ensures y % 400 == 0 ==> y % 100 == 0
    ensures y % 100 == 0 ==> y % 4 == 0
  {
  }

  lemma YearDaysStep(y: int)
    requires y >= 1
    ensures YearDays(y) - YearDays(y - 1) == (if IsLeap(y) then 366 else 365)
  {
    hide TruncDiv;
    QuotientBy4(y);
    QuotientBy100(y);
    QuotientBy400(y);
    LeapDivisors(y);
  }

  lemma YearDaysOdd(y: int)
    ensures YearDays(-y) == -YearDays(y)
  {
  }

  predicate LastOfFebruary(d: Date) {
    d.month == 2 && d.day == DaysInMonth(d.year, 2)
  }

  lemma MonthStep(d: Date)
    requires GregorianDate(d) && !LastOfFebruary(d)
    ensures var e := NextDay(d);
            MarchYear(e) == MarchYear(d)
            && MonthDays(MarchMonth(e)) + e.day == MonthDays(MarchMonth(d)) + d.day + 1
  {
    if d.day < DaysInMonth(d.year, d.month) {
      assert NextDay(d).month == d.month;
    } else if d.month == 12 {
      assert MarchMonth(d) == 9 && MarchMonth(NextDay(d)) == 10;
    } else {
      assert d.month == 1 || 3 <= d.month <= 11;
      assert MarchMonth(NextDay(d)) == MarchMonth(d) + 1;
    }
  }

  lemma GdayStepsInsideYear(d: Date)
    requires GregorianDate(d) && !LastOfFebruary(d)
    ensures Gday(NextDay(d)) == Gday(d) + 1
  {
    hide YearDays, IsLeap;
    MonthStep(d);
  }

  /** The exact condition under which `gday` steps by one: everywhere from year 1 on, and
      before that everywhere except across some ends of February. */
  lemma GdayCountsDays(d: Date)
    requires GregorianDate(d)
    ensures Gday(NextDay(d)) == Gday(d) + 1
       <==> (d.year >= 1 || !LastOfFebruary(d) || (!IsLeap(d.year) && !IsLeap(1 - d.year)))
  {
    hide Gday, NextDay, YearDays, TruncDiv, IsLeap;
    if !LastOfFebruary(d) {
      GdayStepsInsideYear(d);
    } else {
      AcrossFebruary(d);
      if d.year >= 1 {
        YearDaysStep(d.year);
      } else {
        YearDaysStep(1 - d.year);
        YearDaysOdd(-d.year);
        YearDaysOdd(1 - d.year);
        NotBothLeap(d.year);
      }
    }
  }

  lemma AcrossFebruary(d: Date)
    requires LastOfFebruary(d)
    ensures d.day == (if IsLeap(d.year) then 29 else 28)
    ensures Gday(d) == YearDays(d.year - 1) + 336 + d.day && Gday(NextDay(d)) == YearDays(d.year)
  {
    hide YearDays, IsLeap;
    GdayParts(d, d.year - 1, 11);
    GdayParts(Date(d.year, 3, 1), d.year, 0);
    assert MonthDays(11) == 337 && MonthDays(0) == 0;
  }

  lemma NotBothLeap(y: int)
    ensures !(IsLeap(y) && IsLeap(1 - y))
  {
  }

  /** The law fails on 29 February of year 0, which gets the same number as the next day. */
  lemma GdayFailsInYearZero()
    ensures GregorianDate(Date(0, 2, 29)) && Gday(NextDay(Date(0, 2, 29))) == Gday(Date(0, 2, 29))
  {
    hide Gday, YearDays;
    var a, b := Date(0, 2, 29), Date(0, 3, 1);
    assert NextDay(a) == b;
    assert YearDays(-1) == -365 && YearDays(0) == 0 by { YearDaysNearZero(); }
    GdayParts(a, -1, 11);
    GdayParts(b, 0, 0);
  }

  lemma YearDaysNearZero()
    ensures YearDays(-1) == -365 && YearDays(0) == 0
  {
  }

  lemma GdayParts(d: Date, y: int, m: int)
    requires MarchYear(d) == y && MarchMonth(d) == m
    ensures Gday(d) == YearDays(y) + MonthDays(m) + d.day - 1
  {
  }

  lemma NextDayValid(d: Date)
    requires ValidDate(d)
    ensures ValidDate(NextDay(d)) && Earlier(d, NextDay(d))
  {
  }

  /** From any valid date, the difference of day numbers is the number of days walked. */
  lemma {:induction false} GdayIsDistance(d: Date, n: nat)
    requires ValidDate(d)
    ensures ValidDate(AddDays(d, n)) && Gday(AddDays(d, n)) == Gday(d) + n
  {
    hide Gday;
    if n > 0 {
      GdayIsDistance(d, n - 1);
      NextDayValid(AddDays(d, n - 1));
      GdayCountsDays(AddDays(d, n - 1));
    }
  }

  lemma YearDaysMonotone(y: int, z: int)
    requires 0 <= y < z
    ensures YearDays(y) + (if IsLeap(y + 1) then 366 else 365) <= YearDays(z)
    decreases z - y
  {
    YearDaysStep(y + 1);
    if y + 1 < z {
      YearDaysMonotone(y + 1, z);
    }
  }

  /** Days into the March-based year stay below the length of that year. */
  lemma MonthDaysBound(d: Date)
    requires ValidDate(d)
    ensures MarchYear(d) >= 0
    ensures 0 <= MonthDays(MarchMonth(d)) + (d.day - 1) < (if IsLeap(MarchYear(d) + 1) then 366 else 365)
  {
  }

  lemma GdayMonotone(a: Date, b: Date)
    requires ValidDate(a) && ValidDate(b)
    ensures Earlier(a, b) <==> Gday(a) < Gday(b)
  {
    hide Gday;
    if Earlier(a, b) {
      GdayIncreases(a, b);
    } else if a != b {
      assert Earlier(b, a);
      GdayIncreases(b, a);
    }
  }

  lemma GdayIncreases(a: Date, b: Date)
    requires ValidDate(a) && ValidDate(b) && Earlier(a, b)
    ensures Gday(a) < Gday(b)
  {
    hide YearDays, IsLeap;
    MonthDaysBound(a);
    MonthDaysBound(b);
    if MarchYear(a) < MarchYear(b) {
      YearDaysMonotone(MarchYear(a), MarchYear(b));
    } else {
      OrderInsideMarchYear(a, b);
    }
  }

  lemma OrderInsideMarchYear(a: Date, b: Date)
    requires ValidDate(a) && ValidDate(b) && Earlier(a, b) && MarchYear(a) >= MarchYear(b)
    ensures MarchYear(a) == MarchYear(b)
    ensures MonthDays(MarchMonth(a)) + a.day < MonthDays(MarchMonth(b)) + b.day
  {
    CountedFromMarch(a);
    CountedFromMarch(b);
    hide MarchMonth, MarchYear, MonthDays, DaysInMonth;
    if MarchMonth(a) < MarchMonth(b) {
      DayInsideMonth(a);
      MonthDaysMonotone(MarchMonth(a) + 1, MarchMonth(b));
    }
  }

  lemma CountedFromMarch(d: Date)
    requires ValidDate(d)
    ensures MarchMonth(d) == if d.month >= 3 then d.month - 3 else d.month + 9
    ensures MarchYear(d) == if d.month >= 3 then d.year else d.year - 1
  {
    hide IsLeap;
  }

  lemma DayInsideMonth(d: Date)
    requires ValidDate(d) && MarchMonth(d) < 11
    ensures MonthDays(MarchMonth(d)) + d.day <= MonthDays(MarchMonth(d) + 1)
  {
    hide IsLeap;
  }

  lemma MonthDaysMonotone(m: int, n: int)
    requires m <= n
    ensures MonthDays(m) <= MonthDays(n)
  {
  }

  lemma FourCenturies(d: Date)
    requires ValidDate(d)
    ensures ValidDate(Date(d.year + 400, d.month, d.day))
    ensures Gday(Date(d.year + 400, d.month, d.day)) == Gday(d) + 146097
  {
    hide YearDays, IsLeap;
    MonthDaysBound(d);
    FourCenturyYears(MarchYear(d));
    FourCenturyYears(d.year);
  }

  lemma FourCenturyYears(y: int)
    requires y >= 0
    ensures YearDays(y + 400) == YearDays(y) + 146097
    ensures IsLeap(y + 400) == IsLeap(y)
  {
  }

  /** The mean year of 365.2425 days never misses the year count by more than two days. */
  lemma MeanYear(y: int)
    requires y >= 0
    ensures 3652425 * y - 14780 <= 10000 * YearDays(y) <= 3652425 * y + 7200
  {
    var a, b, c, e := y / 400, y % 400 / 100, y % 100 / 4, y % 4;
    assert y == 400 * a + 100 * b + 4 * c + e by { MixedRadix(y); }
    assert y / 4 == 100 * a + 25 * b + c;
    assert y / 100 == 4 * a + b;
    assert YearDays(y) == 146097 * a + 36524 * b + 1461 * c + 365 * e;
  }

  lemma MixedRadix(y: int)
    requires y >= 0
    ensures y == 400 * (y / 400) + 100 * (y % 400 / 100) + 4 * (y % 100 / 4) + y % 4
  {
    Hundreds(y);
    Fours(y);
  }

  lemma Hundreds(y: int)
    requires y >= 0
    ensures y == 400 * (y / 400) + 100 * (y % 400 / 100) + y % 100
  {
    var q, r := y / 400, y % 400;
    assert y == 400 * q + r && r == 100 * (r / 100) + r % 100;
    SameRest(y / 100, y % 100, 4 * q + r / 100, r % 100);
  }

  lemma SameRest(k: int, b: int, l: int, c: int)
    requires 100 * k + b == 100 * l + c && 0 <= b < 100 && 0 <= c < 100
    ensures b == c
  {
  }

  lemma Fours(y: int)
    requires y >= 0
    ensures y % 100 == 4 * (y % 100 / 4) + y % 4
  {
    var r := y % 100;
    assert r == 4 * (r / 4) + r % 4;
  }

  lemma QuotientWithin(v: int, q: int)
    requires q >= 0 && 3652425 * q <= v < 3652425 * (q + 2)
    ensures q <= TruncDiv(v, 3652425) <= q + 1
  {
  }

  /** The first guess of `Dft` is the right March-based year, or the one after it. */
  lemma DftYearGuess(y: int, r: int)
    requires y >= 0 && 0 <= r <= 365
    ensures y <= TruncDiv(10000 * (YearDays(y) + r) + 14780, 3652425) <= y + 1
  {
    hide YearDays, TruncDiv;
    MeanYear(y);
    QuotientWithin(10000 * (YearDays(y) + r) + 14780, y);
  }

  /** The month and the day inside a March-based year are recovered from the day count. */
  lemma MonthOfRemainder(d: Date)
    requires ValidDate(d)
    ensures TruncDiv(52 + 100 * (MonthDays(MarchMonth(d)) + (d.day - 1)), 3060) == MarchMonth(d)
  {
  }

  lemma DftOf(y: int, r: int)
    requires y >= 0 && 0 <= r < (if IsLeap(y + 1) then 366 else 365)
    ensures var mi := TruncDiv(52 + 100 * r, 3060);
            Dft(YearDays(y) + r) == Date(y + TruncDiv(mi + 2, 12), (mi + 2) % 12 + 1, r - MonthDays(mi) + 1)
  {
    hide YearDays, TruncDiv, IsLeap;
    DftYearGuess(y, r);
    YearDaysStep(y + 1);
  }

  lemma BackToJanuary(d: Date)
    requires 1 <= d.month <= 12
    ensures MarchYear(d) + TruncDiv(MarchMonth(d) + 2, 12) == d.year
    ensures (MarchMonth(d) + 2) % 12 + 1 == d.month
  {
  }

  /** `dft` undoes `gday` on every date from year 1 on. */
  lemma DftInvertsGday(d: Date)
    requires ValidDate(d)
    ensures Dft(Gday(d)) == d
  {
    hide YearDays, Dft, IsLeap, TruncDiv, MonthDays, MarchMonth, MarchYear;
    var r := MonthDays(MarchMonth(d)) + (d.day - 1);
    MonthDaysBound(d);
    MonthOfRemainder(d);
    DftOf(MarchYear(d), r);
    assert Gday(d) == YearDays(MarchYear(d)) + r;
    BackToJanuary(d);
  }

  /** Conversely `gday` undoes `dft` on every day number from 1 January of year 1 on, so
      the two are inverse bijections there. */
  lemma GdayInvertsDft(n: int)
    requires n >= Gday(Date(1, 1, 1))
    ensures ValidDate(Dft(n)) && Gday(Dft(n)) == n
  {
    hide Gday, Dft;
    var first := Date(1, 1, 1);
    GdayIsDistance(first, n - Gday(first));
    DftInvertsGday(AddDays(first, n - Gday(first)));
  }

  // ---- The month branch of `baseTime`, on milliseconds since 1970-01-01T00:00Z ----

  function EpochDay(): int { Gday(Date(1970, 1, 1)) }

  function DateOf(timestamp: int): Date
    requires timestamp >= 0
  {
    Dft(timestamp / DAY + EpochDay())
  }

  /** The first instant of the month that holds `timestamp`. */
  function MonthStart(timestamp: int): int
    requires timestamp >= 0
  {
    var d := DateOf(timestamp);
    (Gday(Date(d.year, d.month, 1)) - EpochDay()) * DAY
  }

  lemma EpochDayAfterYearOne()
    ensures EpochDay() >= Gday(Date(1, 1, 1))
  {
    hide Gday;
    GdayMonotone(Date(1, 1, 1), Date(1970, 1, 1));
  }

  lemma FirstOfMonth(d: Date)
    requires ValidDate(d)
    ensures Gday(Date(d.year, d.month, 1)) == Gday(d) - (d.day - 1)
  {
    hide YearDays;
  }

  /** The month start lies in the same month, at day 1, and is as many days back as the day of the
      month says. */
  lemma MonthStartIsFirstDay(t: int)
    requires t >= 0
    ensures var d := DateOf(t);
            ValidDate(d) && d.year >= 1970
            && MonthStart(t) == (t / DAY - (d.day - 1)) * DAY
            && 0 <= MonthStart(t) <= t
            && DateOf(MonthStart(t)) == Date(d.year, d.month, 1)
  {
    hide Gday, Dft;
    var n := t / DAY + EpochDay();
    var d := DateOf(t);
    EpochDayAfterYearOne();
    GdayInvertsDft(n);
    var f := Date(d.year, d.month, 1);
    GdayMonotone(d, Date(1970, 1, 1));
    GdayMonotone(f, Date(1970, 1, 1));
    DftInvertsGday(f);
    FirstOfMonth(d);
  }

  lemma MonthStartMonotone(t: int, u: int)
    requires 0 <= t <= u
    ensures MonthStart(t) <= MonthStart(u)
  {
    hide Gday, Dft;
    MonthStartIsFirstDay(t);
    MonthStartIsFirstDay(u);
    var d, e := DateOf(t), DateOf(u);
    EpochDayAfterYearOne();
    GdayInvertsDft(t / DAY + EpochDay());
    GdayInvertsDft(u / DAY + EpochDay());
    GdayMonotone(e, d);
    GdayMonotone(Date(e.year, e.month, 1), Date(d.year, d.month, 1));
  }
}
