/** Calendar months by number: where they begin, how long they are, and which one holds a time. */
module Months {
  import opened Basics
  import opened Calendar

  function FirstOfNext(d: Date): Date {
    if d.month == 12 then Date(d.year + 1, 1, 1) else Date(d.year, d.month + 1, 1)
  }

  lemma MonthLength(d: Date)
    requires ValidDate(d) && d.day == 1
    ensures Gday(FirstOfNext(d)) == Gday(d) + DaysInMonth(d.year, d.month)
  {
    hide Gday;
    var last := Date(d.year, d.month, DaysInMonth(d.year, d.month));
    FirstOfMonth(last);
    GdayCountsDays(last);
  }

  // ---- Calendar months ----

  /** Months since year 0. */
  function MonthNo(t: nat): int {
    DateOf(t).year * 12 + DateOf(t).month - 1
  }

  function FirstDay(month: int): Date { Date(month / 12, month % 12 + 1, 1) }

  /** The day number at which the month begins. */
  function Begin(month: int): int { Gday(FirstDay(month)) }

  function LengthOf(month: int): (days: int)
    ensures 28 <= days <= 31
  {
    DaysInMonth(month / 12, month % 12 + 1)
  }

  predicate IsFebruary(month: int) { month % 12 == 1 }

  /** How many days `k` months from `month` on have beyond 30 each. */
  function Excess(month: int, k: nat): (e: int)
    ensures -2 * k <= e <= k
  {
    if k == 0 then 0 else Excess(month, k - 1) + LengthOf(month + k - 1) - 30
  }

  lemma NextBegin(month: int)
    requires month >= 12
    ensures Begin(month + 1) == Begin(month) + LengthOf(month)
  {
    hide Gday;
    var d := FirstDay(month);
    assert ValidDate(d) && FirstOfNext(d) == FirstDay(month + 1);
    MonthLength(d);
  }

  lemma {:induction false} DaysOfMonths(month: int, k: nat)
    requires month >= 12
    ensures Begin(month + k) == Begin(month) + 30 * k + Excess(month, k)
  {
    hide Begin, LengthOf;
    if k > 0 {
      DaysOfMonths(month, k - 1);
      NextBegin(month + (k - 1));
      assert month + (k - 1) + 1 == month + k;
    }
  }

  lemma MonthStartOfNo(t: nat)
    ensures MonthNo(t) >= 12 && MonthStart(t) == (Begin(MonthNo(t)) - EpochDay()) * DAY
  {
    hide Gday, DateOf;
    MonthStartIsFirstDay(t);
    var d := DateOf(t);
    assert FirstDay(MonthNo(t)) == Date(d.year, d.month, 1);
  }

  /** The day of a time, counted from the beginning of its month. */
  lemma DayInMonth(t: nat)
    ensures MonthNo(t) >= 12 && t / DAY == Begin(MonthNo(t)) - EpochDay() + DateOf(t).day - 1
    ensures 1 <= DateOf(t).day <= 31
  {
    hide Gday, DateOf, EpochDay;
    MonthStartIsFirstDay(t);
    var d := DateOf(t);
    assert FirstDay(MonthNo(t)) == Date(d.year, d.month, 1);
  }

  lemma MonthNoMonotone(t: nat, u: nat)
    requires t <= u
    ensures MonthNo(t) <= MonthNo(u)
  {
    hide Begin, MonthNo, MonthStart, EpochDay, Excess;
    MonthStartMonotone(t, u);
    MonthStartOfNo(t);
    MonthStartOfNo(u);
    var a, b, e := Begin(MonthNo(t)), Begin(MonthNo(u)), EpochDay();
    assert (a - e) * DAY <= (b - e) * DAY ==> a <= b;
    if MonthNo(u) < MonthNo(t) {
      DaysOfMonths(MonthNo(u), MonthNo(t) - MonthNo(u));
    }
  }
}
