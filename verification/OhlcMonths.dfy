/** Candles by month in calendar terms: the generator starts a candle at the first of the month, and closes
    it 30 days later. */
module OhlcMonths {
  import opened Basics
  import opened Calendar
  import opened Months
  import opened OhlcGeneration
  import opened OhlcWindows

  /** The later tick neither falls on the 31st of the month of the earlier one, nor so early in the March
      after its February that 30 days have not passed since that February began. */
  predicate CutRight(t: Live, u: Live) {
    var m, n := MonthNo(t.timestamp), MonthNo(u.timestamp);
    && (m == n ==> DateOf(u.timestamp).day <= 30)
    && (IsFebruary(m) && n == m + 1 ==> DateOf(u.timestamp).day > 30 - LengthOf(m))
  }

  lemma ClosesRightIff(t: Live, u: Live)
    requires t.timestamp <= u.timestamp
    ensures ClosesAt(MONTH, t, u) <==> CutRight(t, u)
  {
    hide Begin, MonthNo, DateOf, EpochDay, MonthStart;
    var m, n, day := MonthNo(t.timestamp), MonthNo(u.timestamp), DateOf(u.timestamp).day;
    MonthNoMonotone(t.timestamp, u.timestamp);
    MonthStartOfNo(t.timestamp);
    MonthStartOfNo(u.timestamp);
    DayInMonth(u.timestamp);
    DaysOfMonths(m, n - m);
    var from, to := Begin(m) - EpochDay(), Begin(n) - EpochDay();
    ThirtyDays(u.timestamp, from);
    assert to * DAY == from * DAY <==> to == from;
    if n == m + 1 {
      assert Excess(m, 1) == Excess(m, 0) + LengthOf(m) - 30;
    }
  }

  lemma ThirtyDays(time: nat, from: int)
    ensures time >= from * DAY + MONTH <==> time / DAY >= from + 30
  {
  }

  /** Candles by month are the calendar months iff no tick falls on the 31st after another of its month, and
      none on the first of March, or the second of a year that is not leap, right after one of February. */
  lemma MonthGroupsAreMonthsIff(acc: seq<Live>)
    requires Increasing(acc)
    ensures ByWindow(MONTH, Groups(MONTH, acc)) <==> forall i: nat :: i + 1 < |acc| ==> CutRight(acc[i], acc[i + 1])
  {
    hide ByWindow, ClosesAt, CutRight, Groups;
    GroupsAreWindowsIff(MONTH, acc);
    forall i: nat | i + 1 < |acc| ensures ClosesAt(MONTH, acc[i], acc[i + 1]) <==> CutRight(acc[i], acc[i + 1]) {
      ClosesRightIff(acc[i], acc[i + 1]);
    }
    if ClosesWithWindow(MONTH, acc) {
      forall i: nat | i + 1 < |acc| ensures CutRight(acc[i], acc[i + 1]) {
        var k := i + 1;
        assert ClosesAt(MONTH, acc[k - 1], acc[k]);
      }
    }
    if forall i: nat :: i + 1 < |acc| ==> CutRight(acc[i], acc[i + 1]) {
      forall k | 0 < k < |acc| ensures ClosesAt(MONTH, acc[k - 1], acc[k]) {
        var i := k - 1;
        assert CutRight(acc[i], acc[i + 1]);
      }
    }
  }
}
