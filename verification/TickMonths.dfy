/** The reader in terms of months numbered one after the other, whatever steps it takes from file to file:
    which files a stream walks, what it reads of each, and that it leaves nothing of them out. */
module TickMonths {
  import opened Basics
  import opened TickStreaming
  import opened TickFiltering

  // ---- Numbered months ----

  /** Months since year 0. */
  function MonthNo(d: DateTime): int { d.year * 12 + d.month - 1 }

  /** The year and the month, 1 to 12, of a numbered month. */
  function KeyOf(month: int): (int, int) { (month / 12, month % 12 + 1) }

  /** The month begins before the end of the range. */
  predicate BeginsBefore(month: int, to: DateTime) {
    month < MonthNo(to) || (month == MonthNo(to) && to.elapsed > 0)
  }

  predicate HasFile(files: Files, month: int) { KeyOf(month) in files }

  function FileOf(files: Files, month: int): seq<Record> {
    if HasFile(files, month) then files[KeyOf(month)].records else []
  }

  /** The files of the months from `month` to before `end`, one after the other. */
  function FilesOf(files: Files, month: int, end: int): seq<Record>
    decreases end - month
  {
    if month >= end then [] else FileOf(files, month) + FilesOf(files, month + 1, end)
  }

  /** The same, each file up to the first record that goes back in time. */
  function GoodOf(files: Files, month: int, end: int, lastTs: real): seq<Record>
    decreases end - month
  {
    if month >= end then []
    else
      var rs := FileOf(files, month);
      var good := rs[..GoodPrefix(lastTs, rs)];
      good + GoodOf(files, month + 1, end, LastTs(lastTs, good))
  }

  /** From `month` on, the first month after it that has no file or does not begin in the range is `end`. */
  predicate WalkEnds(files: Files, to: DateTime, month: int, end: int) {
    && month < end && !(HasFile(files, end) && BeginsBefore(end, to))
    && forall k :: month < k < end ==> HasFile(files, k) && BeginsBefore(k, to)
  }

  /** The stream moves to the next month, December to January included. */
  lemma NextMonthIsNext(d: DateTime)
    ensures MonthNo(NextMonth(d)) == MonthNo(d) + 1 && NextMonth(d).elapsed == 0
  {
  }

  lemma MonthOfKey(files: Files, to: DateTime, d: DateTime)
    ensures KeyOf(MonthNo(d)) == (d.year, d.month)
    ensures FileOf(files, MonthNo(d)) == if Lookup(files, d).Some? then Lookup(files, d).value.records else []
    ensures Before(d, to) <==> MonthNo(d) < MonthNo(to) || (MonthNo(d) == MonthNo(to) && d.elapsed < to.elapsed)
  {
    assert (d.year * 12 + (d.month - 1)) / 12 == d.year;
  }

  lemma FollowsIff(files: Files, cur: DateTime, to: DateTime)
    ensures Follows(files, cur, to) <==> HasFile(files, MonthNo(cur) + 1) && BeginsBefore(MonthNo(cur) + 1, to)
  {
    NextMonthIsNext(cur);
    MonthOfKey(files, to, NextMonth(cur));
  }

  /** Some month ends the walk. */
  lemma {:induction false} FindEnd(files: Files, to: DateTime, month: int) returns (end: int)
    ensures WalkEnds(files, to, month, end)
    decreases MonthNo(to) - month
  {
    end := month + 1;
    if HasFile(files, end) && BeginsBefore(end, to) {
      end := FindEnd(files, to, month + 1);
    }
  }

  lemma EndsLater(files: Files, to: DateTime, month: int, end: int)
    requires WalkEnds(files, to, month, end)
    ensures month < end && (HasFile(files, month + 1) && BeginsBefore(month + 1, to) <==> month + 1 < end)
    ensures month + 1 < end ==> WalkEnds(files, to, month + 1, end)
  {
  }

  // ---- The walk ----

  lemma {:induction false} WalkIsNumbered(files: Files, to: DateTime, cur: DateTime, lastTs: real, end: int)
    requires Before(cur, to) && WalkEnds(files, to, MonthNo(cur), end)
    ensures Walk(files, to, cur, lastTs) == GoodOf(files, MonthNo(cur), end, lastTs)
    ensures Months(files, to, cur) == FilesOf(files, MonthNo(cur), end)
    decreases end - MonthNo(cur)
  {
    hide GoodPrefix, LastTs, WalkEnds, NextMonth, Before, BeginsBefore, HasFile, MonthNo;
    var month := MonthNo(cur);
    MonthOfKey(files, to, cur);
    FollowsIff(files, cur, to);
    NextMonthIsNext(cur);
    EndsLater(files, to, month, end);
    if Follows(files, cur, to) {
      var rs := FileOf(files, month);
      var last := LastTs(lastTs, rs[..GoodPrefix(lastTs, rs)]);
      WalkIsNumbered(files, to, NextMonth(cur), last, end);
    }
  }

  // ---- The stream ----

  /** On sorted files: any calls on a stream over a range deliver exactly the ticks in range of the files of
      all months from its first one to the first month that has no file or begins too late. */
  lemma StreamIsNumbered(files: Files, from: DateTime, to: DateTime, n: nat, fromTs: real, toTs: real, calls: seq<real>,
                         end: int)
    requires n >= 1 && PositiveTimes(files) && InOrder(files) && calls != []
    requires WalkEnds(files, to, MonthNo(from), end)
    ensures Plain(Calls(ReadAhead(files, to, n, from, None, 0.0), false, fromTs, toTs, calls))
         == if MonthNo(from) < MonthNo(to) || (MonthNo(from) == MonthNo(to) && from.elapsed < to.elapsed) then
              Filter(Plain(FilesOf(files, MonthNo(from), end)), fromTs, Min(toTs, Latest(calls)))
            else []
  {
    hide ReadAhead, Filter, Plain, Calls, Months, FilesOf, GoodOf, Walk, PositiveTimes, InOrder, WalkEnds, MonthNo, KeyOf;
    SortedMonthsAreFiltered(files, from, to, n, fromTs, toTs, calls);
    MonthOfKey(files, to, from);
    if Before(from, to) {
      WalkIsNumbered(files, to, from, 0.0, end);
    } else {
      NoMonths(files, to, from, fromTs, Min(toTs, Latest(calls)));
    }
  }

  lemma NoMonths(files: Files, to: DateTime, cur: DateTime, lo: real, hi: real)
    requires !Before(cur, to)
    ensures Filter(Plain(Months(files, to, cur)), lo, hi) == []
  {
  }

  lemma {:induction false} InFilesOf(files: Files, month: int, end: int, k: int, r: Record)
    requires month <= k < end && r in FileOf(files, k)
    ensures r in FilesOf(files, month, end)
    decreases k - month
  {
    hide FileOf;
    if month < k { InFilesOf(files, month + 1, end, k, r); }
  }

  /** What the filter keeps, by the timestamps alone. */
  lemma {:induction false} InFilterIff(rs: seq<Record>, lo: real, hi: real, r: Record)
    ensures r in Filter(rs, lo, hi) <==> r in rs && lo <= r.timestamp && r.timestamp <= hi
  {
    if rs != [] {
      InFilterIff(rs[1..], lo, hi, r);
      assert rs == [rs[0]] + rs[1..];
    }
  }

  lemma InPlain(rs: seq<Record>, r: Record)
    requires r in rs
    ensures r.(side := 0) in Plain(rs)
  {
    var i :| 0 <= i < |rs| && rs[i] == r;
    assert Plain(rs)[i] == r.(side := 0);
  }

  /** Nothing is left out: when all months after the first up to month `k` have files and begin in the range, each
      record of the file of `k` that the calls reach is delivered. */
  lemma NothingLeftOut(files: Files, from: DateTime, to: DateTime, n: nat, fromTs: real, toTs: real, calls: seq<real>,
                       k: int, r: Record)
    requires n >= 1 && PositiveTimes(files) && InOrder(files) && calls != []
    requires MonthNo(from) < MonthNo(to) || (MonthNo(from) == MonthNo(to) && from.elapsed < to.elapsed)
    requires forall m :: MonthNo(from) < m <= k ==> HasFile(files, m) && BeginsBefore(m, to)
    requires MonthNo(from) <= k && r in FileOf(files, k)
    requires fromTs <= r.timestamp <= toTs && exists t :: t in calls && r.timestamp <= t
    ensures r.(side := 0) in Plain(Calls(ReadAhead(files, to, n, from, None, 0.0), false, fromTs, toTs, calls))
  {
    hide ReadAhead, Filter, Plain, Calls, FilesOf, PositiveTimes, InOrder, MonthNo, KeyOf, HasFile, FileOf;
    var end := FindEnd(files, to, MonthNo(from));
    StreamIsNumbered(files, from, to, n, fromTs, toTs, calls, end);
    assert k < end;
    InFilesOf(files, MonthNo(from), end, k, r);
    InPlain(FilesOf(files, MonthNo(from), end), r);
    var t :| t in calls && r.timestamp <= t;
    LatestIsLatest(calls, t);
    InFilterIff(Plain(FilesOf(files, MonthNo(from), end)), fromTs, Min(toTs, Latest(calls)), r.(side := 0));
  }

  lemma {:induction false} LatestIsLatest(calls: seq<real>, t: real)
    requires t in calls
    ensures Latest(calls) >= t && Latest(calls) in calls
  {
    if |calls| > 1 {
      if t in calls[1..] {
        LatestIsLatest(calls[1..], t);
      } else {
        LatestIsLatest(calls[1..], calls[1]);
      }
    }
  }

  /** Where a file is cut: at the first record that goes back, once a positive time has been read. */
  predicate GoesBack(lastTs: real, rs: seq<Record>, i: nat)
    requires i < |rs|
  {
    var before := if i == 0 then lastTs else rs[i - 1].timestamp;
    before > 0.0 && rs[i].timestamp < before
  }

  lemma {:induction false} GoodPrefixIff(lastTs: real, rs: seq<Record>, k: nat)
    requires k <= |rs|
    ensures GoodPrefix(lastTs, rs) == k
       <==> (k < |rs| ==> GoesBack(lastTs, rs, k)) && forall i: nat :: i < k ==> !GoesBack(lastTs, rs, i)
    decreases |rs|
  {
    if rs != [] {
      var later := rs[1..];
      assert forall i: nat :: i < |later| ==> (GoesBack(rs[0].timestamp, later, i) <==> GoesBack(lastTs, rs, i + 1));
      if k == 0 {
        assert !GoesBack(lastTs, rs, 0) ==> GoodPrefix(lastTs, rs) > 0;
      } else {
        GoodPrefixIff(rs[0].timestamp, later, k - 1);
        if forall i: nat :: i < k ==> !GoesBack(lastTs, rs, i) {
          assert !GoesBack(lastTs, rs, 0);
          assert forall i: nat :: i < k - 1 ==> !GoesBack(rs[0].timestamp, later, i);
        }
        if GoodPrefix(lastTs, rs) == k {
          forall i: nat | i < k ensures !GoesBack(lastTs, rs, i) {
            if i > 0 { assert !GoesBack(rs[0].timestamp, later, i - 1); }
          }
        }
      }
    }
  }
}
