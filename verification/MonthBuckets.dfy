/** The monthly buckets of the statistics against the calendar: the pass counts months as 30 days between
    month starts, and this says for which times and which runs that is the calendar month. */
module MonthBuckets {
  import opened Basics
  import opened Calendar
  import opened Months
  import opened TradeStatistics
  import opened StatisticsLaws

  // ---- How many buckets two entry times are apart ----

  lemma Thirtieths(n: int)
    requires n >= 0
    ensures TruncDiv(n * DAY, TF_MONTH) == n / 30
  {
  }

  lemma TruncNotPositive(x: int)
    requires x <= 0
    ensures TruncDiv(x, TF_MONTH) <= 0
  {
  }

  lemma ElapsedForward(from: nat, to: nat)
    requires MonthNo(from) <= MonthNo(to)
    ensures var k := MonthNo(to) - MonthNo(from);
            var m := (30 * k + Excess(MonthNo(from), k)) / 30;
            m >= 0 && ElapsedMonths(from, to) == if m <= 999 then m else 999
  {
    hide Begin, MonthNo, MonthStart, TruncDiv, EpochDay;
    var a, k := MonthNo(from), MonthNo(to) - MonthNo(from);
    MonthStartOfNo(from);
    MonthStartOfNo(to);
    DaysOfMonths(a, k);
    var days := 30 * k + Excess(a, k);
    assert MonthStart(to) - MonthStart(from) == days * DAY;
    Thirtieths(days);
  }

  lemma ElapsedBackward(from: nat, to: nat)
    requires MonthNo(to) < MonthNo(from)
    ensures ElapsedMonths(from, to) == 0
  {
    hide Begin, MonthNo, MonthStart, EpochDay, TruncDiv;
    var b, k := MonthNo(to), MonthNo(from) - MonthNo(to);
    MonthStartOfNo(from);
    MonthStartOfNo(to);
    DaysOfMonths(b, k);
    var days := 30 * k + Excess(b, k);
    assert MonthStart(to) - MonthStart(from) == -days * DAY;
    TruncNotPositive(-days * DAY);
  }

  /** The count is the number of calendar months from one entry to the other, for any two times, iff they
      do not go back, and the months between them have neither fewer than 30 days each on average nor a
      whole 30 days more; 999 months are the limit of the count. */
  lemma ElapsedIsMonthsIff(from: nat, to: nat)
    ensures var k := MonthNo(to) - MonthNo(from);
            ElapsedMonths(from, to) == k
            <==> 0 <= k <= 999 && 0 <= Excess(MonthNo(from), k) && (Excess(MonthNo(from), k) < 30 || k == 999)
  {
    hide MonthNo, ElapsedMonths;
    if MonthNo(to) < MonthNo(from) {
      ElapsedBackward(from, to);
    } else {
      ElapsedForward(from, to);
    }
  }

  /** No bucket is opened iff the month does not change or goes back, or is the March after a February. */
  lemma SameBucketIff(from: nat, to: nat)
    ensures ElapsedMonths(from, to) == 0
            <==> MonthNo(to) <= MonthNo(from) || (IsFebruary(MonthNo(from)) && MonthNo(to) == MonthNo(from) + 1)
  {
    hide MonthNo, ElapsedMonths;
    if MonthNo(to) < MonthNo(from) {
      ElapsedBackward(from, to);
    } else {
      ElapsedForward(from, to);
      var a := MonthNo(from);
      if MonthNo(to) == a + 1 {
        assert Excess(a, 1) == LengthOf(a) - 30;
      }
    }
  }

  // ---- Whole runs ----

  /** The bucket of trade `i`, and its calendar month. */
  function BucketAt(s: seq<Trade>, i: nat): nat
    requires i < |s|
  {
    Bucket(s[..i + 1])
  }

  function MonthAt(s: seq<Trade>, i: nat): int
    requires i < |s|
  {
    MonthNo(s[i].entry)
  }

  lemma BucketStep(s: seq<Trade>, i: nat)
    requires i + 1 < |s|
    ensures BucketAt(s, i + 1) == BucketAt(s, i) + ElapsedMonths(s[i].entry, s[i + 1].entry)
  {
    hide ElapsedMonths;
    assert Front(s[..i + 2]) == s[..i + 1];
  }

  /** Two trades share a bucket iff they share a month. */
  predicate BucketsAreMonths(s: seq<Trade>) {
    forall i: nat, j: nat :: i < |s| && j < |s| ==> (BucketAt(s, i) == BucketAt(s, j) <==> MonthAt(s, i) == MonthAt(s, j))
  }

  /** From trade `i` to the next the month does not go back, and a March does not follow a February. */
  predicate MonthKept(s: seq<Trade>, i: nat)
    requires i + 1 < |s|
  {
    MonthAt(s, i) <= MonthAt(s, i + 1)
    && !(IsFebruary(MonthAt(s, i)) && MonthAt(s, i + 1) == MonthAt(s, i) + 1)
  }

  lemma {:induction false} MonthsAndBucketsClimb(s: seq<Trade>, i: nat, j: nat)
    requires i <= j < |s| && forall k: nat :: k + 1 < |s| ==> MonthKept(s, k)
    ensures BucketAt(s, i) <= BucketAt(s, j) && MonthAt(s, i) <= MonthAt(s, j)
    ensures BucketAt(s, i) == BucketAt(s, j) <==> MonthAt(s, i) == MonthAt(s, j)
  {
    hide MonthNo, ElapsedMonths, Bucket;
    if i < j {
      MonthsAndBucketsClimb(s, i, j - 1);
      BucketStep(s, j - 1);
      SameBucketIff(s[j - 1].entry, s[j].entry);
      assert MonthKept(s, j - 1);
    }
  }

  /** In every run, any two trades share a bucket iff they share a calendar month, iff from each trade to
      the next the month of entry does not go back, and is not the March after a February. */
  lemma BucketsAreMonthsIff(s: seq<Trade>)
    ensures BucketsAreMonths(s) <==> forall k: nat :: k + 1 < |s| ==> MonthKept(s, k)
  {
    hide MonthNo, ElapsedMonths, Bucket;
    if BucketsAreMonths(s) {
      forall k: nat | k + 1 < |s| ensures MonthKept(s, k) {
        BucketStep(s, k);
        SameBucketIff(s[k].entry, s[k + 1].entry);
        assert BucketAt(s, k) == BucketAt(s, k + 1) <==> MonthAt(s, k) == MonthAt(s, k + 1);
      }
    }
    if forall k: nat :: k + 1 < |s| ==> MonthKept(s, k) {
      forall i: nat, j: nat | i < |s| && j < |s|
        ensures BucketAt(s, i) == BucketAt(s, j) <==> MonthAt(s, i) == MonthAt(s, j)
      {
        if i <= j { MonthsAndBucketsClimb(s, i, j); } else { MonthsAndBucketsClimb(s, j, i); }
      }
    }
  }

  /** From trade `i` to the next the count of buckets is the count of months. */
  predicate MonthsCounted(s: seq<Trade>, i: nat)
    requires i + 1 < |s|
  {
    var k := MonthAt(s, i + 1) - MonthAt(s, i);
    0 <= k <= 999 && 0 <= Excess(MonthAt(s, i), k) && (Excess(MonthAt(s, i), k) < 30 || k == 999)
  }

  predicate BucketsNumberMonths(s: seq<Trade>) {
    forall i: nat :: i < |s| ==> BucketAt(s, i) == MonthAt(s, i) - MonthAt(s, 0)
  }

  /** In every run, the number of each bucket is the number of calendar months since the first trade iff
      the count is right from each trade to the next. */
  lemma BucketsNumberMonthsIff(s: seq<Trade>)
    ensures BucketsNumberMonths(s) <==> forall k: nat :: k + 1 < |s| ==> MonthsCounted(s, k)
  {
    hide MonthNo, ElapsedMonths, Bucket;
    if BucketsNumberMonths(s) {
      forall k: nat | k + 1 < |s| ensures MonthsCounted(s, k) {
        BucketStep(s, k);
        ElapsedIsMonthsIff(s[k].entry, s[k + 1].entry);
        assert BucketAt(s, k) == MonthAt(s, k) - MonthAt(s, 0);
        assert BucketAt(s, k + 1) == MonthAt(s, k + 1) - MonthAt(s, 0);
      }
    }
    if forall k: nat :: k + 1 < |s| ==> MonthsCounted(s, k) {
      forall i: nat | i < |s| ensures BucketAt(s, i) == MonthAt(s, i) - MonthAt(s, 0) {
        NumbersFollow(s, i);
      }
    }
  }

  lemma {:induction false} NumbersFollow(s: seq<Trade>, i: nat)
    requires i < |s| && forall k: nat :: k + 1 < |s| ==> MonthsCounted(s, k)
    ensures BucketAt(s, i) == MonthAt(s, i) - MonthAt(s, 0)
  {
    hide MonthNo, ElapsedMonths;
    if i > 0 {
      NumbersFollow(s, i - 1);
      hide Bucket;
      BucketStep(s, i - 1);
      ElapsedIsMonthsIff(s[i - 1].entry, s[i].entry);
      assert MonthsCounted(s, i - 1);
    } else {
      assert Elapsed(s[..1]) == 0 && Bucket(Front(s[..1])) == 0;
    }
  }

  // ---- What a bucket holds ----

  /** Sum of the results of the trades that entered in a calendar month. */
  function InMonth(s: seq<Trade>, u: Unit, month: int): real {
    if s == [] then 0.0 else InMonth(Front(s), u, month) + (if MonthNo(Last(s).entry) == month then Result(Last(s), u) else 0.0)
  }

  lemma {:induction false} BucketIsMonth(s: seq<Trade>, u: Unit, i: nat, n: nat)
    requires BucketsAreMonths(s) && i < |s| && n <= |s|
    ensures InBucket(s[..n], u, BucketAt(s, i)) == InMonth(s[..n], u, MonthAt(s, i))
    decreases n
  {
    hide MonthNo, Bucket;
    if n > 0 {
      BucketIsMonth(s, u, i, n - 1);
      assert Front(s[..n]) == s[..n - 1];
      assert BucketAt(s, n - 1) == BucketAt(s, i) <==> MonthAt(s, n - 1) == MonthAt(s, i);
    }
  }

  /** On such a run the profit reported for the bucket of a trade is the sum of the results of all trades
      that entered in the calendar month of that trade. */
  lemma MonthProfit(s: seq<Trade>, u: Unit, recover: int, i: nat)
    requires i < |s| && forall k: nat :: k + 1 < |s| ==> MonthKept(s, k)
    ensures BucketAt(s, i) < |Fold(s, u, recover).months|
    ensures Fold(s, u, recover).months[BucketAt(s, i)] == InMonth(s, u, MonthAt(s, i))
  {
    hide MonthKept, MonthNo, Fold, Bucket, BucketsAreMonths;
    BucketsAreMonthsIff(s);
    assert s[..|s|] == s;
    BucketNeverBeyond(s, i + 1);
    MonthsAreBuckets(s, u, recover, BucketAt(s, i));
    BucketIsMonth(s, u, i, |s|);
  }

  lemma {:induction false} BucketNeverBeyond(s: seq<Trade>, n: nat)
    requires n <= |s|
    ensures Bucket(s[..n]) <= Bucket(s)
    decreases |s|
  {
    hide Elapsed;
    if n < |s| {
      assert Front(s)[..n] == s[..n];
      BucketNeverBeyond(Front(s), n);
    } else {
      assert s[..n] == s;
    }
  }

  // ---- Two pairs of times that are miscounted ----

  /** From 15 January to 15 March 1970 only one bucket is opened; from 15 February, none. */
  lemma JanuaryToMarchOpensOne()
    ensures MonthNo(14 * DAY) + 2 == MonthNo(45 * DAY) + 1 == MonthNo(73 * DAY)
    ensures ElapsedMonths(14 * DAY, 73 * DAY) == 1 && ElapsedMonths(45 * DAY, 73 * DAY) == 0
  {
    hide Gday, ElapsedMonths, MonthNo, LengthOf;
    Of1970(1, 15, 14);
    Of1970(2, 15, 45);
    Of1970(3, 15, 73);
    var january := 1970 * 12;
    assert LengthOf(january) == 31 && LengthOf(january + 1) == 28 by { Winter1970(); }
    assert Excess(january, 0) == 0;
    assert Excess(january, 1) == 1;
    assert Excess(january, 2) == -1;
    ElapsedForward(14 * DAY, 73 * DAY);
    SameBucketIff(45 * DAY, 73 * DAY);
  }

  /** Two trades that left together, one entered in January and one in March: their order decides whether
      March has a bucket. */
  lemma TiesCanMoveMonths()
    ensures var x, y := Trade(14 * DAY, 80 * DAY, 1.0, 1.0), Trade(73 * DAY, 80 * DAY, 1.0, 1.0);
            && SortedPermutation([x, y], [y, x]) && SortedPermutation([y, x], [y, x])
            && |Fold([x, y], Money, 0).months| == 2 && |Fold([y, x], Money, 0).months| == 1
  {
    January();
    hide ElapsedMonths, MonthNo, Fold;
    TiedPair(Trade(14 * DAY, 80 * DAY, 1.0, 1.0), Trade(73 * DAY, 80 * DAY, 1.0, 1.0));
  }

  lemma January()
    ensures ElapsedMonths(14 * DAY, 73 * DAY) == 1 && ElapsedMonths(73 * DAY, 14 * DAY) == 0
  {
    JanuaryToMarchOpensOne();
    hide MonthNo, ElapsedMonths;
    SameBucketIff(73 * DAY, 14 * DAY);
  }

  lemma TiedPair(x: Trade, y: Trade)
    requires x.exit == y.exit
    ensures SortedPermutation([x, y], [y, x]) && SortedPermutation([y, x], [y, x])
    ensures |Fold([x, y], Money, 0).months| == ElapsedMonths(x.entry, y.entry) + 1
    ensures |Fold([y, x], Money, 0).months| == ElapsedMonths(y.entry, x.entry) + 1
  {
    hide ElapsedMonths, Fold;
    var s: seq<Trade>, t: seq<Trade> := [x, y], [y, x];
    assert multiset(s) == multiset(t);
    TwoBuckets(x, y);
    TwoBuckets(y, x);
  }

  lemma TwoBuckets(x: Trade, y: Trade)
    ensures Bucket([x, y]) == ElapsedMonths(x.entry, y.entry)
  {
    hide ElapsedMonths;
    assert Front([x, y]) == [x] && Front([x]) == [];
    assert Elapsed([x]) == 0 && Elapsed([x, y]) == ElapsedMonths(x.entry, y.entry);
    assert Bucket([x]) == Bucket([]) + 0;
  }

  lemma Winter1970()
    ensures LengthOf(1970 * 12) == 31 && LengthOf(1970 * 12 + 1) == 28
  {
  }

  lemma Of1970(month: int, day: int, n: nat)
    requires (month, day, n) in {(1, 15, 14), (2, 15, 45), (3, 15, 73)}
    ensures MonthNo(n * DAY) == 1970 * 12 + month - 1
  {
    hide Dft, Gday, YearDays;
    var d := Date(1970, month, day);
    GdayParts(Date(1970, 1, 1), 1969, 10);
    GdayParts(d, if month <= 2 then 1969 else 1970, (month + 9) % 12);
    YearDaysStep(1970);
    DftInvertsGday(d);
    assert n * DAY / DAY == n;
  }
}
