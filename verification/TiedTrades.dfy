/** Trades that left at the same time: when their order changes what the pass reports. A group is all the
    trades with one exit time; sorting leaves the order inside a group open. */
module TiedTrades {
  import opened Basics
  import opened TradeStatistics
  import opened StatisticsLaws

  // ---- The pass over the track and the draw-downs ----

  /** What the pass keeps of one unit but for months and totals. */
  datatype Course = Course(track: Track, drawDowns: seq<real>)

  function CourseOf(s: seq<Trade>, u: Unit, recover: int): Course {
    var k := Fold(s, u, recover);
    Course(k.track, k.drawDowns)
  }

  function Next(c: Course, t: Trade, u: Unit): Course {
    var track := Advance(c.track, t, u);
    Course(track, c.drawDowns + [Square(track.cum - track.peak)])
  }

  function Follow(c: Course, g: seq<Trade>, u: Unit): Course {
    if g == [] then c else Next(Follow(c, Front(g), u), Last(g), u)
  }

  lemma CourseStep(s: seq<Trade>, u: Unit, recover: int)
    requires s != []
    ensures CourseOf(s, u, recover) == Next(CourseOf(Front(s), u, recover), Last(s), u)
  {
    hide Elapsed, Advance;
  }

  lemma {:induction false} CourseSplit(p: seq<Trade>, g: seq<Trade>, u: Unit, recover: int)
    ensures CourseOf(p + g, u, recover) == Follow(CourseOf(p, u, recover), g, u)
  {
    hide CourseOf, Next;
    if g == [] {
      assert p + g == p;
    } else {
      CourseSplit(p, Front(g), u, recover);
      assert Front(p + g) == p + Front(g) && Last(p + g) == Last(g);
      CourseStep(p + g, u, recover);
    }
  }

  // ---- Groups ----

  predicate StartsGroup(a: seq<Trade>, k: nat) {
    k < |a| && (k == 0 || a[k - 1].exit != a[k].exit)
  }

  predicate InGroup(a: seq<Trade>, k: nat, i: nat)
    requires k < |a|
  {
    k <= i < |a| && a[i].exit == a[k].exit
  }

  /** How far the cumulated result is below its peak before trade `k`. */
  function Depth(a: seq<Trade>, u: Unit, k: nat): real
    requires k <= |a|
  {
    var track := Fold(a[..k], u, 0).track;
    track.peak - track.cum
  }

  /** The results of the group are all equal, or each makes up for the draw-down before the group. */
  ghost predicate GroupSettled(a: seq<Trade>, u: Unit, k: nat)
    requires k < |a|
  {
    || (forall i: nat :: InGroup(a, k, i) ==> Result(a[i], u) == Result(a[k], u))
    || (forall i: nat :: InGroup(a, k, i) ==> Result(a[i], u) >= Depth(a, u, k))
  }

  ghost predicate Settled(a: seq<Trade>, u: Unit) {
    forall k: nat :: StartsGroup(a, k) ==> GroupSettled(a, u, k)
  }

  /** Where the last group starts. */
  function LastGroup(a: seq<Trade>): (k: nat)
    requires a != []
    ensures StartsGroup(a, k) && forall i :: k <= i < |a| ==> a[i].exit == Last(a).exit
  {
    if |a| == 1 || a[|a| - 2].exit != Last(a).exit then |a| - 1 else LastGroup(Front(a))
  }

  lemma EarlierThanLastGroup(a: seq<Trade>, i: nat)
    requires a != [] && SortedByExit(a) && i < LastGroup(a)
    ensures a[i].exit < Last(a).exit
  {
    var k := LastGroup(a);
    assert a[i].exit <= a[k - 1].exit < a[k].exit;
  }

  lemma SameLastExit(a: seq<Trade>, b: seq<Trade>)
    requires a != [] && b != [] && SortedByExit(a) && SortedByExit(b) && multiset(a) == multiset(b)
    ensures Last(a).exit == Last(b).exit
  {
    var i := PermutationMembers(a, b, |a| - 1);
    var j := PermutationMembers(b, a, |b| - 1);
    assert b[i].exit <= Last(b).exit && a[j].exit <= Last(a).exit;
  }

  /** The part before the last group, and the last group, are determined but for their order. */
  lemma SplitGroups(a: seq<Trade>, b: seq<Trade>)
    requires a != [] && b != [] && SortedByExit(a) && SortedByExit(b) && multiset(a) == multiset(b)
    ensures multiset(a[..LastGroup(a)]) == multiset(b[..LastGroup(b)])
    ensures multiset(a[LastGroup(a)..]) == multiset(b[LastGroup(b)..])
  {
    SameLastExit(a, b);
    IsPart(a);
    IsPart(b);
    hide SortedByExit, LastGroup;
    SamePart(multiset(a[..LastGroup(a)]), multiset(b[..LastGroup(b)]), multiset(a), Last(a).exit, false);
    SamePart(multiset(a[LastGroup(a)..]), multiset(b[LastGroup(b)..]), multiset(a), Last(a).exit, true);
  }

  /** `part` holds those of `all` that left at `e`, or those that did not. */
  ghost predicate IsPartOf(part: multiset<Trade>, all: multiset<Trade>, e: nat, atE: bool) {
    forall t: Trade :: part[t] == if (t.exit == e) == atE then all[t] else 0
  }

  lemma SamePart(x: multiset<Trade>, y: multiset<Trade>, all: multiset<Trade>, e: nat, atE: bool)
    requires IsPartOf(x, all, e, atE) && IsPartOf(y, all, e, atE)
    ensures x == y
  {
    assert forall t: Trade :: x[t] == y[t];
  }

  lemma IsPart(a: seq<Trade>)
    requires a != [] && SortedByExit(a)
    ensures IsPartOf(multiset(a[..LastGroup(a)]), multiset(a), Last(a).exit, false)
    ensures IsPartOf(multiset(a[LastGroup(a)..]), multiset(a), Last(a).exit, true)
  {
    hide SortedByExit, LastGroup;
    forall t: Trade
      ensures multiset(a[LastGroup(a)..])[t] == if t.exit == Last(a).exit then multiset(a)[t] else 0
      ensures multiset(a[..LastGroup(a)])[t] == if t.exit == Last(a).exit then 0 else multiset(a)[t]
    {
      CountInGroup(a, t);
    }
  }

  lemma CountInGroup(a: seq<Trade>, t: Trade)
    requires a != [] && SortedByExit(a)
    ensures multiset(a[LastGroup(a)..])[t] == if t.exit == Last(a).exit then multiset(a)[t] else 0
    ensures multiset(a[..LastGroup(a)])[t] == if t.exit == Last(a).exit then 0 else multiset(a)[t]
  {
    OutsideGroup(a, t);
    hide SortedByExit, LastGroup;
    var p, g := a[..LastGroup(a)], a[LastGroup(a)..];
    assert a == p + g;
    assert multiset(a)[t] == multiset(p)[t] + multiset(g)[t];
  }

  lemma OutsideGroup(a: seq<Trade>, t: Trade)
    requires a != [] && SortedByExit(a)
    ensures if t.exit == Last(a).exit then t !in a[..LastGroup(a)] else t !in a[LastGroup(a)..]
  {
    var k := LastGroup(a);
    if t.exit == Last(a).exit && t in a[..k] {
      var i :| 0 <= i < k && a[..k][i] == t;
      EarlierThanLastGroup(a, i);
    }
  }

  // ---- Totals do not depend on the order ----

  lemma {:induction false} TotalAppend(p: seq<Trade>, g: seq<Trade>, u: Unit)
    ensures Total(p + g, u) == Total(p, u) + Total(g, u)
  {
    if g == [] {
      assert p + g == p;
    } else {
      TotalAppend(p, Front(g), u);
      assert Front(p + g) == p + Front(g) && Last(p + g) == Last(g);
    }
  }

  lemma TotalRemove(h: seq<Trade>, i: nat, u: Unit)
    requires i < |h|
    ensures Total(h, u) == Total(h[..i] + h[i + 1..], u) + Result(h[i], u)
  {
    hide Total;
    RemoveOne(h, i);
    TotalAppend(h[..i] + [h[i]], h[i + 1..], u);
    TotalAppend(h[..i], [h[i]], u);
    TotalAppend(h[..i], h[i + 1..], u);
    TotalOfOne(h[i], u);
  }

  lemma TotalOfOne(t: Trade, u: Unit)
    ensures Total([t], u) == Result(t, u)
  {
    assert Front([t]) == [];
  }

  lemma {:induction false} TotalPermutes(g: seq<Trade>, h: seq<Trade>, u: Unit)
    requires multiset(g) == multiset(h)
    ensures |g| == |h| && Total(g, u) == Total(h, u)
  {
    assert |g| == |multiset(g)| == |multiset(h)| == |h|;
    if g == [] {
      assert h == [];
    } else {
      hide Total;
      var i := PermutationMembers(g, h, |g| - 1);
      RemoveOne(h, i);
      FrontMultiset(g);
      Cancel(multiset(Front(g)), multiset(h[..i] + h[i + 1..]), Last(g));
      TotalPermutes(Front(g), h[..i] + h[i + 1..], u);
      TotalRemove(h, i, u);
      TotalRemove(g, |g| - 1, u);
      assert g[..|g| - 1] + g[|g| - 1 + 1..] == Front(g);
    }
  }

  // ---- A settled group gives the same course in any order ----

  lemma {:induction false} FollowSameResults(c: Course, g: seq<Trade>, h: seq<Trade>, u: Unit)
    requires |g| == |h| && forall i :: 0 <= i < |g| ==> Result(g[i], u) == Result(h[i], u) && g[i].exit == h[i].exit
    ensures Follow(c, g, u) == Follow(c, h, u)
  {
    if g != [] {
      FollowSameResults(c, Front(g), Front(h), u);
      hide Follow, Result;
      FollowLast(c, g, u);
      FollowLast(c, h, u);
      NextSameResult(Follow(c, Front(g), u), Last(g), Last(h), u);
    }
  }

  lemma FollowLast(c: Course, g: seq<Trade>, u: Unit)
    requires g != []
    ensures Follow(c, g, u) == Next(Follow(c, Front(g), u), Last(g), u)
  {
  }

  lemma NextSameResult(c: Course, t: Trade, t': Trade, u: Unit)
    requires Result(t, u) == Result(t', u) && t.exit == t'.exit
    ensures Next(c, t, u) == Next(c, t', u)
  {
    hide Result;
  }

  /** The longest time to recover after `n` trades that all left at `e` and all reach a peak. */
  function RecoverAfter(track: Track, e: int, n: nat): int {
    if n == 0 then track.recover
    else
      var peakTs := if n == 1 then track.peakTs else e;
      var r := RecoverAfter(track, e, n - 1);
      if peakTs > 0 then MaxInt(r, e - peakTs) else r
  }

  /** Where every trade of a group makes up for the draw-down before it, every one reaches a peak. */
  lemma {:induction false} FollowClimb(c: Course, g: seq<Trade>, u: Unit, e: nat)
    requires g != [] && c.track.peak >= c.track.cum
    requires forall i :: 0 <= i < |g| ==> g[i].exit == e && Result(g[i], u) >= c.track.peak - c.track.cum
    ensures var cum := c.track.cum + Total(g, u);
            Follow(c, g, u) == Course(Track(cum, cum, e, RecoverAfter(c.track, e, |g|)), c.drawDowns + Zeros(|g|))
  {
    hide Result;
    FollowLast(c, g, u);
    assert Square(0.0) == 0.0;
    assert c.drawDowns + Zeros(|g| - 1) + [0.0] == c.drawDowns + Zeros(|g|);
    if |g| == 1 {
      assert Front(g) == [];
      assert c.drawDowns + Zeros(0) == c.drawDowns;
    } else {
      FollowClimb(c, Front(g), u, e);
    }
  }

  /** The group `g`, all leaving at `e`, comes out the same in any order after the course `c`. */
  predicate Orderless(c: Course, g: seq<Trade>, u: Unit, e: nat) {
    && g != [] && c.track.peak >= c.track.cum
    && (forall i :: 0 <= i < |g| ==> g[i].exit == e)
    && ((forall i :: 0 <= i < |g| ==> Result(g[i], u) == Result(g[0], u))
        || (forall i :: 0 <= i < |g| ==> Result(g[i], u) >= c.track.peak - c.track.cum))
  }

  lemma GroupSame(c: Course, g: seq<Trade>, h: seq<Trade>, u: Unit, e: nat)
    requires multiset(g) == multiset(h) && Orderless(c, g, u, e)
    ensures Follow(c, g, u) == Follow(c, h, u)
  {
    hide Follow, Result;
    TotalPermutes(g, h, u);
    forall i | 0 <= i < |h|
      ensures h[i].exit == e
      ensures exists j :: 0 <= j < |g| && g[j] == h[i]
    {
      var j := PermutationMembers(h, g, i);
    }
    if forall i :: 0 <= i < |g| ==> Result(g[i], u) == Result(g[0], u) {
      FollowSameResults(c, g, h, u);
    } else {
      FollowClimb(c, g, u, e);
      FollowClimb(c, h, u, e);
    }
  }

  lemma PeakAboveCum(s: seq<Trade>, u: Unit, recover: int)
    ensures var k, k0 := Fold(s, u, recover).track, Fold(s, u, 0).track;
            k.peak >= k.cum && k.peak == k0.peak && k.cum == k0.cum
  {
    hide Fold;
    PeakIsMaxOfPrefixes(s, u, recover);
    PeakIsMaxOfPrefixes(s, u, 0);
    MaxOfPrefixesUnique(s, u, Fold(s, u, recover).track.peak, Fold(s, u, 0).track.peak);
    assert Cumulated(s, u, |s|) == Total(s, u) by { assert s[..|s|] == s; }
  }

  lemma SettledBefore(a: seq<Trade>, u: Unit)
    requires a != [] && SortedByExit(a) && Settled(a, u)
    ensures Settled(a[..LastGroup(a)], u) && SortedByExit(a[..LastGroup(a)])
  {
    hide Depth, Result;
    var n := LastGroup(a);
    var p := a[..n];
    forall k: nat | StartsGroup(p, k) ensures GroupSettled(p, u, k) {
      assert StartsGroup(a, k) && GroupSettled(a, u, k);
      assert p[..k] == a[..k];
      DepthOf(p, a, u, k);
      assert forall i: nat :: InGroup(p, k, i) ==> InGroup(a, k, i) && p[i] == a[i];
    }
  }

  lemma SortedBefore(a: seq<Trade>, k: nat)
    requires SortedByExit(a) && k <= |a|
    ensures SortedByExit(a[..k])
  {
  }

  lemma DepthOf(p: seq<Trade>, a: seq<Trade>, u: Unit, k: nat)
    requires k <= |p| && k <= |a| && p[..k] == a[..k]
    ensures Depth(p, u, k) == Depth(a, u, k)
  {
  }

  lemma SameAfter(p: seq<Trade>, g: seq<Trade>, q: seq<Trade>, h: seq<Trade>, u: Unit, recover: int, e: nat)
    requires CourseOf(p, u, recover) == CourseOf(q, u, recover) && multiset(g) == multiset(h)
    requires Orderless(CourseOf(p, u, recover), g, u, e)
    ensures CourseOf(p + g, u, recover) == CourseOf(q + h, u, recover)
  {
    hide CourseOf, Follow, Orderless;
    CourseSplit(p, g, u, recover);
    CourseSplit(q, h, u, recover);
    GroupSame(CourseOf(p, u, recover), g, h, u, e);
  }

  lemma Split<T>(s: seq<T>, k: nat)
    requires k <= |s|
    ensures s == s[..k] + s[k..]
  {
  }

  /** Settled groups: every sorted order of the trades has the same course. */
  lemma {:induction false} SettledSame(a: seq<Trade>, b: seq<Trade>, u: Unit, recover: int)
    requires SortedByExit(a) && SortedByExit(b) && multiset(a) == multiset(b) && Settled(a, u)
    ensures CourseOf(a, u, recover) == CourseOf(b, u, recover)
    decreases |a|
  {
    assert |a| == |multiset(a)| == |multiset(b)| == |b|;
    if a == [] {
      assert b == [];
    } else {
      var k, l := LastGroup(a), LastGroup(b);
      SplitGroups(a, b);
      SettledBefore(a, u);
      SortedBefore(b, l);
      hide CourseOf, Settled, SortedByExit, LastGroup, Orderless;
      SettledSame(a[..k], b[..l], u, recover);
      LastGroupSettled(a, u, recover);
      SameAfter(a[..k], a[k..], b[..l], b[l..], u, recover, Last(a).exit);
      Split(a, k);
      Split(b, l);
    }
  }

  /** The trades from `k` on, all of one settled group. */
  lemma SliceSettled(a: seq<Trade>, u: Unit, k: nat, c: Course, e: nat)
    requires k < |a| && GroupSettled(a, u, k) && forall i :: k <= i < |a| ==> a[i].exit == e
    requires c.track.peak >= c.track.cum && c.track.peak - c.track.cum == Depth(a, u, k)
    ensures Orderless(c, a[k..], u, e)
  {
    hide Result, Depth;
    var g := a[k..];
    if forall i: nat :: InGroup(a, k, i) ==> Result(a[i], u) == Result(a[k], u) {
      forall i | 0 <= i < |g| ensures Result(g[i], u) == Result(g[0], u) {
        assert InGroup(a, k, k + i);
      }
    } else {
      forall i | 0 <= i < |g| ensures Result(g[i], u) >= Depth(a, u, k) {
        assert InGroup(a, k, k + i);
      }
    }
  }

  lemma LastGroupSettled(a: seq<Trade>, u: Unit, recover: int)
    requires a != [] && Settled(a, u)
    ensures var k := LastGroup(a);
            Orderless(CourseOf(a[..k], u, recover), a[k..], u, Last(a).exit)
  {
    hide Fold, Result, Orderless, GroupSettled;
    var k := LastGroup(a);
    PeakAboveCum(a[..k], u, recover);
    assert GroupSettled(a, u, k);
    SliceSettled(a, u, k, CourseOf(a[..k], u, recover), Last(a).exit);
  }

  // ---- A group that is not settled has two orders with different draw-downs ----

  /** What the trade after a draw-down of `depth` leaves of it, squared. */
  function Left(depth: real, result: real): real {
    if result >= depth then 0.0 else Square(depth - result)
  }

  lemma DrawDownAt(a: seq<Trade>, u: Unit, recover: int, k: nat)
    requires k < |a|
    ensures Fold(a, u, recover).drawDowns[k] == Left(Depth(a, u, k), Result(a[k], u))
  {
    hide Fold, Result, Bucket;
    var p := a[..k + 1];
    assert Front(p) == a[..k] && Last(p) == a[k];
    PeakIsMaxOfPrefixes(p, u, recover);
    DrawDownsFromPeaks(a, u, recover, k, Fold(p, u, recover).track.peak);
    TrackStep(p, u, recover);
    PeakAboveCum(a[..k], u, recover);
    assert Square(0.0) == 0.0;
  }

  lemma LeftDiffers(depth: real, x: real, y: real)
    requires x != y && (x < depth || y < depth)
    ensures Left(depth, x) != Left(depth, y)
  {
    var m, n := if x < depth then depth - x else 0.0, if y < depth then depth - y else 0.0;
    if m < n { SquareGrows(m, n); } else { SquareGrows(n, m); }
    assert Left(depth, x) == Square(m) && Left(depth, y) == Square(n);
  }

  lemma ProductPositive(x: real, y: real)
    requires x > 0.0 && y > 0.0
    ensures x * y > 0.0
  {
  }

  lemma SquareGrows(m: real, n: real)
    requires 0.0 <= m < n
    ensures Square(m) < Square(n)
  {
    assert n * n - m * m == (n - m) * (n + m);
    ProductPositive(n - m, n + m);
  }

  /** Swapping the first trade of an unsettled group with the right other one shows at its place. */
  lemma UnsettledDiffers(a: seq<Trade>, u: Unit, recover: int) returns (b: seq<Trade>)
    requires SortedByExit(a) && !Settled(a, u)
    ensures SortedByExit(b) && multiset(b) == multiset(a)
    ensures CourseOf(b, u, recover) != CourseOf(a, u, recover)
  {
    hide Fold, Result, Depth, Left;
    var k: nat :| StartsGroup(a, k) && !GroupSettled(a, u, k);
    var depth := Depth(a, u, k);
    var i: nat :| InGroup(a, k, i) && Result(a[i], u) != Result(a[k], u);
    var j: nat :| InGroup(a, k, j) && Result(a[j], u) < depth;
    var l := if Result(a[k], u) < depth then i else j;
    assert InGroup(a, k, l) && Result(a[l], u) != Result(a[k], u);
    b := SwapFirst(a, k, l);
    DepthOf(a, b, u, k);
    DrawDownAt(a, u, recover, k);
    DrawDownAt(b, u, recover, k);
    LeftDiffers(depth, Result(a[k], u), Result(a[l], u));
  }

  lemma SwapFirst(a: seq<Trade>, k: nat, l: nat) returns (b: seq<Trade>)
    requires SortedByExit(a) && k < l < |a| && a[k].exit == a[l].exit
    ensures SortedByExit(b) && multiset(b) == multiset(a) && |b| == |a|
    ensures b[..k] == a[..k] && b[k] == a[l]
  {
    b := a[k := a[l]][l := a[k]];
    SwapPermutes(a, k, l);
    assert forall i :: 0 <= i < |a| ==> b[i].exit == a[i].exit;
  }

  // ---- The exact condition ----

  /** However ties are sorted, and whatever order the strategies came in, the course is the same. */
  ghost predicate OneCourse(ts: seq<Trade>, u: Unit, recover: int) {
    forall a: seq<Trade>, b: seq<Trade> ::
      SortedPermutation(a, ts) && SortedPermutation(b, ts) ==> CourseOf(a, u, recover) == CourseOf(b, u, recover)
  }

  /** The cumulated result, its peak, the time to recover and the draw-downs are the same in every sorted
      order iff, in each group of trades with one exit time, the results are all equal or each makes up for
      the draw-down before the group. Any one sorted order tells. */
  lemma OneCourseIff(ts: seq<Trade>, a: seq<Trade>, u: Unit, recover: int)
    requires SortedPermutation(a, ts)
    ensures OneCourse(ts, u, recover) <==> Settled(a, u)
  {
    hide CourseOf, Settled, SortedByExit;
    if Settled(a, u) {
      forall x: seq<Trade>, y: seq<Trade> | SortedPermutation(x, ts) && SortedPermutation(y, ts)
        ensures CourseOf(x, u, recover) == CourseOf(y, u, recover)
      {
        SettledSame(a, x, u, recover);
        SettledSame(a, y, u, recover);
      }
    } else {
      var b := UnsettledDiffers(a, u, recover);
      assert SortedPermutation(b, ts);
    }
  }

  /** The same over strategies: added in any order and sorted in any way, they give one course iff the
      groups of all their trades are settled. */
  lemma StrategyOrderIff(xs: seq<seq<Trade>>, a: seq<Trade>, u: Unit, recover: int)
    requires SortedPermutation(a, Flatten(xs))
    ensures (forall ys: seq<seq<Trade>>, b: seq<Trade> ::
               multiset(ys) == multiset(xs) && SortedPermutation(b, Flatten(ys)) ==>
                 CourseOf(b, u, recover) == CourseOf(a, u, recover))
            <==> Settled(a, u)
  {
    hide CourseOf, Settled, SortedByExit, Flatten;
    if Settled(a, u) {
      forall ys: seq<seq<Trade>>, b: seq<Trade> | multiset(ys) == multiset(xs) && SortedPermutation(b, Flatten(ys))
        ensures CourseOf(b, u, recover) == CourseOf(a, u, recover)
      {
        FlattenPermutes(xs, ys);
        SettledSame(a, b, u, recover);
      }
    } else {
      var b := UnsettledDiffers(a, u, recover);
      assert SortedPermutation(b, Flatten(xs));
    }
  }

  /** Winning, losing and total results never depend on the order. */
  lemma WinsPermute(a: seq<Trade>, b: seq<Trade>, u: Unit, recover: int)
    requires multiset(a) == multiset(b)
    ensures Fold(a, u, recover).winning == Fold(b, u, recover).winning
    ensures Fold(a, u, recover).losing == Fold(b, u, recover).losing
    ensures Fold(a, u, recover).track.cum == Fold(b, u, recover).track.cum
  {
    hide Fold;
    WinsOf(a, u, recover);
    WinsOf(b, u, recover);
    WinsSame(a, b, u);
    TotalPermutes(a, b, u);
    PeakIsMaxOfPrefixes(a, u, recover);
    PeakIsMaxOfPrefixes(b, u, recover);
  }

  /** Sum of the positive results. */
  function Wins(s: seq<Trade>, u: Unit): real {
    if s == [] then 0.0 else Wins(Front(s), u) + (if Result(Last(s), u) > 0.0 then Result(Last(s), u) else 0.0)
  }

  lemma {:induction false} WinsOf(s: seq<Trade>, u: Unit, recover: int)
    ensures Fold(s, u, recover).winning == Wins(s, u)
    ensures Fold(s, u, recover).losing == Total(s, u) - Wins(s, u)
  {
    if s != [] {
      WinsOf(Front(s), u, recover);
      WinsStep(s, u, recover);
      hide Fold;
    }
  }

  lemma WinsStep(s: seq<Trade>, u: Unit, recover: int)
    requires s != []
    ensures var k, k', x := Fold(s, u, recover), Fold(Front(s), u, recover), Result(Last(s), u);
            k.winning == k'.winning + (if x > 0.0 then x else 0.0) && k.losing == k'.losing + (if x < 0.0 then x else 0.0)
  {
    hide Elapsed, Advance, AddToLast;
  }

  lemma {:induction false} WinsAppend(p: seq<Trade>, g: seq<Trade>, u: Unit)
    ensures Wins(p + g, u) == Wins(p, u) + Wins(g, u)
  {
    if g == [] {
      assert p + g == p;
    } else {
      WinsAppend(p, Front(g), u);
      assert Front(p + g) == p + Front(g) && Last(p + g) == Last(g);
    }
  }

  lemma WinsRemove(h: seq<Trade>, i: nat, u: Unit)
    requires i < |h|
    ensures Wins(h, u) == Wins(h[..i] + h[i + 1..], u) + Wins([h[i]], u)
  {
    hide Wins;
    RemoveOne(h, i);
    WinsAppend(h[..i] + [h[i]], h[i + 1..], u);
    WinsAppend(h[..i], [h[i]], u);
    WinsAppend(h[..i], h[i + 1..], u);
  }

  lemma {:induction false} WinsSame(g: seq<Trade>, h: seq<Trade>, u: Unit)
    requires multiset(g) == multiset(h)
    ensures Wins(g, u) == Wins(h, u)
  {
    assert |g| == |multiset(g)| == |multiset(h)| == |h|;
    if g == [] {
      assert h == [];
    } else {
      hide Wins;
      var i := PermutationMembers(g, h, |g| - 1);
      RemoveOne(h, i);
      FrontMultiset(g);
      Cancel(multiset(Front(g)), multiset(h[..i] + h[i + 1..]), Last(g));
      WinsSame(Front(g), h[..i] + h[i + 1..], u);
      WinsRemove(h, i, u);
      WinsRemove(g, |g| - 1, u);
      assert g[..|g| - 1] + g[|g| - 1 + 1..] == Front(g);
    }
  }
}
