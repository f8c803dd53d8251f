/** The longest flat period under ties: when the order of trades that left at the same time changes it. */
module TiedFlats {
  import opened Basics
  import opened TradeStatistics
  import opened StatisticsLaws
  import opened TiedTrades

  // ---- The period as a bound on the gaps ----

  /** The time from the exit of trade `i` to the entry of the next one. */
  function Gap(s: seq<Trade>, i: nat): int
    requires i + 1 < |s|
  {
    s[i + 1].entry - s[i].exit
  }

  predicate GapsWithin(s: seq<Trade>, v: int) {
    forall i: nat {:trigger Gap(s, i)} :: i + 1 < |s| ==> Gap(s, i) <= v
  }

  lemma {:induction false} LongestFlatIs(s: seq<Trade>, flat: int, v: int)
    ensures LongestFlat(s, flat) <= v <==> flat <= v && GapsWithin(s, v)
  {
    if |s| > 1 {
      LongestFlatIs(Front(s), flat, v);
      assert Gap(s, |s| - 2) == Last(s).entry - s[|s| - 2].exit;
      assert forall i: nat :: i + 1 < |Front(s)| ==> Gap(Front(s), i) == Gap(s, i);
    }
  }

  // ---- What the order inside groups can do to the gaps ----

  /** The exit of the group before, as seen from any trade of the group that starts at `k`. */
  function Since(a: seq<Trade>, k: nat, i: nat): int
    requires 0 < k < |a| && i < |a|
  {
    a[i].entry - a[k - 1].exit
  }

  /** The gap a trade makes when another of its group comes just before it. */
  function Inside(a: seq<Trade>, i: nat): int
    requires i < |a|
  {
    a[i].entry - a[i].exit
  }

  /** Another trade of the group than `i`. */
  predicate Another(a: seq<Trade>, k: nat, i: nat, j: nat)
    requires k < |a|
  {
    InGroup(a, k, i) && InGroup(a, k, j) && j != i
  }

  /** The gaps of the group, with trade `f` first, are all within `v`. */
  ghost predicate WithFirst(a: seq<Trade>, k: nat, f: nat, v: int)
    requires k < |a| && f < |a|
  {
    (k > 0 ==> Since(a, k, f) <= v) && forall j: nat :: Another(a, k, f, j) ==> Inside(a, j) <= v
  }

  /** Whatever trade of each group comes first, its gaps are within `v`. */
  ghost predicate NeverAbove(a: seq<Trade>, v: int) {
    forall k: nat, f: nat :: StartsGroup(a, k) && InGroup(a, k, f) ==> WithFirst(a, k, f, v)
  }

  /** Whatever trade of the group comes first, some gap is over `v`. */
  ghost predicate AlwaysAbove(a: seq<Trade>, k: nat, v: int)
    requires k < |a|
  {
    forall f: nat :: InGroup(a, k, f) ==> !WithFirst(a, k, f, v)
  }

  // ---- One order: its gaps, and the first trades of its groups ----

  /** The gaps of a sorted order are within a bound iff the first trade of each group allows it. */
  lemma GapsWithinIff(b: seq<Trade>, v: int)
    requires SortedByExit(b)
    ensures GapsWithin(b, v) <==> forall k: nat :: StartsGroup(b, k) ==> WithFirst(b, k, k, v)
  {
    hide WithFirst, GapsWithin, SortedByExit;
    if GapsWithin(b, v) {
      forall k: nat | StartsGroup(b, k) ensures WithFirst(b, k, k, v) {
        GapsAllow(b, k, v);
      }
    }
    if forall k: nat :: StartsGroup(b, k) ==> WithFirst(b, k, k, v) {
      FirstsAllow(b, v);
    }
  }

  lemma GapsAllow(b: seq<Trade>, k: nat, v: int)
    requires SortedByExit(b) && GapsWithin(b, v) && StartsGroup(b, k)
    ensures WithFirst(b, k, k, v)
  {
    if k > 0 {
      assert Gap(b, k - 1) == Since(b, k, k);
    }
    forall j: nat | Another(b, k, k, j) ensures Inside(b, j) <= v {
      assert b[k].exit <= b[j - 1].exit <= b[j].exit;
      assert Gap(b, j - 1) == Inside(b, j);
    }
  }

  lemma FirstsAllow(b: seq<Trade>, v: int)
    requires SortedByExit(b) && forall k: nat :: StartsGroup(b, k) ==> WithFirst(b, k, k, v)
    ensures GapsWithin(b, v)
  {
    forall i: nat | i + 1 < |b| ensures Gap(b, i) <= v {
      if b[i].exit != b[i + 1].exit {
        assert StartsGroup(b, i + 1);
        assert Gap(b, i) == Since(b, i + 1, i + 1);
      } else {
        var k := GroupOf(b, i);
        assert InGroup(b, k, i + 1) && Another(b, k, k, i + 1);
        assert Gap(b, i) == Inside(b, i + 1);
      }
    }
  }

  /** The start of the group of trade `i`. */
  lemma {:induction false} GroupOf(b: seq<Trade>, i: nat) returns (k: nat)
    requires SortedByExit(b) && i < |b|
    ensures k <= i && StartsGroup(b, k) && InGroup(b, k, i)
  {
    if i == 0 || b[i - 1].exit != b[i].exit {
      k := i;
    } else {
      k := GroupOf(b, i - 1);
    }
  }

  // ---- All orders of the same trades ----

  /** Sorted orders of the same trades have the same exits, place by place. */
  lemma {:induction false} SameExits(a: seq<Trade>, b: seq<Trade>)
    requires SortedByExit(a) && SortedByExit(b) && multiset(a) == multiset(b)
    ensures |a| == |b| && forall i :: 0 <= i < |a| ==> a[i].exit == b[i].exit
    decreases |a|
  {
    assert |a| == |multiset(a)| == |multiset(b)| == |b|;
    if a != [] {
      assert b != [];
      var k, l := LastGroup(a), LastGroup(b);
      SplitGroups(a, b);
      SameLastExit(a, b);
      SortedBefore(a, k);
      SortedBefore(b, l);
      hide SortedByExit, LastGroup;
      SameExits(a[..k], b[..l]);
      forall i | 0 <= i < |a| ensures a[i].exit == b[i].exit {
        if i < k {
          assert a[i] == a[..k][i] && b[i] == b[..l][i];
        }
      }
    }
  }

  lemma SameGroups(a: seq<Trade>, b: seq<Trade>, k: nat)
    requires |a| == |b| && forall i :: 0 <= i < |a| ==> a[i].exit == b[i].exit
    ensures StartsGroup(a, k) <==> StartsGroup(b, k)
    ensures k < |a| ==> forall i: nat :: InGroup(a, k, i) <==> InGroup(b, k, i)
  {
  }

  /** When two orders hold the same trade at `f` and `k`, the other trades match as well. */
  lemma MatchOther(a: seq<Trade>, b: seq<Trade>, f: nat, k: nat, j: nat) returns (l: nat)
    requires multiset(a) == multiset(b) && f < |a| && k < |b| && a[f] == b[k] && j < |a| && j != f
    ensures l < |b| && l != k && b[l] == a[j]
  {
    RemoveOne(a, f);
    RemoveOne(b, k);
    var x, y := a[..f] + a[f + 1..], b[..k] + b[k + 1..];
    Cancel(multiset(x), multiset(y), a[f]);
    var i := if j < f then j else j - 1;
    assert x[i] == a[j];
    var m := PermutationMembers(x, y, i);
    l := if m < k then m else m + 1;
    assert y[m] == b[l];
  }

  lemma GroupIsLater(a: seq<Trade>, k: nat, i: nat)
    requires SortedByExit(a) && StartsGroup(a, k) && i < |a| && a[i].exit == a[k].exit
    ensures InGroup(a, k, i)
  {
    assert k > 0 ==> a[k - 1].exit < a[k].exit;
  }

  /** The first trade of a group in one order is a first trade the group could have in another. */
  lemma FirstElsewhere(a: seq<Trade>, b: seq<Trade>, k: nat, v: int) returns (f: nat)
    requires SortedByExit(a) && SortedByExit(b) && multiset(a) == multiset(b) && StartsGroup(b, k)
    ensures StartsGroup(a, k) && InGroup(a, k, f)
    ensures WithFirst(a, k, f, v) <==> WithFirst(b, k, k, v)
  {
    SameExits(a, b);
    SameGroups(a, b, k);
    f := PermutationMembers(b, a, k);
    GroupIsLater(a, k, f);
    hide SortedByExit;
    assert k > 0 ==> Since(a, k, f) == Since(b, k, k);
    if WithFirst(b, k, k, v) {
      forall j: nat | Another(a, k, f, j) ensures Inside(a, j) <= v {
        var l := MatchOther(a, b, f, k, j);
        InGroupOf(b, k, l, a[j]);
        assert Another(b, k, k, l) && Inside(b, l) == Inside(a, j);
      }
    }
    if WithFirst(a, k, f, v) {
      forall j: nat | Another(b, k, k, j) ensures Inside(b, j) <= v {
        var l := MatchOther(b, a, k, f, j);
        InGroupOf(a, k, l, b[j]);
        assert Another(a, k, f, l) && Inside(a, l) == Inside(b, j);
      }
    }
  }

  lemma InGroupOf(b: seq<Trade>, k: nat, l: nat, t: Trade)
    requires SortedByExit(b) && StartsGroup(b, k) && l < |b| && b[l] == t && t.exit == b[k].exit
    ensures InGroup(b, k, l)
  {
    GroupIsLater(b, k, l);
  }

  /** Putting trade `f` of a group first, and leaving the other groups as they are. */
  lemma PutFirst(a: seq<Trade>, k: nat, f: nat, v: int) returns (b: seq<Trade>)
    requires SortedByExit(a) && StartsGroup(a, k) && InGroup(a, k, f)
    ensures SortedByExit(b) && multiset(b) == multiset(a) && |b| == |a|
    ensures forall i :: 0 <= i < |a| ==> b[i].exit == a[i].exit
    ensures WithFirst(b, k, k, v) <==> WithFirst(a, k, f, v)
    ensures forall m: nat, g: nat :: StartsGroup(a, m) && m != k && InGroup(a, m, g) ==>
                                (WithFirst(b, m, g, v) <==> WithFirst(a, m, g, v))
  {
    if f == k {
      b := a;
    } else {
      b := a[k := a[f]][f := a[k]];
      SwapPermutes(a, k, f);
      assert forall i :: 0 <= i < |a| ==> b[i].exit == a[i].exit;
      SwappedFirst(a, b, k, f, v);
      forall m: nat, g: nat | StartsGroup(a, m) && m != k && InGroup(a, m, g)
        ensures WithFirst(b, m, g, v) <==> WithFirst(a, m, g, v)
      {
        OtherGroupKept(a, b, k, f, m, g, v);
      }
    }
  }

  lemma SwappedFirst(a: seq<Trade>, b: seq<Trade>, k: nat, f: nat, v: int)
    requires StartsGroup(a, k) && InGroup(a, k, f) && f != k && b == a[k := a[f]][f := a[k]]
    ensures WithFirst(b, k, k, v) <==> WithFirst(a, k, f, v)
  {
    assert forall i :: 0 <= i < |a| ==> b[i].exit == a[i].exit;
    assert Another(b, k, k, f) && Another(a, k, f, k) && Inside(b, f) == Inside(a, k);
    assert forall j: nat :: j != k && j != f ==> (Another(b, k, k, j) <==> Another(a, k, f, j));
    assert forall j: nat :: j < |a| && j != k && j != f ==> Inside(b, j) == Inside(a, j);
    assert k > 0 ==> Since(b, k, k) == Since(a, k, f);
  }

  lemma OtherGroupKept(a: seq<Trade>, b: seq<Trade>, k: nat, f: nat, m: nat, g: nat, v: int)
    requires SortedByExit(a) && StartsGroup(a, k) && InGroup(a, k, f) && b == a[k := a[f]][f := a[k]]
    requires StartsGroup(a, m) && m != k && InGroup(a, m, g)
    ensures WithFirst(b, m, g, v) <==> WithFirst(a, m, g, v)
  {
    assert forall i :: 0 <= i < |a| ==> b[i].exit == a[i].exit;
    OtherExit(a, k, m);
    assert forall j: nat :: InGroup(a, m, j) ==> j != k && j != f && b[j] == a[j];
    assert forall j: nat :: Another(b, m, g, j) <==> Another(a, m, g, j);
    assert forall j: nat :: InGroup(a, m, j) ==> Inside(b, j) == Inside(a, j);
    assert m > 0 ==> Since(b, m, g) == Since(a, m, g);
  }

  lemma OtherExit(a: seq<Trade>, k: nat, m: nat)
    requires SortedByExit(a) && StartsGroup(a, k) && StartsGroup(a, m) && m != k
    ensures a[k].exit != a[m].exit
  {
    if k < m {
      assert a[k].exit <= a[m - 1].exit <= a[m].exit;
    } else {
      assert a[m].exit <= a[k - 1].exit <= a[k].exit;
    }
  }

  /** Some order keeps all gaps within a bound when each group has a first trade that allows it. */
  lemma {:induction false} Arrange(a: seq<Trade>, n: nat, v: int) returns (b: seq<Trade>)
    requires SortedByExit(a) && n <= |a|
    requires forall k: nat :: StartsGroup(a, k) && k < n ==> WithFirst(a, k, k, v)
    requires forall k: nat :: StartsGroup(a, k) ==> exists f: nat :: InGroup(a, k, f) && WithFirst(a, k, f, v)
    ensures SortedByExit(b) && multiset(b) == multiset(a) && GapsWithin(b, v)
    decreases |a| - n
  {
    hide WithFirst, SortedByExit, GapsWithin;
    if n == |a| {
      b := a;
      GapsWithinIff(b, v);
    } else if !StartsGroup(a, n) {
      b := Arrange(a, n + 1, v);
    } else {
      var f: nat :| InGroup(a, n, f) && WithFirst(a, n, f, v);
      var c := PutFirst(a, n, f, v);
      forall k: nat | StartsGroup(c, k)
        ensures StartsGroup(a, k) && (k < n + 1 ==> WithFirst(c, k, k, v))
        ensures exists f: nat :: InGroup(c, k, f) && WithFirst(c, k, f, v)
      {
        SameGroups(a, c, k);
        if k == n {
          assert InGroup(c, k, k) && WithFirst(c, k, k, v);
        } else {
          var g: nat :| InGroup(a, k, g) && WithFirst(a, k, g, v);
          assert InGroup(c, k, g) && WithFirst(c, k, g, v);
          assert InGroup(a, k, k);
        }
      }
      b := Arrange(c, n + 1, v);
    }
  }

  // ---- The exact condition ----

  ghost predicate OneFlat(ts: seq<Trade>, flat: int) {
    forall a: seq<Trade>, b: seq<Trade> ::
      SortedPermutation(a, ts) && SortedPermutation(b, ts) ==> LongestFlat(a, flat) == LongestFlat(b, flat)
  }

  /** Every order keeps within the bound iff no first trade of a group exceeds it. */
  lemma AllOrdersWithinIff(a: seq<Trade>, v: int)
    requires SortedByExit(a)
    ensures NeverAbove(a, v)
            <==> forall b: seq<Trade> :: SortedByExit(b) && multiset(b) == multiset(a) ==> GapsWithin(b, v)
  {
    hide WithFirst, SortedByExit, GapsWithin;
    if NeverAbove(a, v) {
      forall b: seq<Trade> | SortedByExit(b) && multiset(b) == multiset(a) ensures GapsWithin(b, v) {
        forall k: nat | StartsGroup(b, k) ensures WithFirst(b, k, k, v) {
          var f := FirstElsewhere(a, b, k, v);
        }
        GapsWithinIff(b, v);
      }
    } else {
      var k: nat, f: nat :| StartsGroup(a, k) && InGroup(a, k, f) && !WithFirst(a, k, f, v);
      var b := PutFirst(a, k, f, v);
      SameGroups(a, b, k);
      GapsWithinIff(b, v);
    }
  }

  /** No order keeps within the bound iff some group exceeds it whichever of its trades comes first. */
  lemma NoOrderWithinIff(a: seq<Trade>, v: int)
    requires SortedByExit(a)
    ensures (exists k: nat :: StartsGroup(a, k) && AlwaysAbove(a, k, v))
            <==> forall b: seq<Trade> :: SortedByExit(b) && multiset(b) == multiset(a) ==> !GapsWithin(b, v)
  {
    hide WithFirst, SortedByExit, GapsWithin;
    if k: nat :| StartsGroup(a, k) && AlwaysAbove(a, k, v) {
      forall b: seq<Trade> | SortedByExit(b) && multiset(b) == multiset(a) ensures !GapsWithin(b, v) {
        SameExits(a, b);
        SameGroups(a, b, k);
        var f := FirstElsewhere(a, b, k, v);
        GapsWithinIff(b, v);
      }
    } else {
      var b := Arrange(a, 0, v);
    }
  }

  /** The longest flat period is the same in every sorted order iff, `v` being what one order gives, no
      first trade of a group could make it longer, and the period was already `v` or some group makes it
      at least `v` whichever of its trades comes first. */
  lemma OneFlatIff(ts: seq<Trade>, a: seq<Trade>, flat: int)
    requires SortedPermutation(a, ts)
    ensures var v := LongestFlat(a, flat);
            OneFlat(ts, flat)
            <==> NeverAbove(a, v) && (flat == v || exists k: nat :: StartsGroup(a, k) && AlwaysAbove(a, k, v - 1))
  {
    hide NeverAbove, AlwaysAbove, SortedByExit, GapsWithin, LongestFlat, StartsGroup;
    var v := LongestFlat(a, flat);
    LongestFlatIs(a, flat, v);
    AllOrdersWithinIff(a, v);
    NoOrderWithinIff(a, v - 1);
    forall b: seq<Trade>
      ensures LongestFlat(b, flat) <= v <==> flat <= v && GapsWithin(b, v)
      ensures LongestFlat(b, flat) <= v - 1 <==> flat <= v - 1 && GapsWithin(b, v - 1)
    {
      LongestFlatIs(b, flat, v);
      LongestFlatIs(b, flat, v - 1);
    }
    if OneFlat(ts, flat) {
      forall b: seq<Trade> | SortedByExit(b) && multiset(b) == multiset(a)
        ensures GapsWithin(b, v) && (flat != v ==> !GapsWithin(b, v - 1))
      {
        assert SortedPermutation(b, ts);
        assert LongestFlat(b, flat) == v;
      }
    }
  }
}
