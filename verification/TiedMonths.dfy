/** The number of monthly buckets under ties: when the order of trades that left at the same time changes it.
    Two tied trades next to each other can change places without a change of the count, whatever trades can
    come just before and after them. */
module TiedMonths {
  import opened Basics
  import opened TradeStatistics
  import opened StatisticsLaws
  import opened TiedTrades
  import opened TiedFlats

  // ---- The buckets opened along a stretch of trades ----

  /** The buckets that the pass opens between two trades, none without one of them. */
  function Opens(x: Option<Trade>, y: Option<Trade>): nat {
    if x.None? || y.None? then 0 else ElapsedMonths(x.value.entry, y.value.entry)
  }

  function At(a: seq<Trade>, i: int): Option<Trade> {
    if 0 <= i < |a| then Some(a[i]) else None
  }

  /** The buckets opened at the trades from `lo` on, before `hi`. */
  function Opened(a: seq<Trade>, lo: int, hi: int): nat
    decreases hi - lo
  {
    if lo >= hi then 0 else Opens(At(a, hi - 2), At(a, hi - 1)) + Opened(a, lo, hi - 1)
  }

  lemma {:induction false} BucketIsOpened(a: seq<Trade>)
    ensures Bucket(a) == Opened(a, 0, |a|)
  {
    hide ElapsedMonths;
    if a != [] {
      BucketIsOpened(Front(a));
      OpenedAgree(a, Front(a), 0, |a| - 1);
    }
  }

  lemma {:induction false} OpenedAgree(a: seq<Trade>, b: seq<Trade>, lo: int, hi: int)
    requires forall i :: lo - 1 <= i < hi ==> At(a, i) == At(b, i)
    ensures Opened(a, lo, hi) == Opened(b, lo, hi)
    decreases hi - lo
  {
    hide At;
    if lo < hi {
      assert At(a, hi - 2) == At(b, hi - 2);
      OpenedAgree(a, b, lo, hi - 1);
    }
  }

  lemma {:induction false} OpenedSplit(a: seq<Trade>, lo: int, mid: int, hi: int)
    requires lo <= mid <= hi
    ensures Opened(a, lo, hi) == Opened(a, lo, mid) + Opened(a, mid, hi)
    decreases hi - mid
  {
    hide At, Opens;
    if mid < hi { OpenedSplit(a, lo, mid, hi - 1); }
  }

  /** The buckets opened from trade `p` over `i` and `j` to `n`. */
  function Along(a: seq<Trade>, p: int, i: int, j: int, n: int): nat {
    Opens(At(a, p), At(a, i)) + Opens(At(a, i), At(a, j)) + Opens(At(a, j), At(a, n))
  }

  lemma OpenedAround(a: seq<Trade>, m: nat)
    requires m + 1 < |a|
    ensures Opened(a, 0, |a|) == Opened(a, 0, m) + Along(a, m - 1, m, m + 1, m + 2) + Opened(a, m + 3, |a|)
  {
    hide At, Opens;
    OpenedSplit(a, 0, m, |a|);
    if m + 3 <= |a| {
      OpenedSplit(a, m, m + 3, |a|);
    } else {
      assert Opens(At(a, m + 1), At(a, m + 2)) == 0 by { NothingAfter(a, m + 1); }
    }
    ThreeOpened(a, m);
    TwoOpened(a, m);
  }

  lemma NothingAfter(a: seq<Trade>, i: int)
    requires i + 1 >= |a|
    ensures Opens(At(a, i), At(a, i + 1)) == 0
  {
  }

  lemma TwoOpened(a: seq<Trade>, m: nat)
    ensures Opened(a, m, m + 2) == Opens(At(a, m - 1), At(a, m)) + Opens(At(a, m), At(a, m + 1))
  {
    hide At, Opens;
    assert Opened(a, m, m + 1) == Opens(At(a, m - 1), At(a, m)) + Opened(a, m, m);
  }

  lemma ThreeOpened(a: seq<Trade>, m: nat)
    ensures Opened(a, m, m + 3) == Along(a, m - 1, m, m + 1, m + 2)
  {
    hide At, Opens;
    TwoOpened(a, m);
  }

  // ---- Which trades can come next to one another ----

  predicate Tied(a: seq<Trade>, i: int, j: int) {
    0 <= i < |a| && 0 <= j < |a| && a[i].exit == a[j].exit
  }

  /** Some sorted order has trade `p` just before trade `i`, or `i` first when `p` is -1. */
  predicate CanPrecede(a: seq<Trade>, p: int, i: int)
    requires 0 <= i < |a| && -1 <= p < |a|
  {
    Tied(a, p, i)
    || ((p >= 0 ==> a[p].exit < a[i].exit)
        && forall l :: 0 <= l < |a| ==> a[l].exit >= a[i].exit || (p >= 0 && a[l].exit <= a[p].exit))
  }

  /** Some sorted order has trade `n` just after trade `j`, or `j` last when `n` is the length. */
  predicate CanFollow(a: seq<Trade>, j: int, n: int)
    requires 0 <= j < |a| && 0 <= n <= |a|
  {
    Tied(a, j, n)
    || ((n < |a| ==> a[j].exit < a[n].exit)
        && forall l :: 0 <= l < |a| ==> a[l].exit <= a[j].exit || (n < |a| && a[l].exit >= a[n].exit))
  }

  predicate OnlyTwo(a: seq<Trade>, i: int, j: int) {
    forall l :: 0 <= l < |a| && Tied(a, l, i) ==> l == i || l == j
  }

  /** Some sorted order has `p`, `i`, `j` and `n` in a row, `i` and `j` being tied. */
  predicate InARow(a: seq<Trade>, p: int, i: int, j: int, n: int) {
    && Tied(a, i, j) && i != j && -1 <= p < |a| && 0 <= n <= |a| && p != i && p != j && n != i && n != j && p != n
    && CanPrecede(a, p, i) && CanFollow(a, j, n)
    && (Tied(a, p, i) || Tied(a, n, i) || OnlyTwo(a, i, j))
  }

  predicate Steady(a: seq<Trade>, p: int, i: int, j: int, n: int) {
    InARow(a, p, i, j, n) ==> Along(a, p, i, j, n) == Along(a, p, j, i, n)
  }

  /** Tied trades can change places anywhere. */
  ghost predicate AllSteady(a: seq<Trade>) {
    forall p: int, i: int, j: int, n: int :: Steady(a, p, i, j, n)
  }

  // ---- Swapping two tied trades ----

  function Swap(a: seq<Trade>, f: nat, t: nat): (b: seq<Trade>)
    requires f < |a| && t < |a|
    ensures |b| == |a|
  {
    a[f := a[t]][t := a[f]]
  }

  /** Where the trade at `i` is after the swap. */
  function Moved(f: int, t: int, i: int): int {
    if i == f then t else if i == t then f else i
  }

  lemma SwapSorts(a: seq<Trade>, f: nat, t: nat)
    requires SortedByExit(a) && Tied(a, f, t)
    ensures var b := Swap(a, f, t);
            SortedByExit(b) && multiset(b) == multiset(a) && forall i :: 0 <= i < |a| ==> b[i].exit == a[i].exit
  {
    var b := Swap(a, f, t);
    assert forall i :: 0 <= i < |a| ==> b[i].exit == a[i].exit;
    if f != t { SwapPermutes(a, f, t); } else { assert b == a; }
  }

  lemma SwapTied(a: seq<Trade>, f: nat, t: nat, i: int, j: int)
    requires Tied(a, f, t)
    ensures Tied(Swap(a, f, t), Moved(f, t, i), Moved(f, t, j)) <==> Tied(a, i, j)
    ensures At(Swap(a, f, t), Moved(f, t, i)) == At(a, i)
  {
  }

  lemma SwapOnlyTwo(a: seq<Trade>, f: nat, t: nat, i: int, j: int)
    requires Tied(a, f, t) && OnlyTwo(a, i, j)
    ensures OnlyTwo(Swap(a, f, t), Moved(f, t, i), Moved(f, t, j))
  {
    forall l | Tied(Swap(a, f, t), l, Moved(f, t, i)) ensures l == Moved(f, t, i) || l == Moved(f, t, j) {
      SwapTied(a, f, t, Moved(f, t, l), i);
      assert Tied(a, Moved(f, t, l), i);
    }
  }

  lemma SwapNextTo(a: seq<Trade>, f: nat, t: nat, p: int, i: int, n: int)
    requires Tied(a, f, t) && 0 <= i < |a| && -1 <= p < |a| && 0 <= n <= |a|
    ensures var b := Swap(a, f, t);
            && (CanPrecede(a, p, i) ==> CanPrecede(b, Moved(f, t, p), Moved(f, t, i)))
            && (CanFollow(a, i, n) ==> CanFollow(b, Moved(f, t, i), Moved(f, t, n)))
  {
    var b := Swap(a, f, t);
    assert forall l :: 0 <= l < |a| ==> b[l].exit == a[l].exit;
  }

  /** Four trades that can be in a row still can. */
  lemma SwapInARow(a: seq<Trade>, f: nat, t: nat, p: int, i: int, j: int, n: int)
    requires Tied(a, f, t) && InARow(a, p, i, j, n)
    ensures InARow(Swap(a, f, t), Moved(f, t, p), Moved(f, t, i), Moved(f, t, j), Moved(f, t, n))
  {
    SwapTied(a, f, t, i, j);
    SwapTied(a, f, t, p, i);
    SwapTied(a, f, t, n, i);
    SwapNextTo(a, f, t, p, i, n);
    SwapNextTo(a, f, t, p, j, n);
    if OnlyTwo(a, i, j) { SwapOnlyTwo(a, f, t, i, j); }
    hide Swap, Tied, OnlyTwo, CanPrecede, CanFollow;
  }

  lemma SwapAlong(a: seq<Trade>, f: nat, t: nat, p: int, i: int, j: int, n: int)
    requires Tied(a, f, t)
    ensures Along(Swap(a, f, t), Moved(f, t, p), Moved(f, t, i), Moved(f, t, j), Moved(f, t, n)) == Along(a, p, i, j, n)
  {
    SwapTied(a, f, t, p, p);
    SwapTied(a, f, t, i, i);
    SwapTied(a, f, t, j, j);
    SwapTied(a, f, t, n, n);
    hide Swap, At, Tied, Moved;
  }

  lemma SwapSteady(a: seq<Trade>, f: nat, t: nat)
    requires Tied(a, f, t) && AllSteady(a)
    ensures AllSteady(Swap(a, f, t))
  {
    var b := Swap(a, f, t);
    hide InARow, Along;
    forall p: int, i: int, j: int, n: int ensures Steady(b, p, i, j, n) {
      var p', i', j', n' := Moved(f, t, p), Moved(f, t, i), Moved(f, t, j), Moved(f, t, n);
      assert Steady(a, p', i', j', n');
      if InARow(b, p, i, j, n) {
        SwapBack(a, f, t);
        SwapInARow(b, f, t, p, i, j, n);
        SwapAlong(b, f, t, p, i, j, n);
        SwapAlong(b, f, t, p, j, i, n);
      }
    }
  }

  lemma SwapBack(a: seq<Trade>, f: nat, t: nat)
    requires Tied(a, f, t)
    ensures Tied(Swap(a, f, t), f, t) && Swap(Swap(a, f, t), f, t) == a
  {
  }

  // ---- Swapping neighbours ----

  lemma NeighboursAt(a: seq<Trade>, m: nat)
    requires m + 1 < |a|
    ensures var b := Swap(a, m, m + 1);
            At(b, m) == At(a, m + 1) && At(b, m + 1) == At(a, m)
            && forall i: int :: i != m && i != m + 1 ==> At(b, i) == At(a, i)
  {
  }

  /** Two neighbours change places: the count changes by what opens along them. */
  lemma NeighboursCount(a: seq<Trade>, m: nat)
    requires m + 1 < |a|
    ensures var b := Swap(a, m, m + 1);
            Bucket(b) - Bucket(a) == Along(a, m - 1, m + 1, m, m + 2) - Along(a, m - 1, m, m + 1, m + 2)
  {
    hide Opened, At, Opens, Bucket, Swap;
    var b := Swap(a, m, m + 1);
    NeighboursAt(a, m);
    BucketIsOpened(a);
    BucketIsOpened(b);
    OpenedAround(a, m);
    OpenedAround(b, m);
    OpenedAgree(a, b, 0, m);
    OpenedAgree(a, b, m + 3, |a|);
  }

  lemma NeighboursInARow(a: seq<Trade>, m: nat)
    requires SortedByExit(a) && m + 1 < |a| && Tied(a, m, m + 1)
    ensures InARow(a, m - 1, m, m + 1, m + 2)
  {
    assert CanPrecede(a, m - 1, m);
    assert CanFollow(a, m + 1, m + 2);
  }

  // ---- Steady trades: one count ----

  lemma SteadyNeighbours(a: seq<Trade>, m: nat)
    requires SortedByExit(a) && AllSteady(a) && m + 1 < |a| && Tied(a, m, m + 1)
    ensures Along(a, m - 1, m, m + 1, m + 2) == Along(a, m - 1, m + 1, m, m + 2)
  {
    NeighboursInARow(a, m);
    hide InARow, Along;
    assert Steady(a, m - 1, m, m + 1, m + 2);
  }

  lemma StepDown(a: seq<Trade>, m: nat)
    requires SortedByExit(a) && AllSteady(a) && m + 1 < |a| && Tied(a, m, m + 1)
    ensures var b := Swap(a, m, m + 1);
            SortedByExit(b) && multiset(b) == multiset(a) && AllSteady(b) && Bucket(b) == Bucket(a)
  {
    hide Along, Bucket, Swap, SortedByExit, AllSteady, Tied;
    SteadyNeighbours(a, m);
    NeighboursCount(a, m);
    SwapSorts(a, m, m + 1);
    SwapSteady(a, m, m + 1);
  }

  lemma Lowered(a: seq<Trade>, n: nat, f: nat)
    requires SortedByExit(a) && n < f < |a| && a[n].exit == a[f].exit
    ensures Tied(a, f - 1, f)
    ensures var c := Swap(a, f - 1, f);
            c[f - 1] == a[f] && c[..n] == a[..n] && c[n].exit == c[f - 1].exit
  {
    assert a[n].exit <= a[f - 1].exit <= a[f].exit;
  }

  /** Trade `f` goes down to place `n`, one neighbour after the other. */
  lemma {:induction false} Sink(a: seq<Trade>, n: nat, f: nat) returns (b: seq<Trade>)
    requires SortedByExit(a) && AllSteady(a) && n <= f < |a| && a[n].exit == a[f].exit
    ensures SortedByExit(b) && multiset(b) == multiset(a) && AllSteady(b) && Bucket(b) == Bucket(a) && |b| == |a|
    ensures b[..n] == a[..n] && b[n] == a[f]
    decreases f
  {
    hide Bucket, AllSteady, SortedByExit, Swap, Tied;
    if n == f {
      b := a;
    } else {
      Lowered(a, n, f);
      StepDown(a, f - 1);
      b := Sink(Swap(a, f - 1, f), n, f - 1);
    }
  }

  lemma PrefixRest(a: seq<Trade>, b: seq<Trade>, n: nat) returns (f: nat)
    requires n < |a| && n < |b| && a[..n] == b[..n] && multiset(a) == multiset(b)
    ensures n <= f < |a| && a[f] == b[n]
  {
    var x, y := a[n..], b[n..];
    assert a == a[..n] + x && b == b[..n] + y;
    SameRest(multiset(a[..n]), multiset(x), multiset(y));
    assert multiset(x) == multiset(y);
    var i := PermutationMembers(y, x, 0);
    f := n + i;
  }

  lemma SameRest(p: multiset<Trade>, x: multiset<Trade>, y: multiset<Trade>)
    requires p + x == p + y
    ensures x == y
  {
    assert x == (p + x) - p && y == (p + y) - p;
  }

  lemma {:induction false} SteadySame(a: seq<Trade>, b: seq<Trade>, n: nat)
    requires SortedByExit(a) && SortedByExit(b) && multiset(a) == multiset(b) && AllSteady(a)
    requires n <= |a| && n <= |b| && a[..n] == b[..n]
    ensures Bucket(a) == Bucket(b)
    decreases |a| - n
  {
    hide Bucket, SortedByExit, AllSteady;
    SameExits(a, b);
    if n == |a| {
      assert a == a[..n] && b == b[..n];
    } else {
      var f := PrefixRest(a, b, n);
      var c := Sink(a, n, f);
      OneMore(c, b, n);
      SteadySame(c, b, n + 1);
    }
  }

  lemma OneMore(c: seq<Trade>, b: seq<Trade>, n: nat)
    requires n < |c| && n < |b| && c[..n] == b[..n] && c[n] == b[n]
    ensures c[..n + 1] == b[..n + 1]
  {
    assert c[..n + 1] == c[..n] + [c[n]] && b[..n + 1] == b[..n] + [b[n]];
  }

  // ---- A pair that is not steady: two counts ----

  /** The end of the group of trade `i`. */
  lemma {:induction false} GroupEnd(a: seq<Trade>, i: nat) returns (e: nat)
    requires SortedByExit(a) && i < |a|
    ensures i < e <= |a| && a[e - 1].exit == a[i].exit && (e < |a| ==> a[i].exit < a[e].exit)
    decreases |a| - i
  {
    if i + 1 == |a| || a[i].exit != a[i + 1].exit {
      e := i + 1;
    } else {
      e := GroupEnd(a, i + 1);
    }
  }

  /** A place for `i` and `j` side by side, with places for `p` and `n` around them. */
  predicate Slot(a: seq<Trade>, p: int, i: int, n: int, m: int) {
    && 0 <= m && m + 1 < |a| && Tied(a, m, i) && Tied(a, m + 1, i)
    && (p == m - 1 == -1 || Tied(a, p, m - 1)) && (n == m + 2 == |a| || Tied(a, n, m + 2))
  }

  lemma FindSlot(a: seq<Trade>, p: int, i: int, j: int, n: int) returns (m: nat)
    requires SortedByExit(a) && InARow(a, p, i, j, n)
    ensures Slot(a, p, i, n, m)
  {
    var k := GroupOf(a, i);
    var e := GroupEnd(a, i);
    Between(a, k, e, i);
    if !Tied(a, p, i) { BeforeGroup(a, p, i, k); }
    if !Tied(a, n, i) { AfterGroup(a, j, n, e); }
    if !Tied(a, p, i) && !Tied(a, n, i) { AllInGroup(a, k, e, i, j); }
    hide SortedByExit, CanPrecede, CanFollow, OnlyTwo;
    m := ChooseSlot(a, p, i, j, n, k, e);
  }

  lemma ChooseSlot(a: seq<Trade>, p: int, i: int, j: int, n: int, k: nat, e: nat) returns (m: nat)
    requires e <= |a| && Tied(a, i, j) && i != j && p != i && p != j && n != i && n != j && p != n
    requires forall l :: 0 <= l < |a| ==> (a[l].exit == a[i].exit <==> k <= l < e)
    requires Tied(a, p, i) || p == k - 1 == -1 || Tied(a, p, k - 1)
    requires Tied(a, n, i) || n == e == |a| || Tied(a, n, e)
    requires Tied(a, p, i) || Tied(a, n, i) || e == k + 2
    ensures Slot(a, p, i, n, m)
  {
    assert k <= i < e && k <= j < e;
    if Tied(a, p, i) {
      assert k <= p < e;
      m := if Tied(a, n, i) then k + 1 else e - 2;
    } else {
      m := k;
    }
  }

  lemma Between(a: seq<Trade>, k: nat, e: nat, i: nat)
    requires SortedByExit(a) && StartsGroup(a, k) && InGroup(a, k, i) && i < e <= |a|
    requires a[e - 1].exit == a[i].exit && (e < |a| ==> a[i].exit < a[e].exit)
    ensures forall l :: 0 <= l < |a| ==> (a[l].exit == a[i].exit <==> k <= l < e)
  {
    assert k > 0 ==> a[k - 1].exit < a[k].exit;
  }

  lemma AllInGroup(a: seq<Trade>, k: nat, e: nat, i: nat, j: nat)
    requires k <= i < e <= |a| && k <= j < e && OnlyTwo(a, i, j) && i != j
    requires forall l :: 0 <= l < |a| ==> (a[l].exit == a[i].exit <==> k <= l < e)
    ensures e == k + 2
  {
    assert Tied(a, k, i) && Tied(a, e - 1, i);
    assert k + 2 < e ==> Tied(a, k + 1, i);
  }

  lemma BeforeGroup(a: seq<Trade>, p: int, i: nat, k: nat)
    requires SortedByExit(a) && i < |a| && -1 <= p < |a| && CanPrecede(a, p, i) && !Tied(a, p, i)
    requires forall l :: 0 <= l < |a| && a[l].exit == a[i].exit ==> k <= l
    requires k <= i && a[k].exit == a[i].exit
    ensures p == k - 1 == -1 || Tied(a, p, k - 1)
  {
    if k > 0 {
      assert a[k - 1].exit <= a[k].exit && a[k - 1].exit != a[i].exit;
      assert p >= 0 && p < k;
    }
  }

  lemma AfterGroup(a: seq<Trade>, j: nat, n: int, e: nat)
    requires SortedByExit(a) && j < e <= |a| && 0 <= n <= |a| && CanFollow(a, j, n) && !Tied(a, j, n)
    requires forall l :: 0 <= l < |a| && a[l].exit == a[j].exit ==> l < e
    requires a[e - 1].exit == a[j].exit
    ensures n == e == |a| || Tied(a, n, e)
  {
    if e < |a| {
      assert a[e - 1].exit <= a[e].exit && a[e].exit != a[j].exit;
      assert n < |a| && n >= e;
    }
  }

  /** Four trades that can be in a row, whose middle pair is not steady, and places for them. */
  predicate Unsteady(a: seq<Trade>, p: int, i: int, j: int, n: int, m: int) {
    && SortedByExit(a) && InARow(a, p, i, j, n) && Slot(a, p, i, n, m)
    && Along(a, p, i, j, n) != Along(a, p, j, i, n)
  }

  lemma SwapSlot(a: seq<Trade>, f: nat, t: nat, p: int, i: int, n: int, m: int)
    requires Tied(a, f, t) && Slot(a, p, i, n, m)
    ensures Slot(Swap(a, f, t), Moved(f, t, p), Moved(f, t, i), Moved(f, t, n), m)
  {
    assert forall l :: 0 <= l < |a| ==> Swap(a, f, t)[l].exit == a[l].exit;
  }

  /** One of them moves to a place of its group. */
  lemma Put(a: seq<Trade>, p: int, i: int, j: int, n: int, m: int, f: nat, t: nat) returns (b: seq<Trade>)
    requires Unsteady(a, p, i, j, n, m) && Tied(a, f, t)
    ensures multiset(b) == multiset(a)
    ensures Unsteady(b, Moved(f, t, p), Moved(f, t, i), Moved(f, t, j), Moved(f, t, n), m)
  {
    b := Swap(a, f, t);
    hide InARow, Along, Slot, Swap, Tied, SortedByExit;
    SwapSorts(a, f, t);
    SwapInARow(a, f, t, p, i, j, n);
    SwapAlong(a, f, t, p, i, j, n);
    SwapAlong(a, f, t, p, j, i, n);
    SwapSlot(a, f, t, p, i, n, m);
  }

  lemma SlotTied(a: seq<Trade>, p: int, i: int, j: int, n: int, m: int)
    requires Unsteady(a, p, i, j, n, m)
    ensures m >= 0 && m + 1 < |a| && Tied(a, i, m) && Tied(a, j, m + 1) && i >= 0 && j >= 0
    ensures p != m - 1 ==> p >= 0 && m >= 1 && Tied(a, p, m - 1)
    ensures n != m + 2 ==> n >= 0 && Tied(a, n, m + 2)
    ensures p != i && p != j && n != i && n != j && p != n && i != j
  {
  }

  lemma PairInPlace(a: seq<Trade>, p: int, i: int, j: int, n: int, m: int) returns (b: seq<Trade>, p2: int, n2: int)
    requires Unsteady(a, p, i, j, n, m)
    ensures multiset(b) == multiset(a) && m >= 0 && Unsteady(b, p2, m, m + 1, n2, m)
  {
    hide Unsteady, Tied;
    SlotTied(a, p, i, j, n, m);
    b := Put(a, p, i, j, n, m, i, m);
    var p1, j1, n1 := Moved(i, m, p), Moved(i, m, j), Moved(i, m, n);
    SlotTied(b, p1, m, j1, n1, m);
    b := Put(b, p1, m, j1, n1, m, j1, m + 1);
    p2, n2 := Moved(j1, m + 1, p1), Moved(j1, m + 1, n1);
  }

  lemma InPlace(a: seq<Trade>, p: int, i: int, j: int, n: int, m: int) returns (b: seq<Trade>)
    requires Unsteady(a, p, i, j, n, m)
    ensures multiset(b) == multiset(a) && m >= 0 && Unsteady(b, m - 1, m, m + 1, m + 2, m)
  {
    hide Unsteady, Tied;
    var p2, n2;
    b, p2, n2 := PairInPlace(a, p, i, j, n, m);
    SlotTied(b, p2, m, m + 1, n2, m);
    if p2 != m - 1 {
      b := Put(b, p2, m, m + 1, n2, m, p2, m - 1);
      n2 := Moved(p2, m - 1, n2);
      SlotTied(b, m - 1, m, m + 1, n2, m);
    }
    if n2 != m + 2 {
      b := Put(b, m - 1, m, m + 1, n2, m, n2, m + 2);
    }
  }

  // ---- The exact condition ----

  /** Every sorted order of the trades has as many monthly buckets. */
  ghost predicate OneCount(ts: seq<Trade>) {
    forall a: seq<Trade>, b: seq<Trade> :: SortedPermutation(a, ts) && SortedPermutation(b, ts) ==> Bucket(a) == Bucket(b)
  }

  lemma UnsteadyInPlace(a: seq<Trade>, p: int, i: int, j: int, n: int) returns (b: seq<Trade>, m: nat)
    requires SortedByExit(a) && !Steady(a, p, i, j, n)
    ensures multiset(b) == multiset(a) && Unsteady(b, m - 1, m, m + 1, m + 2, m)
  {
    hide InARow, Along, Slot, SortedByExit;
    m := FindSlot(a, p, i, j, n);
    b := InPlace(a, p, i, j, n, m);
  }

  lemma PlaceFacts(b: seq<Trade>, m: nat)
    requires Unsteady(b, m - 1, m, m + 1, m + 2, m)
    ensures SortedByExit(b) && m + 1 < |b| && Tied(b, m, m + 1)
    ensures Along(b, m - 1, m, m + 1, m + 2) != Along(b, m - 1, m + 1, m, m + 2)
  {
    hide Along, SortedByExit;
  }

  lemma UnsteadyDiffers(a: seq<Trade>, p: int, i: int, j: int, n: int) returns (b: seq<Trade>, c: seq<Trade>)
    requires SortedByExit(a) && !Steady(a, p, i, j, n)
    ensures SortedByExit(b) && SortedByExit(c) && multiset(b) == multiset(c) == multiset(a) && Bucket(b) != Bucket(c)
  {
    hide Unsteady, Steady, Along, Swap, Bucket, SortedByExit, Tied;
    var m: nat;
    b, m := UnsteadyInPlace(a, p, i, j, n);
    PlaceFacts(b, m);
    c := Swap(b, m, m + 1);
    NeighboursCount(b, m);
    SwapSorts(b, m, m + 1);
  }

  /** The number of monthly buckets is the same in every sorted order iff any two tied trades can change places
      between any trades that can come just before and after them. Any one sorted order tells. */
  lemma OneCountIff(ts: seq<Trade>, a: seq<Trade>)
    requires SortedPermutation(a, ts)
    ensures OneCount(ts) <==> AllSteady(a)
  {
    hide Steady, Bucket, SortedByExit;
    if AllSteady(a) {
      forall x: seq<Trade>, y: seq<Trade> | SortedPermutation(x, ts) && SortedPermutation(y, ts)
        ensures Bucket(x) == Bucket(y)
      {
        SteadySame(a, x, 0);
        SteadySame(a, y, 0);
      }
    } else {
      var p: int, i: int, j: int, n: int :| !Steady(a, p, i, j, n);
      var b, c := UnsteadyDiffers(a, p, i, j, n);
      assert SortedPermutation(b, ts) && SortedPermutation(c, ts);
    }
  }

  /** The reported months of either unit are as many as the buckets, whatever their sums. */
  lemma OneNumberOfMonthsIff(ts: seq<Trade>, a: seq<Trade>, u: Unit, recover: int)
    requires SortedPermutation(a, ts)
    ensures AllSteady(a)
            <==> forall b: seq<Trade> :: SortedPermutation(b, ts) ==> |Fold(b, u, recover).months| == |Fold(a, u, recover).months|
  {
    hide Fold, Bucket, AllSteady, SortedPermutation;
    OneCountIff(ts, a);
    forall b: seq<Trade> ensures |Fold(b, u, recover).months| == Bucket(b) + 1 {
      var k := Fold(b, u, recover);
    }
  }
}
