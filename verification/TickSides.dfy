/** The sixth stored field: reading gives every record of a chunk the side of the first one. For which
    files do the delivered ticks keep their own sides? */
module TickSides {
  import opened Basics
  import opened TickStreaming
  import opened TickFiltering
  import opened TickCuts

  /** Every record of a file that is in the range has the side of the first of its chunk. */
  predicate ChunksAgree(n: nat, rs: seq<Record>, lo: real, hi: real)
    requires n >= 1
  {
    forall i :: 0 <= i < |rs| && Within(rs[i], lo, hi) ==> rs[i].side == rs[ChunkStart(n, i)].side
  }

  /** So it is in each walked month. */
  predicate SidesAgree(files: Files, to: DateTime, n: nat, cur: DateTime, lastTs: real, lo: real, hi: real)
    requires n >= 1
    decreases MonthsLeft(cur, to)
  {
    Before(cur, to) ==>
      var rs := if Lookup(files, cur).Some? then Lookup(files, cur).value.records else [];
      var good := rs[..GoodPrefix(lastTs, rs)];
      ChunksAgree(n, good, lo, hi)
      && (Follows(files, cur, to) ==> SidesAgree(files, to, n, NextMonth(cur), LastTs(lastTs, good), lo, hi))
  }

  // ---- Two sequences that differ in the sides only ----

  predicate SameInRange(xs: seq<Record>, ys: seq<Record>, lo: real, hi: real)
    requires |xs| == |ys|
  {
    forall i :: 0 <= i < |ys| && Within(ys[i], lo, hi) ==> xs[i] == ys[i]
  }

  predicate SameTimes(xs: seq<Record>, ys: seq<Record>)
    requires |xs| == |ys|
  {
    forall i :: 0 <= i < |ys| ==> xs[i].timestamp == ys[i].timestamp
  }

  lemma SameHead(xs: seq<Record>, ys: seq<Record>, lo: real, hi: real)
    requires |xs| == |ys| > 0 && SameTimes(xs, ys)
    ensures SameTimes(xs[1..], ys[1..]) && |Pick(xs[0], lo, hi)| == |Pick(ys[0], lo, hi)|
    ensures SameInRange(xs, ys, lo, hi) <==> (Pick(xs[0], lo, hi) == Pick(ys[0], lo, hi) && SameInRange(xs[1..], ys[1..], lo, hi))
  {
    if Pick(xs[0], lo, hi) == Pick(ys[0], lo, hi) && SameInRange(xs[1..], ys[1..], lo, hi) {
      forall i | 0 <= i < |ys| && Within(ys[i], lo, hi) ensures xs[i] == ys[i] {
        if i == 0 {
          assert Pick(xs[0], lo, hi)[0] == Pick(ys[0], lo, hi)[0];
        } else {
          assert xs[i] == xs[1..][i - 1] && ys[i] == ys[1..][i - 1];
        }
      }
    }
  }

  lemma SplitEqual(a: seq<Record>, b: seq<Record>, c: seq<Record>, d: seq<Record>)
    requires |a| == |c|
    ensures a + b == c + d <==> a == c && b == d
  {
    if a + b == c + d {
      assert a == (a + b)[..|a|] && b == (a + b)[|a|..] && c == (c + d)[..|a|] && d == (c + d)[|a|..];
    }
  }

  /** The filter delivers the same records from both iff they agree wherever they are in the range. */
  lemma {:induction false} FilterSameIff(xs: seq<Record>, ys: seq<Record>, lo: real, hi: real)
    requires |xs| == |ys| && SameTimes(xs, ys)
    ensures |Filter(xs, lo, hi)| == |Filter(ys, lo, hi)|
    ensures Filter(xs, lo, hi) == Filter(ys, lo, hi) <==> SameInRange(xs, ys, lo, hi)
  {
    if xs != [] {
      hide Pick, SameTimes, SameInRange;
      SameHead(xs, ys, lo, hi);
      FilterSameIff(xs[1..], ys[1..], lo, hi);
      SplitEqual(Pick(xs[0], lo, hi), Filter(xs[1..], lo, hi), Pick(ys[0], lo, hi), Filter(ys[1..], lo, hi));
    }
  }

  lemma FileSidesIff(n: nat, rs: seq<Record>, lo: real, hi: real)
    requires n >= 1
    ensures |Filter(Sided(n, rs), lo, hi)| == |Filter(rs, lo, hi)|
    ensures Filter(Sided(n, rs), lo, hi) == Filter(rs, lo, hi) <==> ChunksAgree(n, rs, lo, hi)
  {
    hide ChunkStart, Filter;
    FilterSameIff(Sided(n, rs), rs, lo, hi);
    if SameInRange(Sided(n, rs), rs, lo, hi) {
      forall i | 0 <= i < |rs| && Within(rs[i], lo, hi) ensures rs[i].side == rs[ChunkStart(n, i)].side {
        assert Sided(n, rs)[i] == rs[i];
      }
    }
  }

  lemma {:induction false} WalkSidesIff(files: Files, to: DateTime, n: nat, cur: DateTime, lastTs: real, lo: real, hi: real)
    requires n >= 1
    ensures var sided, walk := SidedWalk(files, to, n, cur, lastTs), Walk(files, to, cur, lastTs);
            |Filter(sided, lo, hi)| == |Filter(walk, lo, hi)|
            && (Filter(sided, lo, hi) == Filter(walk, lo, hi) <==> SidesAgree(files, to, n, cur, lastTs, lo, hi))
    decreases MonthsLeft(cur, to)
  {
    if Before(cur, to) {
      hide GoodPrefix, LastTs, Sided, Filter, ChunksAgree;
      var rs := if Lookup(files, cur).Some? then Lookup(files, cur).value.records else [];
      var good := rs[..GoodPrefix(lastTs, rs)];
      var last := LastTs(lastTs, good);
      var sidedOn, on := SidedWalkOn(files, to, n, cur, last), WalkOn(files, to, cur, last);
      FileSidesIff(n, good, lo, hi);
      FilterAppend(Sided(n, good), sidedOn, lo, hi);
      FilterAppend(good, on, lo, hi);
      if Follows(files, cur, to) {
        WalkSidesIff(files, to, n, NextMonth(cur), last, lo, hi);
      }
      SplitEqual(Filter(Sided(n, good), lo, hi), Filter(sidedOn, lo, hi), Filter(good, lo, hi), Filter(on, lo, hi));
    }
  }

  // ---- The stream ----

  /** In all six fields, what any calls deliver is a prefix of the filter of the chunks as they are read,
      and all of it iff the chunk cut in the last month, if there is one, is harmless. */
  lemma StreamWithSides(files: Files, from: DateTime, to: DateTime, n: nat, fromTs: real, toTs: real, calls: seq<real>)
    requires n >= 1 && Sorted(Walk(files, to, from, 0.0)) && calls != []
    ensures BrokenTail(files, to, n, from, 0.0) <= |Walk(files, to, from, 0.0)|
    ensures var sent := Calls(ReadAhead(files, to, n, from, None, 0.0), false, fromTs, toTs, calls);
            var due := Filter(SidedWalk(files, to, n, from, 0.0), fromTs, Min(toTs, Latest(calls)));
            sent <= due
            && (sent == due <==> CutIsHarmless(Kept(files, to, n, from), Cut(files, to, n, from), fromTs, toTs, calls))
  {
    hide ReadAhead, Walk, SidedWalk, Filter, Plain, Calls, BrokenTail, Sorted, CutIsHarmless, Latest;
    var a, w := ReadAhead(files, to, n, from, None, 0.0), Walk(files, to, from, 0.0);
    ReadAheadIsSidedWalk(files, to, n, from, 0.0);
    PlainSidedWalk(files, to, n, from, 0.0);
    PlainKeepsTimes(a.sure + a.dying);
    PlainKeepsTimes(w);
    CallsArePrefix(a, fromTs, toTs, calls);
    HarmlessPlain(a.sure, a.dying, fromTs, toTs, calls);
    PlainSplit(w, a.sure, a.dying);
  }

  /** The delivered ticks are the filter of the walked months in all six fields iff the cut is harmless and
      each record in the range has the side of the first record of its chunk. */
  lemma SidesSurviveIff(files: Files, from: DateTime, to: DateTime, n: nat, fromTs: real, toTs: real, calls: seq<real>)
    requires n >= 1 && Sorted(Walk(files, to, from, 0.0)) && calls != []
    ensures BrokenTail(files, to, n, from, 0.0) <= |Walk(files, to, from, 0.0)|
    ensures Calls(ReadAhead(files, to, n, from, None, 0.0), false, fromTs, toTs, calls)
              == Filter(Walk(files, to, from, 0.0), fromTs, Min(toTs, Latest(calls)))
            <==> (CutIsHarmless(Kept(files, to, n, from), Cut(files, to, n, from), fromTs, toTs, calls)
                  && SidesAgree(files, to, n, from, 0.0, fromTs, Min(toTs, Latest(calls))))
  {
    hide ReadAhead, Walk, SidedWalk, Filter, Calls, BrokenTail, Sorted, SidesAgree, CutIsHarmless, Kept, Cut, Latest;
    StreamWithSides(files, from, to, n, fromTs, toTs, calls);
    WalkSidesIff(files, to, n, from, 0.0, fromTs, Min(toTs, Latest(calls)));
  }

  /** A buy and then a sell in one chunk: the sell is delivered as a buy. */
  lemma SellIsReadAsBuy()
    ensures var buy, sell := At(1.0).(side := 1), At(2.0).(side := -1);
            var files := OneMonth([buy, sell]);
            Calls(ReadAhead(files, MONTH_END, 2, MONTH_START, None, 0.0), false, 0.0, 9.0, [9.0])
              == [buy, sell.(side := 1)]
  {
    hide Calls, ReadAhead;
    var buy, sell := At(1.0).(side := 1), At(2.0).(side := -1);
    var rs := [buy, sell];
    var files := OneMonth(rs);
    TwoGood(rs);
    hide GoodPrefix, Filter;
    assert Before(MONTH_START, MONTH_END) && !Before(NextMonth(MONTH_START), MONTH_END);
    assert rs[..2] == rs && Sided(2, rs) == [buy, sell.(side := 1)];
    assert BrokenTail(files, MONTH_END, 2, MONTH_START, 0.0) == 0;
    assert Latest([9.0]) == 9.0;
    StreamWithSides(files, MONTH_START, MONTH_END, 2, 0.0, 9.0, [9.0]);
    var sided := SidedWalk(files, MONTH_END, 2, MONTH_START, 0.0);
    FilterHead(sided, 0.0, 9.0);
    FilterHead(sided[1..], 0.0, 9.0);
    FilterNone(sided[1..][1..], 0.0, 9.0);
  }

  lemma TwoGood(rs: seq<Record>)
    requires |rs| == 2 && 0.0 < rs[0].timestamp <= rs[1].timestamp
    ensures GoodPrefix(0.0, rs) == 2
  {
    assert GoodPrefix(rs[0].timestamp, rs[1..]) == 1;
  }
}
