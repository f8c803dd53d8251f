/** A stream whose last month is cut by a record that goes back in time: which ticks survive, for any
    calls. The chunk that is cut is read when a call has used up all ticks before it, and only its first
    tick can be sent. */
module TickCuts {
  import opened Basics
  import opened TickStreaming
  import opened TickFiltering

  /** The call goes past all of these ticks: it skips or sends each of them. */
  predicate Drains(kept: seq<Record>, fromTs: real, toTs: real, timestamp: real) {
    forall i :: 0 <= i < |kept| ==> Goes(kept[i], fromTs, toTs, timestamp)
  }

  /** The timestamp of the first call that goes past all of these ticks. */
  function DrainingCall(kept: seq<Record>, fromTs: real, toTs: real, calls: seq<real>): Option<real> {
    if calls == [] then None
    else if Drains(kept, fromTs, toTs, calls[0]) then Some(calls[0])
    else DrainingCall(kept, fromTs, toTs, calls[1..])
  }

  /** What the draining call sends of the cut chunk. */
  function Survivor(cut: seq<Record>, fromTs: real, toTs: real, drain: Option<real>): seq<Record> {
    if cut == [] || drain.None? then [] else Pick(cut[0], fromTs, Min(toTs, drain.value))
  }

  // ---- One call, with and without a cut chunk ahead ----

  lemma {:induction false} DeliverWithCut(a: Ahead, fromTs: real, toTs: real, timestamp: real)
    requires Sorted(a.sure)
    ensures var d, plain := Deliver(a, fromTs, toTs, timestamp), Deliver(Ahead(a.sure, []), fromTs, toTs, timestamp);
            if Drains(a.sure, fromTs, toTs, timestamp) then
              d.finished && d.out == plain.out + Survivor(a.dying, fromTs, toTs, Some(timestamp))
            else
              d.out == plain.out && d.finished == plain.finished
              && (!d.finished ==> d.rest == Ahead(plain.rest.sure, a.dying) && plain.rest.dying == [])
    decreases |a.sure|
  {
    hide Deliver, Sorted;
    DeliverHead(a, fromTs, toTs, timestamp);
    DeliverHead(Ahead(a.sure, []), fromTs, toTs, timestamp);
    if a.sure != [] && Goes(a.sure[0], fromTs, toTs, timestamp) {
      var later := Ahead(a.sure[1..], a.dying);
      SortedTail(a.sure);
      DeliverWithCut(later, fromTs, toTs, timestamp);
      DrainsTail(a.sure, fromTs, toTs, timestamp);
      var out := Deliver(Ahead(later.sure, []), fromTs, toTs, timestamp).out;
      Associate([a.sure[0]], out, Survivor(a.dying, fromTs, toTs, Some(timestamp)));
    }
  }

  lemma SortedTail(rs: seq<Record>)
    requires Sorted(rs) && rs != []
    ensures Sorted(rs[1..])
  {
  }

  lemma DrainsTail(kept: seq<Record>, fromTs: real, toTs: real, timestamp: real)
    requires kept != [] && Goes(kept[0], fromTs, toTs, timestamp)
    ensures Drains(kept, fromTs, toTs, timestamp) <==> Drains(kept[1..], fromTs, toTs, timestamp)
  {
    hide Goes;
    if Drains(kept[1..], fromTs, toTs, timestamp) {
      forall i | 0 <= i < |kept| ensures Goes(kept[i], fromTs, toTs, timestamp) {
        assert i > 0 ==> kept[i] == kept[1..][i - 1];
      }
    }
  }

  // ---- Any calls ----

  /** Nothing drains ticks of which one is past the end of the range. */
  lemma {:induction false} NeverDrained(kept: seq<Record>, fromTs: real, toTs: real, calls: seq<real>, i: nat)
    requires i < |kept| && kept[i].timestamp >= fromTs && kept[i].timestamp > toTs
    ensures DrainingCall(kept, fromTs, toTs, calls) == None
  {
    if calls != [] {
      assert !Goes(kept[i], fromTs, toTs, calls[0]);
      NeverDrained(kept, fromTs, toTs, calls[1..], i);
    }
  }

  /** A call that leaves ticks behind does not change which later call drains them. */
  lemma {:induction false} SameDrain(kept: seq<Record>, k: nat, fromTs: real, toTs: real, timestamp: real, calls: seq<real>)
    requires k < |kept| && !Goes(kept[k], fromTs, toTs, timestamp)
    requires forall i :: 0 <= i < k ==> Goes(kept[i], fromTs, toTs, timestamp)
    ensures DrainingCall(kept, fromTs, toTs, calls) == DrainingCall(kept[k..], fromTs, toTs, calls)
  {
    if calls != [] {
      var t := calls[0];
      assert kept[k..][0] == kept[k];
      if Drains(kept[k..], fromTs, toTs, t) {
        forall i | 0 <= i < |kept| ensures Goes(kept[i], fromTs, toTs, t) {
          assert Goes(kept[k], fromTs, toTs, t) && t > timestamp;
          assert i >= k ==> kept[i] == kept[k..][i - k];
        }
      }
      SameDrain(kept, k, fromTs, toTs, timestamp, calls[1..]);
    }
  }

  /** Where a call that does not drain stops. */
  lemma {:induction false} DeliverStopsAt(kept: seq<Record>, fromTs: real, toTs: real, timestamp: real) returns (k: nat)
    requires Sorted(kept) && !Drains(kept, fromTs, toTs, timestamp)
    ensures k < |kept| && !Goes(kept[k], fromTs, toTs, timestamp)
    ensures forall i :: 0 <= i < k ==> Goes(kept[i], fromTs, toTs, timestamp)
    ensures var d := Deliver(Ahead(kept, []), fromTs, toTs, timestamp);
            (d.finished <==> kept[k].timestamp > toTs) && (!d.finished ==> d.rest == Ahead(kept[k..], []))
    decreases |kept|
  {
    hide Deliver, Sorted;
    DeliverHead(Ahead(kept, []), fromTs, toTs, timestamp);
    if Goes(kept[0], fromTs, toTs, timestamp) {
      SortedTail(kept);
      DrainsTail(kept, fromTs, toTs, timestamp);
      var j := DeliverStopsAt(kept[1..], fromTs, toTs, timestamp);
      k := j + 1;
      assert kept[1..][j..] == kept[k..];
      forall i | 0 <= i < k ensures Goes(kept[i], fromTs, toTs, timestamp) {
        assert i > 0 ==> kept[i] == kept[1..][i - 1];
      }
    } else {
      k := 0;
      assert kept[0..] == kept;
    }
  }

  /** Over any calls the cut chunk adds one tick at most: its first, when the draining call reaches it. */
  lemma {:induction false} CallsWithCut(a: Ahead, fromTs: real, toTs: real, calls: seq<real>)
    requires Sorted(a.sure)
    ensures Calls(a, false, fromTs, toTs, calls)
         == Calls(Ahead(a.sure, []), false, fromTs, toTs, calls)
            + Survivor(a.dying, fromTs, toTs, DrainingCall(a.sure, fromTs, toTs, calls))
    decreases |calls|
  {
    hide Deliver, Sorted, Survivor, Drains;
    if calls == [] {
      NothingSurvives(a.dying, fromTs, toTs);
    } else {
      var t := calls[0];
      var kept := Ahead(a.sure, []);
      var d, plain := Deliver(a, fromTs, toTs, t), Deliver(kept, fromTs, toTs, t);
      var survivor := Survivor(a.dying, fromTs, toTs, DrainingCall(a.sure, fromTs, toTs, calls));
      DeliverWithCut(a, fromTs, toTs, t);
      CallsHead(a, false, fromTs, toTs, calls);
      CallsHead(kept, false, fromTs, toTs, calls);
      NoMoreCalls(d.rest, fromTs, toTs, calls[1..]);
      NoMoreCalls(plain.rest, fromTs, toTs, calls[1..]);
      NothingSurvives(a.dying, fromTs, toTs);
      if Drains(a.sure, fromTs, toTs, t) {
        DrainedIsFinished(a.sure, fromTs, toTs, t);
      } else {
        var k := DeliverStopsAt(a.sure, fromTs, toTs, t);
        if d.finished {
          NeverDrained(a.sure, fromTs, toTs, calls[1..], k);
        } else {
          SameDrain(a.sure, k, fromTs, toTs, t, calls[1..]);
          SortedFrom(a.sure, k);
          CallsWithCut(d.rest, fromTs, toTs, calls[1..]);
          Associate(plain.out, Calls(plain.rest, false, fromTs, toTs, calls[1..]), survivor);
        }
      }
    }
  }

  lemma NothingSurvives(cut: seq<Record>, fromTs: real, toTs: real)
    ensures Survivor(cut, fromTs, toTs, None) == []
  {
  }

  lemma SortedFrom(rs: seq<Record>, k: nat)
    requires Sorted(rs) && k <= |rs|
    ensures Sorted(rs[k..])
  {
  }

  lemma {:induction false} DrainedIsFinished(kept: seq<Record>, fromTs: real, toTs: real, timestamp: real)
    requires Drains(kept, fromTs, toTs, timestamp)
    ensures Deliver(Ahead(kept, []), fromTs, toTs, timestamp).finished
    decreases |kept|
  {
    hide Deliver, Drains;
    DeliverHead(Ahead(kept, []), fromTs, toTs, timestamp);
    if kept != [] {
      assert Goes(kept[0], fromTs, toTs, timestamp) by { DrainsFirst(kept, fromTs, toTs, timestamp); }
      DrainsTail(kept, fromTs, toTs, timestamp);
      DrainedIsFinished(kept[1..], fromTs, toTs, timestamp);
    }
  }

  lemma DrainsFirst(kept: seq<Record>, fromTs: real, toTs: real, timestamp: real)
    requires Drains(kept, fromTs, toTs, timestamp) && kept != []
    ensures Goes(kept[0], fromTs, toTs, timestamp)
  {
    hide Goes;
  }

  // ---- The exact condition ----

  /** The walked ticks before the chunk that is cut in the last month, and those of it that are good. */
  function Kept(files: Files, to: DateTime, n: nat, from: DateTime): seq<Record>
    requires n >= 1 && BrokenTail(files, to, n, from, 0.0) <= |Walk(files, to, from, 0.0)|
  {
    var w := Walk(files, to, from, 0.0);
    Plain(w[..|w| - BrokenTail(files, to, n, from, 0.0)])
  }

  function Cut(files: Files, to: DateTime, n: nat, from: DateTime): seq<Record>
    requires n >= 1 && BrokenTail(files, to, n, from, 0.0) <= |Walk(files, to, from, 0.0)|
  {
    var w := Walk(files, to, from, 0.0);
    Plain(w[|w| - BrokenTail(files, to, n, from, 0.0)..])
  }

  /** No tick of the cut chunk after its first lies in the delivered range, and the first does not either
      or is reached by the call that drains the ticks before it; or no call drains them. */
  predicate CutIsHarmless(kept: seq<Record>, cut: seq<Record>, fromTs: real, toTs: real, calls: seq<real>)
    requires calls != []
  {
    var drain, hi := DrainingCall(kept, fromTs, toTs, calls), Min(toTs, Latest(calls));
    cut == [] || drain.None?
    || (Filter(cut[1..], fromTs, hi) == [] && (Within(cut[0], fromTs, hi) ==> cut[0].timestamp <= drain.value))
  }

  lemma {:induction false} DrainingIsACall(kept: seq<Record>, fromTs: real, toTs: real, calls: seq<real>)
    requires calls != []
    ensures var drain := DrainingCall(kept, fromTs, toTs, calls);
            (drain.Some? ==> drain.value <= Latest(calls))
            && (drain.None? ==> !Drains(kept, fromTs, toTs, Latest(calls)))
  {
    hide Drains;
    if |calls| > 1 {
      DrainingIsACall(kept, fromTs, toTs, calls[1..]);
    } else {
      assert calls[1..] == [];
    }
  }

  /** What survives of the cut chunk is a prefix of what should, and all of it iff the cut is harmless. */
  lemma SurvivorIff(kept: seq<Record>, cut: seq<Record>, fromTs: real, toTs: real, calls: seq<real>)
    requires Sorted(kept + cut) && calls != []
    ensures var survivor := Survivor(cut, fromTs, toTs, DrainingCall(kept, fromTs, toTs, calls));
            var due := Filter(cut, fromTs, Min(toTs, Latest(calls)));
            survivor <= due && (survivor == due <==> CutIsHarmless(kept, cut, fromTs, toTs, calls))
  {
    hide Filter, DrainingCall, Drains, Latest;
    var drain, hi := DrainingCall(kept, fromTs, toTs, calls), Min(toTs, Latest(calls));
    DrainingIsACall(kept, fromTs, toTs, calls);
    if drain.None? {
      LeftBehind(kept, cut, fromTs, toTs, Latest(calls));
    } else if cut == [] {
      FilterNone(cut, fromTs, hi);
    } else {
      FilterHead(cut, fromTs, hi);
    }
  }

  /** When a call leaves a kept tick behind, the cut chunk, which is later, is out of its range. */
  lemma LeftBehind(kept: seq<Record>, cut: seq<Record>, fromTs: real, toTs: real, timestamp: real)
    requires Sorted(kept + cut) && !Drains(kept, fromTs, toTs, timestamp)
    ensures Filter(cut, fromTs, Min(toTs, timestamp)) == []
  {
    var k :| 0 <= k < |kept| && !Goes(kept[k], fromTs, toTs, timestamp);
    var all := kept + cut;
    assert all[k] == kept[k];
    forall i | 0 <= i < |cut| ensures !Within(cut[i], fromTs, Min(toTs, timestamp)) {
      assert all[|kept| + i] == cut[i] && all[k].timestamp <= all[|kept| + i].timestamp;
    }
    FilterNone(cut, fromTs, Min(toTs, timestamp));
  }

  // The side plays no part in any of this.

  lemma {:induction false} DrainingOfPlain(kept: seq<Record>, fromTs: real, toTs: real, calls: seq<real>)
    ensures DrainingCall(Plain(kept), fromTs, toTs, calls) == DrainingCall(kept, fromTs, toTs, calls)
  {
    if calls != [] {
      assert forall i :: 0 <= i < |kept| ==>
        (Goes(Plain(kept)[i], fromTs, toTs, calls[0]) <==> Goes(kept[i], fromTs, toTs, calls[0]));
      DrainingOfPlain(kept, fromTs, toTs, calls[1..]);
    }
  }

  lemma HarmlessPlain(kept: seq<Record>, cut: seq<Record>, fromTs: real, toTs: real, calls: seq<real>)
    requires calls != []
    ensures CutIsHarmless(Plain(kept), Plain(cut), fromTs, toTs, calls) <==> CutIsHarmless(kept, cut, fromTs, toTs, calls)
  {
    hide DrainingCall, Filter, Latest;
    DrainingOfPlain(kept, fromTs, toTs, calls);
    if cut != [] {
      assert Plain(cut)[1..] == Plain(cut[1..]);
      FilterPlain(cut[1..], fromTs, Min(toTs, Latest(calls)));
      PlainLength(Filter(cut[1..], fromTs, Min(toTs, Latest(calls))));
    }
  }

  lemma PlainOfPrefix(xs: seq<Record>, ys: seq<Record>)
    requires xs <= ys
    ensures Plain(xs) == Plain(ys) <==> xs == ys
  {
    PlainLength(xs);
    PlainLength(ys);
  }

  /** What any calls send is a prefix of the filter of everything ahead. */
  lemma CallsArePrefix(a: Ahead, fromTs: real, toTs: real, calls: seq<real>)
    requires Sorted(a.sure + a.dying) && calls != []
    ensures var sent, due := Calls(a, false, fromTs, toTs, calls), Filter(a.sure + a.dying, fromTs, Min(toTs, Latest(calls)));
            sent <= due && (sent == due <==> CutIsHarmless(a.sure, a.dying, fromTs, toTs, calls))
  {
    hide Filter, DrainingCall, Latest, Calls, Survivor, CutIsHarmless, Sorted;
    var hi := Min(toTs, Latest(calls));
    SortedPrefix(a.sure, a.dying);
    CallsWithCut(a, fromTs, toTs, calls);
    CallsFilter(Ahead(a.sure, []), fromTs, toTs, calls);
    SurvivorIff(a.sure, a.dying, fromTs, toTs, calls);
    FilterAppend(a.sure, a.dying, fromTs, hi);
    var survivor, due := Survivor(a.dying, fromTs, toTs, DrainingCall(a.sure, fromTs, toTs, calls)), Filter(a.dying, fromTs, hi);
    SamePrefix(Filter(a.sure, fromTs, hi), survivor, due);
  }

  lemma AheadIsFilterIff(a: Ahead, fromTs: real, toTs: real, calls: seq<real>)
    requires Sorted(a.sure + a.dying) && calls != []
    ensures (Plain(Calls(a, false, fromTs, toTs, calls))
             == Filter(Plain(a.sure + a.dying), fromTs, Min(toTs, Latest(calls))))
            <==> CutIsHarmless(Plain(a.sure), Plain(a.dying), fromTs, toTs, calls)
  {
    hide Filter, Latest, Calls, Plain, CutIsHarmless, Sorted;
    var hi := Min(toTs, Latest(calls));
    CallsArePrefix(a, fromTs, toTs, calls);
    HarmlessPlain(a.sure, a.dying, fromTs, toTs, calls);
    FilterPlain(a.sure + a.dying, fromTs, hi);
    PlainOfPrefix(Calls(a, false, fromTs, toTs, calls), Filter(a.sure + a.dying, fromTs, hi));
  }

  lemma SamePrefix(sent: seq<Record>, x: seq<Record>, y: seq<Record>)
    requires x <= y
    ensures sent + x <= sent + y && (sent + x == sent + y <==> x == y)
  {
    assert sent + x == sent + y ==> |x| == |y|;
  }

  lemma SortedPrefix(xs: seq<Record>, ys: seq<Record>)
    requires Sorted(xs + ys)
    ensures Sorted(xs)
  {
    forall i, j | 0 <= i < j < |xs| ensures xs[i].timestamp <= xs[j].timestamp {
      assert (xs + ys)[i] == xs[i] && (xs + ys)[j] == xs[j];
    }
  }

  /** Chunked reading is the filter of the walked months exactly: for any calls in any order and any chunk
      size, the output is the filter iff the chunk cut in the last month, if there is one, is harmless.
      Months with positive timestamps walk in order. */
  lemma StreamIsFilterIff(files: Files, from: DateTime, to: DateTime, n: nat, fromTs: real, toTs: real, calls: seq<real>)
    requires n >= 1 && Sorted(Walk(files, to, from, 0.0)) && calls != []
    ensures BrokenTail(files, to, n, from, 0.0) <= |Walk(files, to, from, 0.0)|
    ensures (Plain(Calls(ReadAhead(files, to, n, from, None, 0.0), false, fromTs, toTs, calls))
             == Filter(Plain(Walk(files, to, from, 0.0)), fromTs, Min(toTs, Latest(calls))))
            <==> CutIsHarmless(Kept(files, to, n, from), Cut(files, to, n, from), fromTs, toTs, calls)
  {
    hide ReadAhead, Walk, Plain, BrokenTail, Filter, Calls, CutIsHarmless, Latest, Sorted;
    var a, w := ReadAhead(files, to, n, from, None, 0.0), Walk(files, to, from, 0.0);
    ReadAheadIsWalk(files, to, n, from, 0.0);
    PlainKeepsTimes(a.sure + a.dying);
    PlainKeepsTimes(w);
    AheadIsFilterIff(a, fromTs, toTs, calls);
    PlainSplit(w, a.sure, a.dying);
  }

  lemma PlainSplit(w: seq<Record>, xs: seq<Record>, ys: seq<Record>)
    requires Plain(xs + ys) == Plain(w)
    ensures |w| == |xs| + |ys|
    ensures Plain(w[..|w| - |ys|]) == Plain(xs) && Plain(w[|w| - |ys|..]) == Plain(ys)
  {
    PlainAppend(xs, ys);
    PlainLength(w);
    PlainLength(xs + ys);
    forall i | 0 <= i < |xs| ensures Plain(w)[i] == Plain(xs)[i] {
      assert Plain(w)[i] == (Plain(xs) + Plain(ys))[i];
    }
    forall i | 0 <= i < |ys| ensures Plain(w)[|xs| + i] == Plain(ys)[i] {
      assert Plain(w)[|xs| + i] == (Plain(xs) + Plain(ys))[|xs| + i];
    }
  }

  // ---- A file that loses good ticks ----

  function At(timestamp: real): Record { Record(timestamp, 1.0, 1.0, 1.0, 1.0, 0) }

  const MONTH_START := DateTime(1970, 1, 0)
  const MONTH_END := DateTime(1970, 1, 1)

  function OneMonth(rs: seq<Record>): Files { map[(1970, 1) := MonthFile(rs, 0)] }

  lemma OneMonthIsCut(rs: seq<Record>, n: nat)
    requires n >= 1 && GoodPrefix(0.0, rs) < |rs|
    ensures Walk(OneMonth(rs), MONTH_END, MONTH_START, 0.0) == rs[..GoodPrefix(0.0, rs)]
    ensures BrokenTail(OneMonth(rs), MONTH_END, n, MONTH_START, 0.0) == GoodPrefix(0.0, rs) % n
  {
    hide GoodPrefix;
    assert Before(MONTH_START, MONTH_END) && !Before(NextMonth(MONTH_START), MONTH_END);
  }

  /** One month holds ticks at 1, 2, 3 and then 1 again, read in one chunk: of the three good ticks only
      the first is delivered by a call to the end. */
  lemma BackwardTickLosesGoodOnes()
    ensures var files := OneMonth([At(1.0), At(2.0), At(3.0), At(1.0)]);
            Walk(files, MONTH_END, MONTH_START, 0.0) == [At(1.0), At(2.0), At(3.0)]
            && Filter(Walk(files, MONTH_END, MONTH_START, 0.0), 0.0, 9.0) == [At(1.0), At(2.0), At(3.0)]
            && Calls(ReadAhead(files, MONTH_END, 4, MONTH_START, None, 0.0), false, 0.0, 9.0, [9.0]) == [At(1.0)]
  {
    var rs, good := [At(1.0), At(2.0), At(3.0), At(1.0)], [At(1.0), At(2.0), At(3.0)];
    var files := OneMonth(rs);
    ThreeGood(rs);
    OneMonthIsCut(rs, 4);
    assert rs[..3] == good;
    ThreeAreDue(good);
    CutChunkAhead(rs, 3);
    assert Loaded(rs)[..3] == good;
    hide Walk, BrokenTail, ReadAhead, Calls, GoodPrefix, Filter, Loaded;
    CallsWithCut(Ahead([], good), 0.0, 9.0, [9.0]);
    assert DrainingCall([], 0.0, 9.0, [9.0]) == Some(9.0);
    assert Latest([9.0]) == 9.0;
    CallsFilter(Ahead([], []), 0.0, 9.0, [9.0]);
    FilterNone([], 0.0, 9.0);
  }

  /** A month read in one chunk that breaks: nothing is sure. */
  lemma CutChunkAhead(rs: seq<Record>, k: nat)
    requires GoodPrefix(0.0, rs) == k < |rs|
    ensures ReadAhead(OneMonth(rs), MONTH_END, |rs|, MONTH_START, None, 0.0) == Ahead([], Loaded(rs)[..k])
  {
    hide GoodPrefix, Loaded;
    assert Before(MONTH_START, MONTH_END) && !Before(NextMonth(MONTH_START), MONTH_END);
    assert Take(|rs|, rs) == rs;
  }

  lemma ThreeAreDue(good: seq<Record>)
    requires good == [At(1.0), At(2.0), At(3.0)]
    ensures Filter(good, 0.0, 9.0) == good
  {
    hide Filter;
    FilterHead(good, 0.0, 9.0);
    FilterHead(good[1..], 0.0, 9.0);
    FilterHead(good[1..][1..], 0.0, 9.0);
    FilterNone(good[1..][1..][1..], 0.0, 9.0);
  }

  lemma ThreeGood(rs: seq<Record>)
    requires |rs| == 4 && 0.0 < rs[0].timestamp <= rs[1].timestamp <= rs[2].timestamp && rs[3].timestamp < rs[2].timestamp
    ensures GoodPrefix(0.0, rs) == 3
  {
    var tail := rs[1..];
    assert GoodPrefix(rs[2].timestamp, tail[1..][1..]) == 0;
    assert GoodPrefix(rs[1].timestamp, tail[1..]) == 1;
    assert GoodPrefix(rs[0].timestamp, tail) == 2;
  }
}
