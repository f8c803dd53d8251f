/** Chunked reading against plain filtering: whatever the chunk size and the calls, the stream
    delivers the ticks of the walked months that fall in the range. */
module TickFiltering {
  import opened Basics
  import opened Arithmetic
  import opened TickStreaming

  // ---- The walked data, with no chunks in it ----

  /** The records of the months walked from `cur` on, each file up to its first broken record.
      A missing first month is skipped; a later gap ends the walk. */
  function Walk(files: Files, to: DateTime, cur: DateTime, lastTs: real): seq<Record>
    decreases MonthsLeft(cur, to)
  {
    if !Before(cur, to) then []
    else
      var rs := if Lookup(files, cur).Some? then Lookup(files, cur).value.records else [];
      var good := rs[..GoodPrefix(lastTs, rs)];
      good + WalkOn(files, to, cur, LastTs(lastTs, good))
  }

  function WalkOn(files: Files, to: DateTime, cur: DateTime, lastTs: real): seq<Record>
    requires Before(cur, to)
    decreases MonthsLeft(cur, to), 0
  {
    if Follows(files, cur, to) then Walk(files, to, NextMonth(cur), lastTs) else []
  }

  /** Good records of the chunk in which the last walked month breaks, 0 when it does not break. */
  function BrokenTail(files: Files, to: DateTime, n: nat, cur: DateTime, lastTs: real): nat
    requires n >= 1
    decreases MonthsLeft(cur, to)
  {
    if !Before(cur, to) then 0
    else
      var rs := if Lookup(files, cur).Some? then Lookup(files, cur).value.records else [];
      var g := GoodPrefix(lastTs, rs);
      if Follows(files, cur, to) then BrokenTail(files, to, n, NextMonth(cur), LastTs(lastTs, rs[..g]))
      else if g < |rs| then g % n else 0
  }

  /** The five fields that survive reading; the side is taken from the first record of a chunk. */
  function Plain(rs: seq<Record>): seq<Record> {
    seq(|rs|, i requires 0 <= i < |rs| => rs[i].(side := 0))
  }

  lemma PlainAppend(xs: seq<Record>, ys: seq<Record>)
    ensures Plain(xs + ys) == Plain(xs) + Plain(ys)
  {
  }

  /** The record whose side a record is read with: the first of its chunk. */
  function ChunkStart(n: nat, i: nat): (k: nat)
    requires n >= 1
    ensures k <= i
    decreases i
  {
    if i < n then 0 else n + ChunkStart(n, i - n)
  }

  lemma OneMore(q: nat, n: nat, i: nat)
    requires n >= 1 && q == i / n
    ensures (q + 1) * n == q * n + n && q * n <= i < q * n + n
  {
  }

  lemma {:induction false} ChunkStartIsMultiple(n: nat, i: nat)
    requires n >= 1
    ensures ChunkStart(n, i) == i / n * n
    decreases i
  {
    if i >= n {
      var q := (i - n) / n;
      ChunkStartIsMultiple(n, i - n);
      OneMore(q, n, i - n);
      QuotientUnique(i, n, q + 1);
    }
  }

  /** A file as it is read, with the sides it gets. */
  function Sided(n: nat, rs: seq<Record>): (r: seq<Record>)
    requires n >= 1
    ensures |r| == |rs|
  {
    seq(|rs|, i requires 0 <= i < |rs| => rs[i].(side := rs[ChunkStart(n, i)].side))
  }

  /** The walked data, with the sides that reading gives. */
  function SidedWalk(files: Files, to: DateTime, n: nat, cur: DateTime, lastTs: real): seq<Record>
    requires n >= 1
    decreases MonthsLeft(cur, to)
  {
    if !Before(cur, to) then []
    else
      var rs := if Lookup(files, cur).Some? then Lookup(files, cur).value.records else [];
      var good := rs[..GoodPrefix(lastTs, rs)];
      Sided(n, good) + SidedWalkOn(files, to, n, cur, LastTs(lastTs, good))
  }

  function SidedWalkOn(files: Files, to: DateTime, n: nat, cur: DateTime, lastTs: real): seq<Record>
    requires n >= 1 && Before(cur, to)
    decreases MonthsLeft(cur, to), 0
  {
    if Follows(files, cur, to) then SidedWalk(files, to, n, NextMonth(cur), lastTs) else []
  }

  lemma PlainSided(n: nat, rs: seq<Record>)
    requires n >= 1
    ensures Plain(Sided(n, rs)) == Plain(rs)
  {
  }

  lemma {:induction false} PlainSidedWalk(files: Files, to: DateTime, n: nat, cur: DateTime, lastTs: real)
    requires n >= 1
    ensures Plain(SidedWalk(files, to, n, cur, lastTs)) == Plain(Walk(files, to, cur, lastTs))
    decreases MonthsLeft(cur, to)
  {
    if Before(cur, to) {
      hide GoodPrefix, LastTs, Plain, Sided;
      var rs := if Lookup(files, cur).Some? then Lookup(files, cur).value.records else [];
      var good := rs[..GoodPrefix(lastTs, rs)];
      var last := LastTs(lastTs, good);
      PlainSided(n, good);
      PlainAppend(Sided(n, good), SidedWalkOn(files, to, n, cur, last));
      PlainAppend(good, WalkOn(files, to, cur, last));
      if Follows(files, cur, to) {
        PlainSidedWalk(files, to, n, NextMonth(cur), last);
      }
    }
  }

  /** Chunk by chunk: each chunk takes the side of its own first record. */
  lemma SidedAppend(n: nat, chunk: seq<Record>, rs: seq<Record>)
    requires n >= 1 && (|chunk| == n || (|chunk| < n && rs == []))
    ensures Sided(n, chunk + rs) == Loaded(chunk) + Sided(n, rs)
  {
    var all, got := Sided(n, chunk + rs), Loaded(chunk) + Sided(n, rs);
    forall i | 0 <= i < |all| ensures all[i] == got[i] {
      if i >= |chunk| {
        assert ChunkStart(n, i) == n + ChunkStart(n, i - n);
      }
    }
  }

  lemma SidedPart(n: nat, chunk: seq<Record>, k: nat)
    requires n >= 1 && k <= |chunk| <= n
    ensures Sided(n, chunk[..k]) == Loaded(chunk)[..k]
  {
  }

  lemma {:induction false} GoodPrefixSplit(lastTs: real, xs: seq<Record>, ys: seq<Record>)
    ensures var g := GoodPrefix(lastTs, xs);
            GoodPrefix(lastTs, xs + ys) == if g < |xs| then g else g + GoodPrefix(LastTs(lastTs, xs), ys)
    decreases xs
  {
    if xs == [] {
      assert xs + ys == ys;
    } else {
      assert (xs + ys)[1..] == xs[1..] + ys;
      GoodPrefixSplit(xs[0].timestamp, xs[1..], ys);
    }
  }

  lemma LoadedTimes(chunk: seq<Record>, k: nat)
    requires k <= |chunk|
    ensures |Loaded(chunk)| == |chunk|
    ensures forall lastTs :: LastTs(lastTs, Loaded(chunk)[..k]) == LastTs(lastTs, chunk[..k])
  {
  }

  function AheadOn(files: Files, to: DateTime, n: nat, cur: DateTime, lastTs: real): Ahead
    requires n >= 1 && Before(cur, to)
  {
    if Follows(files, cur, to) then ReadAhead(files, to, n, NextMonth(cur), Lookup(files, NextMonth(cur)), lastTs)
    else Ahead([], [])
  }

  function All(a: Ahead): seq<Record> { a.sure + a.dying }

  lemma AllPrepend(rs: seq<Record>, a: Ahead)
    ensures All(Prepend(rs, a)) == rs + All(a)
  {
    assert rs + a.sure + a.dying == rs + (a.sure + a.dying);
  }

  lemma {:induction false} NextFile(files: Files, to: DateTime, n: nat, cur: DateTime, lastTs: real)
    requires n >= 1 && Before(cur, to)
    ensures var a := AheadOn(files, to, n, cur, lastTs);
            All(a) == SidedWalkOn(files, to, n, cur, lastTs)
            && |a.dying| == if Follows(files, cur, to) then BrokenTail(files, to, n, NextMonth(cur), lastTs) else 0
    decreases MonthsLeft(cur, to), 0
  {
    hide GoodPrefix, ReadAhead, LastTs, Sided, Lookup;
    if Follows(files, cur, to) {
      var next := NextMonth(cur);
      ChunksOfFile(files, to, n, next, Lookup(files, next).value, lastTs);
    }
  }

  /** The first chunk of an open file. */
  lemma FirstChunk(files: Files, to: DateTime, n: nat, cur: DateTime, f: File, lastTs: real)
    requires n >= 1 && Before(cur, to)
    ensures var a := ReadAhead(files, to, n, cur, Some(f), lastTs);
            var chunk := Take(n, f.records);
            var good := GoodPrefix(lastTs, chunk);
            var got := Loaded(chunk)[..good];
            var last := LastTs(lastTs, chunk[..good]);
            if Bytes(f) == 0 then a == AheadOn(files, to, n, cur, lastTs)
            else if good == |chunk| then a == Prepend(got, ReadAhead(files, to, n, cur, Some(Rest(n, f)), last))
            else if Follows(files, cur, to) then a == Prepend(got, AheadOn(files, to, n, cur, last))
            else a == Ahead([], got)
  {
    hide GoodPrefix, Loaded, Take, Rest, Bytes;
    var chunk := Take(n, f.records);
    LoadedTimes(chunk, GoodPrefix(lastTs, chunk));
  }

  /** Good records of a file, and those among them that a breaking chunk would hold. */
  function Good(lastTs: real, f: File): seq<Record> { f.records[..GoodPrefix(lastTs, f.records)] }

  function Odd(n: nat, lastTs: real, f: File): nat
    requires n >= 1
  {
    var g := GoodPrefix(lastTs, f.records);
    if g < |f.records| then g % n else 0
  }

  lemma WholeChunk(n: nat, f: File, lastTs: real)
    requires n >= 1
    requires GoodPrefix(lastTs, Take(n, f.records)) == |Take(n, f.records)|
    ensures var chunk, rest := Take(n, f.records), Rest(n, f);
            var last := LastTs(lastTs, chunk);
            Sided(n, Good(lastTs, f)) == Loaded(chunk) + Sided(n, Good(last, rest))
            && LastTs(lastTs, Good(lastTs, f)) == LastTs(last, Good(last, rest))
            && Odd(n, lastTs, f) == Odd(n, last, rest)
  {
    hide GoodPrefix, Sided, Loaded;
    var chunk, rest := Take(n, f.records), Rest(n, f);
    var last := LastTs(lastTs, chunk);
    var g := GoodPrefix(last, rest.records);
    assert chunk + rest.records == f.records;
    GoodPrefixSplit(lastTs, chunk, rest.records);
    assert Good(lastTs, f) == f.records[..|chunk| + g] == chunk + rest.records[..g];
    SidedAppend(n, chunk, Good(last, rest));
    if |chunk| == n {
      RemainderPastOne(n, g);
    }
  }

  lemma PartChunk(n: nat, f: File, lastTs: real)
    requires n >= 1
    requires GoodPrefix(lastTs, Take(n, f.records)) < |Take(n, f.records)|
    ensures var chunk := Take(n, f.records);
            var good := GoodPrefix(lastTs, chunk);
            Good(lastTs, f) == chunk[..good] && Odd(n, lastTs, f) == good
  {
    hide GoodPrefix;
    var chunk, rest := Take(n, f.records), Rest(n, f);
    assert chunk + rest.records == f.records;
    GoodPrefixSplit(lastTs, chunk, rest.records);
  }

  lemma NoBytes(n: nat, f: File, lastTs: real)
    requires n >= 1 && Bytes(f) == 0
    ensures Good(lastTs, f) == [] && Odd(n, lastTs, f) == 0
  {
  }

  /** A file read in chunks gives its good records, whatever the chunk size. */
  lemma {:induction false} ChunksOfFile(files: Files, to: DateTime, n: nat, cur: DateTime, f: File, lastTs: real)
    requires n >= 1 && Before(cur, to)
    ensures var a := ReadAhead(files, to, n, cur, Some(f), lastTs);
            var last := LastTs(lastTs, Good(lastTs, f));
            All(a) == Sided(n, Good(lastTs, f)) + SidedWalkOn(files, to, n, cur, last)
            && |a.dying| == (if Follows(files, cur, to) then BrokenTail(files, to, n, NextMonth(cur), last)
                             else Odd(n, lastTs, f))
    decreases MonthsLeft(cur, to), Bytes(f) + 1
  {
    hide GoodPrefix, Loaded, ReadAhead, SidedWalkOn, BrokenTail, AheadOn, All, Sided, Follows, Good, Odd, Take, Rest, Bytes;
    FirstChunk(files, to, n, cur, f, lastTs);
    var chunk, rest := Take(n, f.records), Rest(n, f);
    var good := GoodPrefix(lastTs, chunk);
    LoadedTimes(chunk, good);
    var got := Loaded(chunk)[..good];
    if Bytes(f) == 0 {
      NoBytes(n, f, lastTs);
      NextFile(files, to, n, cur, lastTs);
      assert Sided(n, []) + SidedWalkOn(files, to, n, cur, lastTs) == SidedWalkOn(files, to, n, cur, lastTs);
    } else if good == |chunk| {
      RestIsShorter(n, f);
      assert chunk[..good] == chunk && got == Loaded(chunk);
      var last := LastTs(lastTs, chunk);
      ChunksOfFile(files, to, n, cur, rest, last);
      WholeChunk(n, f, lastTs);
      AllPrepend(got, ReadAhead(files, to, n, cur, Some(rest), last));
      Associate(got, Sided(n, Good(last, rest)), SidedWalkOn(files, to, n, cur, LastTs(last, Good(last, rest))));
    } else {
      PartChunk(n, f, lastTs);
      TakeAtMost(n, f.records);
      SidedPart(n, chunk, good);
      var last := LastTs(lastTs, chunk[..good]);
      if Follows(files, cur, to) {
        NextFile(files, to, n, cur, last);
        AllPrepend(got, AheadOn(files, to, n, cur, last));
      } else {
        BrokenChunk(files, to, n, cur, got, last);
      }
    }
  }

  lemma TakeAtMost(n: nat, rs: seq<Record>)
    ensures |Take(n, rs)| <= n
  {
  }

  lemma RestIsShorter(n: nat, f: File)
    requires n >= 1 && Bytes(f) > 0
    ensures Bytes(Rest(n, f)) < Bytes(f)
  {
  }

  lemma BrokenChunk(files: Files, to: DateTime, n: nat, cur: DateTime, got: seq<Record>, last: real)
    requires n >= 1 && Before(cur, to) && !Follows(files, cur, to)
    ensures All(Ahead([], got)) == got + SidedWalkOn(files, to, n, cur, last)
  {
  }

  /** What is read, in order and with the sides it gets: the walk, each file cut into chunks. */
  lemma ReadAheadIsSidedWalk(files: Files, to: DateTime, n: nat, from: DateTime, lastTs: real)
    requires n >= 1
    ensures var a := ReadAhead(files, to, n, from, None, lastTs);
            a.sure + a.dying == SidedWalk(files, to, n, from, lastTs)
            && |a.dying| == BrokenTail(files, to, n, from, lastTs)
  {
    hide GoodPrefix, Sided, SidedWalkOn;
    if Before(from, to) {
      if Lookup(files, from).Some? {
        var f := Lookup(files, from).value;
        ChunksOfFile(files, to, n, from, f, lastTs);
        ReadAheadOpens(files, to, n, from, f, lastTs);
      } else {
        NextFile(files, to, n, from, lastTs);
        assert GoodPrefix(lastTs, []) == 0;
        assert Sided(n, []) + SidedWalkOn(files, to, n, from, lastTs) == SidedWalkOn(files, to, n, from, lastTs);
      }
    }
  }

  /** Sides aside, the chunk size does not show: the records read are those of the walk, in order. */
  lemma ReadAheadIsWalk(files: Files, to: DateTime, n: nat, from: DateTime, lastTs: real)
    requires n >= 1
    ensures var a := ReadAhead(files, to, n, from, None, lastTs);
            Plain(a.sure + a.dying) == Plain(Walk(files, to, from, lastTs))
            && |a.dying| == BrokenTail(files, to, n, from, lastTs)
  {
    hide ReadAhead, Walk, SidedWalk, Plain, BrokenTail;
    ReadAheadIsSidedWalk(files, to, n, from, lastTs);
    PlainSidedWalk(files, to, n, from, lastTs);
  }

  lemma ReadAheadOpens(files: Files, to: DateTime, n: nat, from: DateTime, f: File, lastTs: real)
    requires n >= 1 && Lookup(files, from) == Some(f)
    ensures ReadAhead(files, to, n, from, None, lastTs) == ReadAhead(files, to, n, from, Some(f), lastTs)
  {
    hide GoodPrefix, Loaded;
  }

  // ---- Calls on the stream against a filter ----

  function Filter(rs: seq<Record>, lo: real, hi: real): seq<Record> {
    if rs == [] then [] else Pick(rs[0], lo, hi) + Filter(rs[1..], lo, hi)
  }

  function Pick(r: Record, lo: real, hi: real): seq<Record> {
    if Within(r, lo, hi) then [r] else []
  }

  predicate Sorted(rs: seq<Record>) {
    forall i, j :: 0 <= i < j < |rs| ==> rs[i].timestamp <= rs[j].timestamp
  }

  /** Output of successive calls, appended to one another. */
  function Calls(a: Ahead, finished: bool, fromTs: real, toTs: real, calls: seq<real>): seq<Record>
    decreases |calls|
  {
    if calls == [] || finished then []
    else
      var d := Deliver(a, fromTs, toTs, calls[0]);
      d.out + Calls(d.rest, d.finished, fromTs, toTs, calls[1..])
  }

  function Latest(calls: seq<real>): real
    requires calls != []
  {
    if |calls| == 1 then calls[0]
    else if calls[0] >= Latest(calls[1..]) then calls[0] else Latest(calls[1..])
  }

  lemma {:induction false} FilterAppend(xs: seq<Record>, ys: seq<Record>, lo: real, hi: real)
    ensures Filter(xs + ys, lo, hi) == Filter(xs, lo, hi) + Filter(ys, lo, hi)
  {
    hide Pick;
    if xs == [] {
      assert xs + ys == ys;
    } else {
      assert (xs + ys)[1..] == xs[1..] + ys;
      FilterAppend(xs[1..], ys, lo, hi);
      Associate(Pick(xs[0], lo, hi), Filter(xs[1..], lo, hi), Filter(ys, lo, hi));
    }
  }

  lemma {:induction false} FilterAgrees(rs: seq<Record>, lo: real, hi: real, hi': real)
    requires forall i :: 0 <= i < |rs| ==> (Within(rs[i], lo, hi) <==> Within(rs[i], lo, hi'))
    ensures Filter(rs, lo, hi) == Filter(rs, lo, hi')
  {
    if rs != [] {
      assert forall i :: 0 <= i < |rs[1..]| ==> rs[1..][i] == rs[i + 1];
      FilterAgrees(rs[1..], lo, hi, hi');
    }
  }

  lemma {:induction false} FilterNone(rs: seq<Record>, lo: real, hi: real)
    requires forall i :: 0 <= i < |rs| ==> !Within(rs[i], lo, hi)
    ensures Filter(rs, lo, hi) == []
  {
    if rs != [] {
      assert forall i :: 0 <= i < |rs[1..]| ==> rs[1..][i] == rs[i + 1];
      FilterNone(rs[1..], lo, hi);
    }
  }

  lemma {:induction false} FilterPlain(rs: seq<Record>, lo: real, hi: real)
    ensures Plain(Filter(rs, lo, hi)) == Filter(Plain(rs), lo, hi)
  {
    if rs != [] {
      FilterPlain(rs[1..], lo, hi);
      assert Plain(rs)[1..] == Plain(rs[1..]);
      PlainAppend(Pick(rs[0], lo, hi), Filter(rs[1..], lo, hi));
    }
  }

  /** Records that no later call can deliver any more. */
  predicate Settled(rs: seq<Record>, fromTs: real, toTs: real, timestamp: real) {
    forall i :: 0 <= i < |rs| ==>
      rs[i].timestamp < fromTs || rs[i].timestamp > toTs || rs[i].timestamp <= timestamp
  }

  predicate After(rs: seq<Record>, timestamp: real) {
    forall i :: 0 <= i < |rs| ==> rs[i].timestamp > timestamp
  }

  /** How many records a call uses up. */
  function Used(a: Ahead, d: Delivery): nat {
    if d.finished || |d.rest.sure| > |a.sure| then |a.sure| else |a.sure| - |d.rest.sure|
  }

  lemma DeliverStops(a: Ahead, fromTs: real, toTs: real, timestamp: real)
    requires a.dying == [] && Sorted(a.sure) && a.sure != []
    requires a.sure[0].timestamp >= fromTs && a.sure[0].timestamp > Min(toTs, timestamp)
    ensures var d := Deliver(a, fromTs, toTs, timestamp);
            d.out == Filter(a.sure, fromTs, Min(toTs, timestamp)) == []
            && (if a.sure[0].timestamp > toTs then d.finished && Settled(a.sure, fromTs, toTs, timestamp)
                else !d.finished && d.rest == a && After(a.sure, timestamp))
  {
    FilterNone(a.sure, fromTs, Min(toTs, timestamp));
  }

  lemma {:induction false} DeliverFilters(a: Ahead, fromTs: real, toTs: real, timestamp: real)
    requires a.dying == [] && Sorted(a.sure)
    ensures var d := Deliver(a, fromTs, toTs, timestamp);
            var k := Used(a, d);
            d.out == Filter(a.sure, fromTs, Min(toTs, timestamp))
            && Settled(a.sure[..k], fromTs, toTs, timestamp)
            && (!d.finished ==> d.rest == Ahead(a.sure[k..], []) && After(a.sure[k..], timestamp))
    decreases |a.sure|
  {
    hide Deliver, Filter, Within;
    DeliverHead(a, fromTs, toTs, timestamp);
    if a.sure == [] {
      FilterNone(a.sure, fromTs, Min(toTs, timestamp));
    } else if Goes(a.sure[0], fromTs, toTs, timestamp) {
      DeliverFilters(Ahead(a.sure[1..], []), fromTs, toTs, timestamp);
      DeliverGoes(a, fromTs, toTs, timestamp);
    } else {
      DeliverStops(a, fromTs, toTs, timestamp);
      assert a.sure[..|a.sure|] == a.sure && a.sure[0..] == a.sure && a.sure[..0] == [];
    }
  }

  /** The call goes past a record: it skips it or sends it. */
  predicate Goes(r: Record, fromTs: real, toTs: real, timestamp: real) {
    r.timestamp < fromTs || (r.timestamp <= toTs && r.timestamp <= timestamp)
  }

  lemma DeliverGoes(a: Ahead, fromTs: real, toTs: real, timestamp: real)
    requires a.dying == [] && a.sure != [] && Goes(a.sure[0], fromTs, toTs, timestamp)
    requires var later := Ahead(a.sure[1..], []);
             var d := Deliver(later, fromTs, toTs, timestamp);
             d.out == Filter(later.sure, fromTs, Min(toTs, timestamp))
             && Settled(later.sure[..Used(later, d)], fromTs, toTs, timestamp)
             && (!d.finished ==> d.rest == Ahead(later.sure[Used(later, d)..], []))
    ensures var later := Ahead(a.sure[1..], []);
            var d, d' := Deliver(later, fromTs, toTs, timestamp), Deliver(a, fromTs, toTs, timestamp);
            var k := Used(later, d);
            d'.out == Filter(a.sure, fromTs, Min(toTs, timestamp))
            && d'.rest == d.rest && d'.finished == d.finished && Used(a, d') == k + 1
            && Settled(a.sure[..k + 1], fromTs, toTs, timestamp) && a.sure[k + 1..] == later.sure[k..]
  {
    hide Deliver, Filter;
    DeliverHead(a, fromTs, toTs, timestamp);
    FilterHead(a.sure, fromTs, Min(toTs, timestamp));
    var later := a.sure[1..];
    var k := Used(Ahead(later, []), Deliver(Ahead(later, []), fromTs, toTs, timestamp));
    assert a.sure[..k + 1] == [a.sure[0]] + later[..k];
  }

  lemma FilterHead(rs: seq<Record>, lo: real, hi: real)
    requires rs != []
    ensures Filter(rs, lo, hi) == Pick(rs[0], lo, hi) + Filter(rs[1..], lo, hi)
  {
  }

  /** Calls in any order of timestamps: together they deliver the range up to the latest one. */
  lemma {:induction false} CallsFilter(a: Ahead, fromTs: real, toTs: real, calls: seq<real>)
    requires a.dying == [] && Sorted(a.sure) && calls != []
    ensures Calls(a, false, fromTs, toTs, calls) == Filter(a.sure, fromTs, Min(toTs, Latest(calls)))
    decreases |calls|
  {
    hide Deliver, Filter;
    var t := calls[0];
    var d := Deliver(a, fromTs, toTs, t);
    DeliverFilters(a, fromTs, toTs, t);
    var k := Used(a, d);
    var done, rest := a.sure[..k], a.sure[k..];
    assert a.sure == done + rest;
    var hi, hi0 := Min(toTs, Latest(calls)), Min(toTs, t);
    FilterAppend(done, rest, fromTs, hi);
    FilterAppend(done, rest, fromTs, hi0);
    FilterAgrees(done, fromTs, hi, hi0);
    if d.finished {
      assert rest == [];
      FilterNone(rest, fromTs, hi);
      FilterNone(rest, fromTs, hi0);
      NoMoreCalls(d.rest, fromTs, toTs, calls[1..]);
    } else {
      FilterNone(rest, fromTs, hi0);
      if |calls| == 1 {
        assert calls[1..] == [];
      } else {
        CallsFilter(d.rest, fromTs, toTs, calls[1..]);
        var hi' := Min(toTs, Latest(calls[1..]));
        FilterAgrees(rest, fromTs, hi, hi');
      }
    }
  }

  lemma NoMoreCalls(a: Ahead, fromTs: real, toTs: real, calls: seq<real>)
    ensures Calls(a, true, fromTs, toTs, calls) == []
  {
  }

  // ---- Whole streams ----

  predicate PositiveTimes(files: Files) {
    forall m :: m in files ==> forall i :: 0 <= i < |files[m].records| ==> files[m].records[i].timestamp > 0.0
  }

  /** No file breaks in the last walked month, or only at a chunk boundary. */
  predicate EndsClean(files: Files, to: DateTime, n: nat, from: DateTime)
    requires n >= 1
  {
    BrokenTail(files, to, n, from, 0.0) == 0
  }

  lemma {:induction false} GoodPrefixSorted(lastTs: real, rs: seq<Record>)
    requires forall i :: 0 <= i < |rs| ==> rs[i].timestamp > 0.0
    ensures var good := rs[..GoodPrefix(lastTs, rs)];
            Sorted(good) && (forall i :: 0 <= i < |good| ==> good[i].timestamp >= lastTs || lastTs <= 0.0)
            && (lastTs >= 0.0 ==> LastTs(lastTs, good) >= lastTs)
            && forall i :: 0 <= i < |good| ==> good[i].timestamp <= LastTs(lastTs, good)
    decreases |rs|
  {
    var g := GoodPrefix(lastTs, rs);
    if g > 0 {
      var tail := rs[1..];
      GoodPrefixSorted(rs[0].timestamp, tail);
      assert rs[..g] == [rs[0]] + tail[..g - 1];
      SortedCons(rs[0], tail[..g - 1]);
      hide Sorted;
    }
  }

  lemma SortedCons(r: Record, rs: seq<Record>)
    requires Sorted(rs) && forall i :: 0 <= i < |rs| ==> r.timestamp <= rs[i].timestamp
    ensures Sorted([r] + rs)
  {
  }

  lemma {:induction false} WalkSorted(files: Files, to: DateTime, cur: DateTime, lastTs: real)
    requires PositiveTimes(files) && lastTs >= 0.0
    ensures var w := Walk(files, to, cur, lastTs);
            Sorted(w) && forall i :: 0 <= i < |w| ==> w[i].timestamp >= lastTs
    decreases MonthsLeft(cur, to)
  {
    if Before(cur, to) {
      hide GoodPrefix;
      var rs := if Lookup(files, cur).Some? then Lookup(files, cur).value.records else [];
      assert forall i :: 0 <= i < |rs| ==> rs[i].timestamp > 0.0;
      GoodPrefixSorted(lastTs, rs);
      var good := rs[..GoodPrefix(lastTs, rs)];
      if Follows(files, cur, to) {
        WalkSorted(files, to, NextMonth(cur), LastTs(lastTs, good));
      }
    }
  }

  lemma PlainKeepsTimes(rs: seq<Record>)
    ensures Sorted(Plain(rs)) <==> Sorted(rs)
  {
    assert forall i :: 0 <= i < |rs| ==> Plain(rs)[i].timestamp == rs[i].timestamp;
  }

  /** Chunked reading refines filtering. From a fresh stream, over any calls and for any chunk size,
      the ticks delivered are exactly those of the walked months with fromTs <= timestamp <= the
      latest call, clipped to toTs, in order. */
  lemma StreamIsFilter(files: Files, from: DateTime, to: DateTime, n: nat, fromTs: real, toTs: real, calls: seq<real>)
    requires n >= 1 && PositiveTimes(files) && calls != [] && EndsClean(files, to, n, from)
    ensures Plain(Calls(ReadAhead(files, to, n, from, None, 0.0), false, fromTs, toTs, calls))
         == Filter(Plain(Walk(files, to, from, 0.0)), fromTs, Min(toTs, Latest(calls)))
  {
    hide ReadAhead, Walk, Filter, Plain, Calls, BrokenTail;
    var a := ReadAhead(files, to, n, from, None, 0.0);
    ReadAheadIsWalk(files, to, n, from, 0.0);
    assert a.dying == [] && a.sure + a.dying == a.sure;
    WalkSorted(files, to, from, 0.0);
    PlainKeepsTimes(a.sure);
    PlainKeepsTimes(Walk(files, to, from, 0.0));
    CallsFilter(a, fromTs, toTs, calls);
    FilterPlain(a.sure, fromTs, Min(toTs, Latest(calls)));
  }

  lemma PlainLength(rs: seq<Record>)
    ensures |Plain(rs)| == |rs|
  {
  }

  // ---- Sorted months ----

  predicate EarlierMonth(m: (int, int), k: (int, int)) { m.0 < k.0 || (m.0 == k.0 && m.1 < k.1) }

  /** Every record of `m` comes before, or with, every record of `k`. */
  predicate NotAfter(m: File, k: File) {
    forall i, j :: 0 <= i < |m.records| && 0 <= j < |k.records| ==> m.records[i].timestamp <= k.records[j].timestamp
  }

  /** Each file is sorted, and so are the files among themselves. */
  predicate InOrder(files: Files) {
    && (forall m :: m in files ==> Sorted(files[m].records))
    && (forall m, k :: m in files && k in files && EarlierMonth(m, k) ==> NotAfter(files[m], files[k]))
  }

  /** The whole files of the walked months. */
  function Months(files: Files, to: DateTime, cur: DateTime): seq<Record>
    decreases MonthsLeft(cur, to)
  {
    if !Before(cur, to) then []
    else
      (if Lookup(files, cur).Some? then Lookup(files, cur).value.records else [])
      + if Follows(files, cur, to) then Months(files, to, NextMonth(cur)) else []
  }

  /** No file from `cur` on has a record before `lastTs`. */
  predicate Reached(files: Files, cur: DateTime, lastTs: real) {
    forall m :: m in files && !EarlierMonth(m, (cur.year, cur.month)) ==>
                  forall j :: 0 <= j < |files[m].records| ==> lastTs <= files[m].records[j].timestamp
  }

  lemma {:induction false} GoodPrefixWhole(lastTs: real, rs: seq<Record>)
    requires Sorted(rs) && (rs != [] ==> lastTs <= rs[0].timestamp)
    ensures GoodPrefix(lastTs, rs) == |rs|
    decreases |rs|
  {
    if rs != [] { GoodPrefixWhole(rs[0].timestamp, rs[1..]); }
  }

  lemma ReachedNext(files: Files, cur: DateTime, lastTs: real)
    requires InOrder(files) && Reached(files, cur, lastTs)
    ensures var rs := if Lookup(files, cur).Some? then Lookup(files, cur).value.records else [];
            Reached(files, NextMonth(cur), LastTs(lastTs, rs))
  {
    hide Sorted;
    var here := (cur.year, cur.month);
    forall m | m in files && !EarlierMonth(m, (NextMonth(cur).year, NextMonth(cur).month))
      ensures !EarlierMonth(m, here)
      ensures here in files ==> NotAfter(files[here], files[m])
    {
      assert EarlierMonth(here, m);
    }
  }

  lemma {:induction false} SortedMonthsWalkWhole(files: Files, to: DateTime, n: nat, cur: DateTime, lastTs: real)
    requires n >= 1 && InOrder(files) && Reached(files, cur, lastTs)
    ensures Walk(files, to, cur, lastTs) == Months(files, to, cur)
    ensures BrokenTail(files, to, n, cur, lastTs) == 0
    decreases MonthsLeft(cur, to)
  {
    if Before(cur, to) {
      var rs := if Lookup(files, cur).Some? then Lookup(files, cur).value.records else [];
      GoodPrefixWhole(lastTs, rs);
      assert rs[..|rs|] == rs;
      ReachedNext(files, cur, lastTs);
      hide InOrder, Reached, GoodPrefix, LastTs;
      if Follows(files, cur, to) {
        SortedMonthsWalkWhole(files, to, n, NextMonth(cur), LastTs(lastTs, rs));
      }
    }
  }

  /** On sorted month files the stream is a plain filter of the whole files of the walked months. */
  lemma SortedMonthsAreFiltered(files: Files, from: DateTime, to: DateTime, n: nat, fromTs: real, toTs: real,
                                calls: seq<real>)
    requires n >= 1 && PositiveTimes(files) && InOrder(files) && calls != []
    ensures Plain(Calls(ReadAhead(files, to, n, from, None, 0.0), false, fromTs, toTs, calls))
         == Filter(Plain(Months(files, to, from)), fromTs, Min(toTs, Latest(calls)))
  {
    SortedMonthsWalkWhole(files, to, n, from, 0.0);
    hide ReadAhead, Walk, Filter, Plain, Calls, BrokenTail, Months;
    StreamIsFilter(files, from, to, n, fromTs, toTs, calls);
  }

  /** One call, appending: what it sends, and then what later calls can. */
  method ReadOne(stream: TickStream, timestamp: real, out: seq<Record>, ghost later: seq<real>) returns (filled: seq<Record>)
    requires stream.Valid()
    modifies stream
    ensures stream.Valid()
    ensures filled + Calls(stream.Remaining(), stream.finished, stream.fromTs, stream.toTs, later)
         == out + Calls(old(stream.Remaining()), old(stream.finished), stream.fromTs, stream.toTs, [timestamp] + later)
  {
    hide ReadAhead, Deliver, Calls;
    ghost var ahead, finished := stream.Remaining(), stream.finished;
    var n;
    n, filled := stream.FillNext(timestamp, out);
    CallsHead(ahead, finished, stream.fromTs, stream.toTs, [timestamp] + later);
    assert ([timestamp] + later)[1..] == later;
    ghost var rest := Calls(stream.Remaining(), stream.finished, stream.fromTs, stream.toTs, later);
    NoMoreCalls(stream.Remaining(), stream.fromTs, stream.toTs, later);
    assert filled == out + filled[|out|..];
    Associate(out, filled[|out|..], rest);
  }

  /** One stream object, called once per element of `calls`, always appending. */
  method ReadCalls(stream: TickStream, calls: seq<real>) returns (out: seq<Record>)
    requires stream.Valid()
    modifies stream
    ensures stream.Valid()
    ensures out == Calls(old(stream.Remaining()), old(stream.finished), stream.fromTs, stream.toTs, calls)
  {
    hide ReadAhead, Deliver;
    ghost var goal := Calls(stream.Remaining(), stream.finished, stream.fromTs, stream.toTs, calls);
    out := [];
    assert calls[0..] == calls && [] + goal == goal;
    for i := 0 to |calls|
      invariant stream.Valid()
      invariant out + Calls(stream.Remaining(), stream.finished, stream.fromTs, stream.toTs, calls[i..]) == goal
    {
      hide Calls;
      assert calls[i..] == [calls[i]] + calls[i + 1..];
      out := ReadOne(stream, calls[i], out, calls[i + 1..]);
    }
    assert out + [] == out;
  }

  /** The life of a stream on sorted month files. */
  method ReadTicks(files: Files, from: DateTime, to: DateTime, n: nat, fromTs: real, toTs: real, calls: seq<real>)
    returns (out: seq<Record>)
    requires n >= 1 && PositiveTimes(files) && InOrder(files) && calls != []
    ensures Plain(out) == Filter(Plain(Months(files, to, from)), fromTs, Min(toTs, Latest(calls)))
  {
    SortedMonthsAreFiltered(files, from, to, n, fromTs, toTs, calls);
    hide ReadAhead, Filter, Plain, Months, Calls, PositiveTimes, InOrder, Latest;
    var stream := new TickStream(files, from, to, fromTs, toTs, n);
    out := ReadCalls(stream, calls);
  }

  lemma CallsHead(a: Ahead, finished: bool, fromTs: real, toTs: real, calls: seq<real>)
    requires calls != []
    ensures var d := Deliver(a, fromTs, toTs, calls[0]);
            Calls(a, finished, fromTs, toTs, calls)
            == if finished then [] else d.out + Calls(d.rest, d.finished, fromTs, toTs, calls[1..])
  {
  }
}
