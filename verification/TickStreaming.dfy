/** The chunked reader over monthly binary tick files. A file is a sequence of whole records
    followed by fewer than 41 stray bytes; the stream walks the months from `from` to `to`. */
module TickStreaming {
  import opened Basics

  const TICK_STORED_SIZE := 41

  datatype Record = Record(timestamp: real, bid: real, ask: real, last: real, volume: real, side: int)

  datatype MonthFile = MonthFile(records: seq<Record>, stray: nat)

  type File = f: MonthFile | f.stray < TICK_STORED_SIZE witness MonthFile([], 0)

  /** A date and time: the year, the month 1 to 12, and the time elapsed in that month. */
  datatype RawDateTime = DateTime(year: int, month: int, elapsed: nat)

  type DateTime = d: RawDateTime | 1 <= d.month <= 12 witness DateTime(1970, 1, 0)

  type Files = map<(int, int), File>

  predicate Before(a: DateTime, b: DateTime) {
    a.year < b.year
    || (a.year == b.year && (a.month < b.month || (a.month == b.month && a.elapsed < b.elapsed)))
  }

  function NextMonth(d: DateTime): DateTime {
    if d.month == 12 then DateTime(d.year + 1, 1, 0) else DateTime(d.year, d.month + 1, 0)
  }

  function MonthsLeft(cur: DateTime, to: DateTime): nat {
    if Before(cur, to) then (to.year * 12 + to.month) - (cur.year * 12 + cur.month) + 1 else 0
  }

  function Lookup(files: Files, d: DateTime): Option<File> {
    if (d.year, d.month) in files then Some(files[(d.year, d.month)]) else None
  }

  function Bytes(f: File): nat { |f.records| * TICK_STORED_SIZE + f.stray }

  // ---- Specification: what is still to be read ----

  /** Number of leading records that keep the timestamps from going back. */
  function GoodPrefix(lastTs: real, rs: seq<Record>): (k: nat)
    ensures k <= |rs|
    decreases rs
  {
    if rs == [] || (lastTs > 0.0 && rs[0].timestamp < lastTs) then 0
    else 1 + GoodPrefix(rs[0].timestamp, rs[1..])
  }

  function LastTs(lastTs: real, rs: seq<Record>): real {
    if rs == [] then lastTs else rs[|rs| - 1].timestamp
  }

  /** The records of a chunk as they land in the buffer: all take the side of the first one. */
  function Loaded(chunk: seq<Record>): seq<Record> {
    seq(|chunk|, i requires 0 <= i < |chunk| => chunk[i].(side := chunk[0].side))
  }

  function Take(n: nat, rs: seq<Record>): seq<Record> {
    if |rs| < n then rs else rs[..n]
  }

  function Rest(n: nat, f: File): File {
    if |f.records| < n then MonthFile([], 0) else MonthFile(f.records[n..], f.stray)
  }

  /** Records still to come. The stream stops in the middle of `dying`: that chunk was cut
      by a broken record with no month to follow, and only its first record is looked at. */
  datatype Ahead = Ahead(sure: seq<Record>, dying: seq<Record>)

  function Prepend(rs: seq<Record>, a: Ahead): Ahead { Ahead(rs + a.sure, a.dying) }

  function Source(files: Files, cur: DateTime, file: Option<File>): Option<File> {
    if file.Some? then file else Lookup(files, cur)
  }

  function BytesLeft(files: Files, cur: DateTime, file: Option<File>): nat {
    var f := Source(files, cur, file);
    if f.None? then 0 else Bytes(f.value)
  }

  predicate Follows(files: Files, cur: DateTime, to: DateTime) {
    Before(NextMonth(cur), to) && Lookup(files, NextMonth(cur)).Some?
  }

  function ReadAhead(files: Files, to: DateTime, n: nat, cur: DateTime, file: Option<File>, lastTs: real): Ahead
    requires n >= 1
    decreases MonthsLeft(cur, to), BytesLeft(files, cur, file)
  {
    if !Before(cur, to) then Ahead([], [])
    else
      var f := Source(files, cur, file);
      if f.None? || Bytes(f.value) == 0 then
        if Follows(files, cur, to) then
          ReadAhead(files, to, n, NextMonth(cur), Lookup(files, NextMonth(cur)), lastTs)
        else Ahead([], [])
      else
        var chunk := Take(n, f.value.records);
        var good := GoodPrefix(lastTs, chunk);
        var got := Loaded(chunk)[..good];
        if good == |chunk| then
          Prepend(got, ReadAhead(files, to, n, cur, Some(Rest(n, f.value)), LastTs(lastTs, got)))
        else if Follows(files, cur, to) then
          Prepend(got, ReadAhead(files, to, n, NextMonth(cur), Lookup(files, NextMonth(cur)), LastTs(lastTs, got)))
        else Ahead([], got)
  }

  datatype Delivery = Delivery(out: seq<Record>, rest: Ahead, finished: bool)

  predicate Within(r: Record, lo: real, hi: real) { lo <= r.timestamp <= hi }

  /** One call: everything up to `timestamp`, clipped to the range of the stream. */
  function Deliver(a: Ahead, fromTs: real, toTs: real, timestamp: real): Delivery
    decreases |a.sure|
  {
    if a.sure == [] then
      Delivery(if a.dying != [] && Within(a.dying[0], fromTs, Min(toTs, timestamp)) then [a.dying[0]] else [],
               Ahead([], []), true)
    else
      var r := a.sure[0];
      var later := Ahead(a.sure[1..], a.dying);
      if r.timestamp < fromTs then Deliver(later, fromTs, toTs, timestamp)
      else if r.timestamp > toTs then Delivery([], Ahead([], []), true)
      else if r.timestamp <= timestamp then
        var d := Deliver(later, fromTs, toTs, timestamp);
        d.(out := [r] + d.out)
      else Delivery([], a, false)
  }

  function Send(sent: seq<Record>, d: Delivery): Delivery { d.(out := sent + d.out) }

  lemma SendSend(xs: seq<Record>, ys: seq<Record>, d: Delivery)
    ensures Send(xs, Send(ys, d)) == Send(xs + ys, d)
    ensures Send([], d) == d
  {
    assert xs + (ys + d.out) == (xs + ys) + d.out;
  }

  lemma SendLast(xs: seq<Record>, ys: seq<Record>, a: Ahead, finished: bool)
    ensures Send(xs, Delivery(ys, a, finished)) == Delivery(xs + ys, a, finished)
  {
  }

  /** What a call does with the next record. */
  lemma DeliverHead(a: Ahead, fromTs: real, toTs: real, timestamp: real)
    ensures a.sure == [] ==>
              Deliver(a, fromTs, toTs, timestamp)
              == Delivery(if a.dying != [] && Within(a.dying[0], fromTs, Min(toTs, timestamp)) then [a.dying[0]] else [],
                          Ahead([], []), true)
    ensures a.sure != [] ==>
              var r, later := a.sure[0], Ahead(a.sure[1..], a.dying);
              Deliver(a, fromTs, toTs, timestamp)
              == if r.timestamp < fromTs then Deliver(later, fromTs, toTs, timestamp)
                 else if r.timestamp > toTs then Delivery([], Ahead([], []), true)
                 else if r.timestamp <= timestamp then Send([r], Deliver(later, fromTs, toTs, timestamp))
                 else Delivery([], a, false)
  {
  }

  // ---- The stream object ----

  class TickStream {
    const files: Files
    const to: DateTime
    const fromTs: real
    const toTs: real
    const bufferSize: nat

    var cur: DateTime
    var lastTs: real
    var buffer: seq<Record>
    var ofs: nat
    var finished: bool
    var file: Option<File>

    ghost predicate Valid()
      reads this
    {
      bufferSize >= 1 && ofs <= |buffer|
    }

    ghost function Unread(): Ahead
      requires Valid()
      reads this
    {
      ReadAhead(files, to, bufferSize, cur, file, lastTs)
    }

    /** All that later calls can still deliver. */
    ghost function Remaining(): Ahead
      requires Valid()
      reads this
    {
      if finished then Ahead([], []) else Prepend(buffer[ofs..], Unread())
    }

    constructor (files: Files, from: DateTime, to: DateTime, fromTs: real, toTs: real, bufferSize: nat)
      requires bufferSize >= 1
      ensures Valid() && !finished
      ensures this.fromTs == fromTs && this.toTs == toTs
      ensures Remaining() == ReadAhead(files, to, bufferSize, from, None, 0.0)
    {
      this.files, this.to, this.fromTs, this.toTs, this.bufferSize := files, to, fromTs, toTs, bufferSize;
      cur, lastTs, buffer, ofs, finished, file := from, 0.0, [], 0, false, None;
      new;
      assert buffer[ofs..] == [];
    }

    method Open()
      modifies this`file
      ensures file == Source(files, cur, old(file))
    {
      if file.Some? {
        return;
      }
      if (cur.year, cur.month) in files {
        file := Some(files[(cur.year, cur.month)]);
      }
    }

    /** Copies the records of a chunk up to the first one that goes back in time. */
    method LoadChunk(chunk: seq<Record>) returns (broken: bool)
      requires buffer == []
      modifies this`lastTs, this`buffer
      ensures buffer == Loaded(chunk)[..GoodPrefix(old(lastTs), chunk)]
      ensures lastTs == LastTs(old(lastTs), buffer)
      ensures broken <==> GoodPrefix(old(lastTs), chunk) < |chunk|
    {
      for i := 0 to |chunk|
        invariant buffer == Loaded(chunk)[..i] && lastTs == LastTs(old(lastTs), buffer)
        invariant GoodPrefix(old(lastTs), chunk) == i + GoodPrefix(lastTs, chunk[i..])
      {
        if lastTs > 0.0 && chunk[i].timestamp < lastTs {
          return true;
        }
        assert chunk[i..][1..] == chunk[i + 1..];
        lastTs := chunk[i].timestamp;
        buffer := buffer + [chunk[i].(side := chunk[0].side)];
      }
      return false;
    }

    /** Reads one chunk of the open file; says whether the file is done with. */
    method ReadChunk() returns (fileEnd: bool)
      requires Valid() && buffer == [] && file.Some?
      modifies this`lastTs, this`buffer, this`file
      ensures var f := old(file).value;
              var chunk := Take(bufferSize, f.records);
              buffer == Loaded(chunk)[..GoodPrefix(old(lastTs), chunk)]
              && file == Some(Rest(bufferSize, f))
              && (fileEnd <==> Bytes(f) == 0 || GoodPrefix(old(lastTs), chunk) < |chunk|)
              && (Bytes(f) > 0 ==> Bytes(file.value) < Bytes(f))
              && (Bytes(f) == 0 ==> buffer == [])
      ensures lastTs == LastTs(old(lastTs), buffer)
    {
      var f := file.value;
      var n := if |f.records| < bufferSize then Bytes(f) else bufferSize * TICK_STORED_SIZE;
      file := Some(Rest(bufferSize, f));
      var broken := LoadChunk(Take(bufferSize, f.records));
      if broken {
        n := 0;
      }
      fileEnd := n <= 0;
    }

    method AdvanceMonth()
      modifies this`cur, this`file, this`finished
      ensures cur == NextMonth(old(cur))
      ensures if Follows(files, old(cur), to) then file == Lookup(files, cur) && finished == old(finished)
              else file == None && finished
    {
      file := None;
      cur := NextMonth(cur);
      if Before(cur, to) {
        Open();
      }
      if file.None? {
        finished := true;
      }
    }

    /** Reads one chunk into the empty buffer, or moves to the next month. */
    method Bufferize()
      requires Valid() && !finished && buffer == [] && ofs == 0
      modifies this`cur, this`lastTs, this`buffer, this`finished, this`file
      ensures Valid()
      ensures !finished ==> Prepend(buffer, Unread()) == old(Unread())
      ensures finished ==> Ahead([], buffer) == old(Unread())
      ensures !finished ==>
                MonthsLeft(cur, to) < old(MonthsLeft(cur, to))
                || (MonthsLeft(cur, to) == old(MonthsLeft(cur, to))
                    && BytesLeft(files, cur, file) < old(BytesLeft(files, cur, file)))
    {
      hide GoodPrefix, Loaded, Take, Rest, Bytes;
      if Before(cur, to) {
        var fileEnd := false;
        if file.None? {
          Open();
        }
        if file.Some? {
          fileEnd := ReadChunk();
        } else {
          fileEnd := true;
        }
        if fileEnd {
          AdvanceMonth();
        }
      } else {
        finished := true;
      }
      assert buffer == [] ==> Prepend(buffer, Unread()) == Unread();
    }

    /** The parse of the next bulk of data when the end of the buffer is reached. */
    method Refill()
      requires Valid() && !finished
      modifies this
      ensures Valid()
      ensures !finished ==> Remaining() == old(Remaining())
      ensures |buffer| > 0 ==> ofs < |buffer|
      ensures finished ==> ofs == 0 && old(Remaining()) == Ahead([], buffer)
      ensures !finished ==>
                MonthsLeft(cur, to) < old(MonthsLeft(cur, to))
                || (MonthsLeft(cur, to) == old(MonthsLeft(cur, to))
                    && (BytesLeft(files, cur, file) < old(BytesLeft(files, cur, file))
                        || (unchanged(`cur, `file, `buffer, `ofs) && ofs < |buffer|)))
    {
      hide ReadAhead;
      if ofs >= |buffer| {
        buffer, ofs := [], 0;
        assert old(Remaining()) == Prepend([], Unread()) == Unread();
        Bufferize();
        assert buffer[0..] == buffer;
      }
    }

    /** What this call still has to deal with; a finishing stream looks at its buffer once more. */
    ghost function Pending(): Ahead
      requires Valid()
      reads this
    {
      if finished then Ahead([], buffer[ofs..]) else Remaining()
    }

    /** Looks at the next record: skips it, sends it, or stops. */
    method Consume(timestamp: real) returns (sent: seq<Record>, stop: bool)
      requires Valid() && ofs < |buffer|
      modifies this`ofs, this`finished, this`file
      ensures Valid() && ofs <= old(ofs) + 1
      ensures !stop ==> ofs == old(ofs) + 1 && finished == old(finished) && file == old(file)
      ensures stop ==> sent == []
      ensures var goal := Deliver(old(Pending()), fromTs, toTs, timestamp);
              goal == if finished then Delivery(sent, Ahead([], []), true)
                      else if stop then Delivery([], Remaining(), false)
                      else Send(sent, Deliver(Remaining(), fromTs, toTs, timestamp))
    {
      hide ReadAhead, Deliver;
      DeliverHead(Pending(), fromTs, toTs, timestamp);
      ghost var later := Ahead(buffer[ofs + 1..] + Unread().sure, Unread().dying);
      assert !finished ==> Pending().sure == [buffer[ofs]] + later.sure && Pending().sure[1..] == later.sure;
      SendSend([], [], Deliver(later, fromTs, toTs, timestamp));
      sent, stop := [], false;
      if buffer[ofs].timestamp < fromTs {
        ofs := ofs + 1;
      } else if buffer[ofs].timestamp > toTs {
        finished := true;
        file := None;
        stop := true;
      } else if buffer[ofs].timestamp <= timestamp {
        sent := [buffer[ofs]];
        ofs := ofs + 1;
      } else {
        stop := true;
      }
    }

    /** One turn of the reading loop. */
    method Turn(timestamp: real) returns (sent: seq<Record>, stop: bool)
      requires Valid() && !finished
      modifies this
      ensures Valid()
      ensures !finished && !stop ==> Shrinks()
      ensures stop ==> sent == []
      ensures Deliver(old(Remaining()), fromTs, toTs, timestamp)
           == if finished then Delivery(sent, Ahead([], []), true)
              else if stop then Delivery([], Remaining(), false)
              else Send(sent, Deliver(Remaining(), fromTs, toTs, timestamp))
    {
      hide ReadAhead, Deliver, MonthsLeft, BytesLeft, Before, Lookup, Source;
      DeliverHead(Remaining(), fromTs, toTs, timestamp);
      Refill();
      if |buffer| == 0 {
        SendSend([], [], Deliver(Remaining(), fromTs, toTs, timestamp));
        return [], false;
      }
      sent, stop := Consume(timestamp);
    }

    /** Fewer months, or fewer bytes, or fewer buffered records are left than before. */
    twostate predicate Shrinks()
      reads this
    {
      MonthsLeft(cur, to) < old(MonthsLeft(cur, to))
      || (MonthsLeft(cur, to) == old(MonthsLeft(cur, to))
          && (BytesLeft(files, cur, file) < old(BytesLeft(files, cur, file))
              || (BytesLeft(files, cur, file) == old(BytesLeft(files, cur, file))
                  && |buffer| - ofs < old(|buffer| - ofs))))
    }

    /** Appends to `out` the ticks up to `timestamp`. */
    method FillNext(timestamp: real, out: seq<Record>) returns (n: nat, filled: seq<Record>)
      requires Valid()
      modifies this
      ensures Valid() && |filled| == |out| + n && filled[..|out|] == out
      ensures old(finished) ==> finished && n == 0
      ensures !old(finished) ==>
                Delivery(filled[|out|..], Remaining(), finished) == Deliver(old(Remaining()), fromTs, toTs, timestamp)
    {
      hide ReadAhead, Deliver, MonthsLeft, BytesLeft, Before, Lookup, Source, Send;
      n, filled := 0, out;
      ghost var goal := Deliver(Remaining(), fromTs, toTs, timestamp);
      ghost var sent: seq<Record> := [];
      SendSend([], [], goal);
      while !finished
        invariant Valid() && filled == out + sent && |sent| == n
        invariant old(finished) ==> finished && n == 0
        invariant !old(finished) ==>
          goal == if finished then Delivery(sent, Ahead([], []), true)
                  else Send(sent, Deliver(Remaining(), fromTs, toTs, timestamp))
        decreases !finished, MonthsLeft(cur, to), BytesLeft(files, cur, file), |buffer| - ofs
      {
        var one, stop := Turn(timestamp);
        SendSend(sent, one, Deliver(Remaining(), fromTs, toTs, timestamp));
        SendLast(sent, one, Remaining(), finished);
        Associate(out, sent, one);
        filled, sent, n := filled + one, sent + one, n + |one|;
        if stop {
          break;
        }
      }
      assert filled[|out|..] == sent;
    }
  }
}
