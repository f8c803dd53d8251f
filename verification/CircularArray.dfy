/** The circular array of doubles: three positions in a fixed buffer stand for the last values
    appended. Pointers into the buffer are indices, and the null pointer of the iterator is None. */
module CircularArray {
  import opened Basics

  /** The last `n` elements of `s`, or all of them. */
  function LastN<T>(n: nat, s: seq<T>): seq<T> {
    if |s| <= n then s else s[|s| - n..]
  }

  function Rotated<T>(s: seq<T>, k: nat): seq<T>
    requires k <= |s|
  {
    s[k..] + s[..k]
  }

  /** Writing over the oldest element and moving on rotates the sequence by one. */
  lemma RotatedAppend<T>(s: seq<T>, k: nat, v: T)
    requires k < |s|
    ensures Rotated(s[k := v], if k + 1 == |s| then 0 else k + 1) == LastN(|s|, Rotated(s, k) + [v])
  {
  }

  lemma PrefixAppend<T>(s: seq<T>, k: nat, v: T)
    requires k < |s|
    ensures s[k := v][..k + 1] == s[..k] + [v] == LastN(|s|, s[..k] + [v])
    ensures k + 1 == |s| ==> Rotated(s[k := v], 0) == s[..k] + [v]
  {
  }

  class DataCircular {
    var data: array<real>
    var first: nat
    var last: nat
    var count: nat

    ghost predicate Valid()
      reads this
    {
      data.Length > 1
      && if count < data.Length then first == 0 && last == count
         else count == data.Length && first == last < data.Length
    }

    /** The values held, oldest first. */
    ghost function Contents(): (s: seq<real>)
      requires Valid()
      reads this, data
      ensures |s| == count
    {
      if Full() then Rotated(data[..], first) else data[..count]
    }

    constructor (size: nat)
      requires size > 1
      ensures Valid() && fresh(data) && Capacity() == size && Contents() == []
    {
      data := new real[size];
      first, last, count := 0, 0, 0;
    }

    function Capacity(): nat
      reads this
    {
      data.Length
    }

    function Full(): bool
      reads this
    {
      count == data.Length
    }

    /** One position further, wrapping at the end of the buffer. */
    function Increment(p: nat): nat
      reads this
    {
      if p + 1 == data.Length then 0 else p + 1
    }

    method Clear()
      requires Valid()
      modifies this`first, this`last, this`count, data
      ensures Valid() && Contents() == []
    {
      first, last := 0, 0;
      count := 0;
      data[first] := 0.0;
    }

    /** A change of capacity empties the array; the same capacity keeps it. */
    method SetSize(newSize: nat)
      requires Valid() && newSize > 1
      modifies this
      ensures Valid() && Capacity() == newSize
      ensures if newSize == old(Capacity()) then data == old(data) && Contents() == old(Contents())
              else fresh(data) && Contents() == []
    {
      if newSize != data.Length {
        data := new real[newSize];
        first, last, count := 0, 0, 0;
      }
    }

    method Append(v: real)
      requires Valid()
      modifies this`first, this`last, this`count, data
      ensures Valid()
      ensures Contents() == LastN(Capacity(), old(Contents()) + [v])
    {
      var res := last;
      if Full() {
        last := Increment(last);
        first := last;
      } else {
        last := Increment(last);
        count := count + 1;
      }
      data[res] := v;
      assert data[..] == old(data[..])[res := v];
      RotatedAppend(old(data[..]), res, v);
      PrefixAppend(old(data[..]), res, v);
      assert data[..count] == data[..][..count] && old(data[..count]) == old(data[..])[..old(count)];
    }

    method Front() returns (v: real)
      requires Valid() && count > 0
      ensures v == Contents()[0]
    {
      v := data[first];
    }

    method Back() returns (v: real)
      requires Valid() && count > 0
      ensures v == Contents()[count - 1]
    {
      if last > first {
        v := data[last - 1];
      } else if last > 0 {
        v := data[last - 1];
      } else {
        v := data[count - 1];
      }
    }

    // ---- Iteration ----

    function Begin(): Option<nat>
      reads this
    {
      if count > 0 then Some(first) else None
    }

    /** The increment of the iterator. */
    function Next(p: nat): Option<nat>
      reads this
    {
      if !Full() && p == last then None
      else if p + 1 == last then None
      else if p + 1 == data.Length then (if last == 0 then None else Some(0))
      else Some(p + 1)
    }

    /** The buffer position of the `k`-th oldest value. */
    function Position(k: nat): nat
      requires Valid() && k < count
      reads this
    {
      if first + k < data.Length then first + k else first + k - data.Length
    }

    lemma PositionHolds(k: nat)
      requires Valid() && k < count
      ensures Position(k) < data.Length && data[Position(k)] == Contents()[k]
    {
    }

    /** The iterator visits the positions in order and stops after exactly `count` of them. */
    lemma IteratorVisitsInOrder(k: nat)
      requires Valid() && k < count
      ensures Position(0) == first
      ensures Next(Position(k)) == if k + 1 < count then Some(Position(k + 1)) else None
    {
    }

    /** A loop from `cbegin` to `cend`. */
    method Collect() returns (out: seq<real>)
      requires Valid()
      ensures out == Contents()
    {
      hide Next, Position, Contents;
      out := [];
      var p := Begin();
      if count > 0 {
        IteratorVisitsInOrder(0);
      }
      while p.Some?
        invariant |out| <= count && out == Contents()[..|out|]
        invariant p == if |out| < count then Some(Position(|out|)) else None
        decreases count - |out|
      {
        ghost var k := |out|;
        PositionHolds(k);
        IteratorVisitsInOrder(k);
        out := out + [data[p.value]];
        assert Contents()[..k + 1] == Contents()[..k] + [Contents()[k]];
        p := Next(p.value);
      }
      assert Contents()[..count] == Contents();
    }

    // ---- Conversion to a linear array ----

    /** A block copy from the buffer to `out`. */
    method CopyBlock(out: array<real>, at: nat, from: nat, n: nat)
      requires out != data && at + n <= out.Length && from + n <= data.Length
      modifies out
      ensures out[..at] == old(out[..at]) && out[at..at + n] == data[from..from + n]
      ensures out[at + n..] == old(out[at + n..])
    {
      for i := 0 to n
        invariant out[..at] == old(out[..at]) && out[at..at + i] == data[from..from + i]
        invariant out[at + i..] == old(out[at + i..])
      {
        out[at + i] := data[from + i];
        assert out[at..at + i + 1] == out[at..at + i] + [out[at + i]];
      }
    }

    /** Copies the contents to `out`, resized first when it has another size. */
    method FillArray(out: array<real>) returns (filled: array<real>)
      requires Valid() && out != data
      modifies out
      ensures filled[..] == Contents()
      ensures if out.Length == count then filled == out else fresh(filled) && out[..] == old(out[..])
    {
      filled := out;
      if out.Length != count {
        filled := new real[count];
      }
      CopyContents(filled);
    }

    /** One or two block copies. */
    method CopyContents(out: array<real>)
      requires Valid() && out != data && out.Length == count
      modifies out
      ensures out[..] == Contents()
    {
      if last > first {
        CopyBlock(out, 0, first, count);
      } else if last > 0 {
        var ofs := data.Length - first;
        CopyBlock(out, 0, first, ofs);
        assert out[..ofs] == data[first..];
        CopyBlock(out, ofs, 0, count - ofs);
        assert out[ofs..] == data[..first];
        assert out[..] == out[..ofs] + out[ofs..];
      } else {
        CopyBlock(out, 0, 0, count);
      }
    }

    method AsArray() returns (out: array<real>)
      requires Valid()
      ensures fresh(out) && out[..] == Contents()
    {
      out := new real[count];
      CopyContents(out);
    }
  }

  // ---- Whole runs ----

  function ContentsAfter(capacity: nat, ops: seq<Op<real>>): seq<real> {
    if ops == [] then []
    else
      match ops[|ops| - 1]
      case Clear => []
      case Push(v) => LastN(capacity, ContentsAfter(capacity, ops[..|ops| - 1]) + [v])
  }

  lemma LastNAppend<T>(n: nat, s: seq<T>, v: T)
    ensures LastN(n, LastN(n, s) + [v]) == LastN(n, s + [v])
  {
  }

  /** Any run of appends and clears leaves the last `capacity` values appended since the last clear. */
  lemma {:induction false} CircularIsLastN(capacity: nat, ops: seq<Op<real>>)
    ensures ContentsAfter(capacity, ops) == LastN(capacity, SinceClear(ops))
  {
    if ops != [] {
      var front := ops[..|ops| - 1];
      CircularIsLastN(capacity, front);
      if ops[|ops| - 1].Push? {
        LastNAppend(capacity, SinceClear(front), ops[|ops| - 1].value);
      }
    }
  }

  /** The object does what the run says. */
  method Perform(c: DataCircular, ops: seq<Op<real>>)
    requires c.Valid() && c.Contents() == []
    modifies c, c.data
    ensures c.Valid() && c.data == old(c.data)
    ensures c.Contents() == LastN(c.Capacity(), SinceClear(ops))
  {
    for i := 0 to |ops|
      invariant c.Valid() && c.data == old(c.data)
      invariant c.Contents() == ContentsAfter(c.Capacity(), ops[..i])
    {
      assert ops[..i + 1][..i] == ops[..i];
      match ops[i]
      case Push(v) => c.Append(v);
      case Clear => c.Clear();
    }
    assert ops[..|ops|] == ops;
    CircularIsLastN(c.Capacity(), ops);
  }
}
