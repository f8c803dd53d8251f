/** The growing candle array: elements are pushed into an allocation that doubles when it is nearly
    full, and clearing keeps the allocation. */
module GrowingArray {
  import opened Basics

  /** What an array shows: its elements, how many it could hold, and how many elements its growths
      have had to save and copy back so far. */
  datatype State<T> = State(contents: seq<T>, capacity: nat, saved: nat)

  function Grown<T>(s: State<T>): State<T> {
    if s.capacity == 0 then State([], 100, s.saved)
    else State(s.contents, 2 * s.capacity, s.saved + |s.contents|)
  }

  /** Growth comes one element early, except on an empty array. */
  predicate MustGrow<T>(s: State<T>) {
    s.capacity == 0 || (s.contents != [] && |s.contents| >= s.capacity - 1)
  }

  function Step<T>(s: State<T>, op: Op<T>): State<T> {
    match op
    case Clear => s.(contents := [])
    case Push(value) =>
      var room := if MustGrow(s) then Grown(s) else s;
      room.(contents := s.contents + [value])
  }

  /** The run of the operations, last one first to unfold. */
  function Run<T>(capacity: nat, ops: seq<Op<T>>): State<T> {
    if ops == [] then State([], capacity, 0)
    else Step(Run(capacity, ops[..|ops| - 1]), ops[|ops| - 1])
  }

  class OhlcArray<T(0)> {
    var data: array<T>
    var size: nat
    ghost var saved: nat

    ghost predicate Valid()
      reads this, data
    {
      size <= data.Length
    }

    ghost function View(): State<T>
      reads this, data
      requires Valid()
    {
      State(data[..size], data.Length, saved)
    }

    constructor (capacity: nat)
      ensures Valid() && fresh(data)
      ensures View() == State([], capacity, 0)
    {
      data := new T[capacity];
      size := 0;
      saved := 0;
    }

    /** Doubles the allocation: the elements are saved in a copy, since the new allocation holds
        nothing of the old one, and copied back to the same positions. */
    method GrowSize()
      requires Valid()
      modifies this
      ensures Valid() && fresh(data)
      ensures View() == Grown(old(View()))
    {
      if data.Length == 0 {
        data := new T[100];
        size := 0;
      } else {
        var copy := new T[size];
        for i := 0 to size
          invariant data == old(data) && size == old(size) == copy.Length && saved == old(saved)
          invariant copy[..i] == data[..i]
        {
          copy[i] := data[i];
        }
        data := new T[2 * data.Length];
        for i := 0 to copy.Length
          modifies data
          invariant size == copy.Length <= data.Length
          invariant data[..i] == copy[..i]
        {
          data[i] := copy[i];
        }
        assert data[..size] == copy[..] == old(data[..size]);
        saved := saved + size;
      }
    }

    method Clear()
      requires Valid()
      modifies this`size
      ensures Valid() && View() == Step(old(View()), Op<T>.Clear)
    {
      size := 0;
    }

    method Push(value: T)
      requires Valid()
      modifies this, data
      ensures Valid() && (data == old(data) || fresh(data))
      ensures View() == Step(old(View()), Op.Push(value))
    {
      var t := size;
      if size == 0 && data.Length == 0 {
        GrowSize();
      } else if size > 0 && t >= data.Length - 1 {
        GrowSize();
      }
      assert size == t < data.Length;
      size := t + 1;
      data[t] := value;
      assert data[..size] == old(data[..size]) + [value];
    }

    /** Any run of pushes and clears from a fresh array. */
    method Perform(ops: seq<Op<T>>)
      requires Valid() && View() == State([], data.Length, 0)
      modifies this, data
      ensures Valid() && View() == Run(old(data.Length), ops)
    {
      ghost var capacity := data.Length;
      for i := 0 to |ops|
        invariant Valid() && (data == old(data) || fresh(data))
        invariant View() == Run(capacity, ops[..i])
      {
        assert ops[..i + 1][..i] == ops[..i];
        match ops[i]
        case Push(value) => Push(value);
        case Clear => Clear();
      }
      assert ops[..|ops|] == ops;
    }
  }

  // ---- What a run leaves ----

  function Pushes<T>(ops: seq<Op<T>>): nat {
    if ops == [] then 0
    else Pushes(ops[..|ops| - 1]) + if ops[|ops| - 1].Push? then 1 else 0
  }

  /** The most elements the array has held at once. */
  function Peak<T>(ops: seq<Op<T>>): nat {
    if ops == [] then 0 else MaxInt(Peak(ops[..|ops| - 1]), |SinceClear(ops)|)
  }

  /** The array holds the pushes since the last clear, within its allocation, which never shrinks. */
  lemma {:induction false} HoldsPushesSinceClear<T>(capacity: nat, ops: seq<Op<T>>)
    ensures Run(capacity, ops).contents == SinceClear(ops)
    ensures |Run(capacity, ops).contents| <= Run(capacity, ops).capacity
    ensures capacity <= Run(capacity, ops).capacity
  {
    if ops != [] {
      HoldsPushesSinceClear(capacity, ops[..|ops| - 1]);
    }
  }

  lemma {:induction false} PeakIsReached<T>(ops: seq<Op<T>>)
    ensures |SinceClear(ops)| <= Peak(ops) <= Pushes(ops)
    ensures |SinceClear(ops)| <= Pushes(ops)
  {
    if ops != [] { PeakIsReached(ops[..|ops| - 1]); }
  }

  /** The first allocation a run makes, or has. */
  function Base(capacity: nat): nat { if capacity == 0 then 100 else capacity }

  /** All the copying of a run is paid by the growth of the allocation. */
  lemma {:induction false} SavedWithinGrowth<T>(capacity: nat, ops: seq<Op<T>>)
    ensures var s := Run(capacity, ops);
            if s.capacity == 0 then s.saved == 0 && Pushes(ops) == 0
            else s.saved + Base(capacity) <= s.capacity
  {
    if ops != [] {
      SavedWithinGrowth(capacity, ops[..|ops| - 1]);
      HoldsPushesSinceClear(capacity, ops[..|ops| - 1]);
    }
  }

  /** The allocation never exceeds twice the most elements held at once, or the first allocation. */
  lemma {:induction false} CapacityWithinTwicePeak<T>(capacity: nat, ops: seq<Op<T>>)
    ensures Run(capacity, ops).capacity <= MaxInt(Base(capacity), 2 * Peak(ops))
  {
    if ops != [] {
      var before := ops[..|ops| - 1];
      CapacityWithinTwicePeak(capacity, before);
      HoldsPushesSinceClear(capacity, before);
      HoldsPushesSinceClear(capacity, ops);
    }
  }

  /** Amortised cost: a run that pushes saves fewer elements than twice the most it held at once, so
      fewer than twice its pushes, whatever the clears. */
  lemma GrowthIsAmortised<T>(capacity: nat, ops: seq<Op<T>>)
    requires Pushes(ops) > 0
    ensures Run(capacity, ops).saved < 2 * Peak(ops) <= 2 * Pushes(ops)
  {
    SavedWithinGrowth(capacity, ops);
    CapacityWithinTwicePeak(capacity, ops);
    PeakIsReached(ops);
    PushesReachPeak(ops);
  }

  lemma {:induction false} PushesReachPeak<T>(ops: seq<Op<T>>)
    requires Pushes(ops) > 0
    ensures Peak(ops) > 0
  {
    if ops[|ops| - 1].Clear? { PushesReachPeak(ops[..|ops| - 1]); }
  }

  /** Room is made one element early: after every operation one slot at least is free, unless the array was made
      for one element and holds one or two. */
  lemma {:induction false} OneSlotIsFree<T>(capacity: nat, ops: seq<Op<T>>)
    ensures var s := Run(capacity, ops);
            |s.contents| < s.capacity || s.contents == [] || (capacity == 1 && |s.contents| == s.capacity <= 2)
    ensures Run(capacity, ops).capacity == 0 || Run(capacity, ops).capacity >= Base(capacity)
  {
    if ops != [] {
      OneSlotIsFree(capacity, ops[..|ops| - 1]);
      HoldsPushesSinceClear(capacity, ops[..|ops| - 1]);
    }
  }

  /** A push finds room unless nothing is allocated, or the array holds elements and at most one slot is free. */
  lemma GrowsIff<T>(capacity: nat, ops: seq<Op<T>>, value: T)
    ensures var n, c := |SinceClear(ops)|, Run(capacity, ops).capacity;
            Run(capacity, ops + [Push(value)]).capacity == c <==> c > 0 && (n == 0 || n + 1 < c)
  {
    HoldsPushesSinceClear(capacity, ops);
    assert (ops + [Push(value)])[..|ops|] == ops;
  }
}
