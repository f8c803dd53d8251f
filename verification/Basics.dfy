/** What several modules share: an optional value, ends of sequences, extremes, the length of a day,
    and runs that add elements or clear them. */
module Basics {

  datatype Option<+T> = None | Some(value: T)

  const DAY := 86_400_000  // milliseconds

  function Max(x: real, y: real): real { if x >= y then x else y }

  function Min(x: real, y: real): real { if x <= y then x else y }

  function Abs(x: real): real { if x < 0.0 then -x else x }

  function MaxInt(x: int, y: int): int { if x >= y then x else y }

  function MinInt(x: int, y: int): int { if x <= y then x else y }

  function Last<T>(s: seq<T>): T
    requires s != []
  {
    s[|s| - 1]
  }

  function Front<T>(s: seq<T>): seq<T>
    requires s != []
  {
    s[..|s| - 1]
  }

  function Sum(xs: seq<real>): real {
    if xs == [] then 0.0 else Sum(Front(xs)) + Last(xs)
  }

  lemma Associate<T>(a: seq<T>, b: seq<T>, c: seq<T>)
    ensures a + (b + c) == a + b + c
  {
  }

  datatype Op<+T> = Push(value: T) | Clear

  /** The elements pushed since the last clear. */
  function SinceClear<T>(ops: seq<Op<T>>): seq<T> {
    if ops == [] || Last(ops).Clear? then []
    else SinceClear(Front(ops)) + [Last(ops).value]
  }
}
