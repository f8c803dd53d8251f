/** The grids of the candle windows, up to a week: where a window starts, when a candle closes, and which
    windows lie inside which. */
module OhlcGrid {
  import opened Basics
  import opened Arithmetic
  import opened OhlcGeneration

  /** Distance from the grid of a fixed timeframe to the epoch: weeks start on Monday. */
  function Shift(tf: int): int {
    if tf == WEEK then 3 * DAY else 0
  }

  predicate OnGrid(tf: int) { 0 < tf <= WEEK }

  /** Every window of `toTf` is a whole number of windows of `fromTf`. */
  predicate Nested(fromTf: int, toTf: int) {
    OnGrid(fromTf) && OnGrid(toTf) && toTf % fromTf == 0 && (Shift(toTf) - Shift(fromTf)) % fromTf == 0
  }

  lemma SmallTimeframesNest(fromTf: int, toTf: int)
    requires 0 < fromTf < WEEK && 0 < toTf < WEEK && toTf % fromTf == 0
    ensures Nested(fromTf, toTf)
  {
    assert 0 % fromTf == 0;
  }

  function Slot(tf: int, t: int): int
    requires tf > 0
  {
    (t + Shift(tf)) / tf
  }

  lemma BaseTimeOnGrid(tf: int, t: int)
    requires OnGrid(tf) && t >= 0
    ensures BaseTime(tf, t) == Slot(tf, t) * tf - Shift(tf)
    ensures BaseTime(tf, t) <= t < BaseTime(tf, t) + tf
  {
    if tf == WEEK {
      var day := t / DAY;
      assert (t + 3 * DAY) / DAY == day + 3;
      assert (t + 3 * DAY) / WEEK == (day + 3) / 7;
    } else {
      assert t == tf * (t / tf) + t % tf;
    }
  }

  lemma SlotStep(tf: int, k: int, l: int, x: int, y: int)
    requires tf > 0 && k * tf <= x < k * tf + tf && l * tf <= y < l * tf + tf && x <= y
    ensures y >= k * tf + tf <==> l != k
    ensures l != k ==> l * tf >= k * tf + tf
  {
    MulOrder(k + 1, l, tf);
    MulOrder(l + 1, k, tf);
    assert (k + 1) * tf == k * tf + tf && (l + 1) * tf == l * tf + tf;
  }

  /** The closing test is exactly a change of window. */
  lemma ClosingIsChangeOfWindow(tf: int, t: int, u: int)
    requires OnGrid(tf) && 0 <= t <= u
    ensures u >= BaseTime(tf, t) + tf <==> BaseTime(tf, u) != BaseTime(tf, t)
    ensures BaseTime(tf, u) != BaseTime(tf, t) ==> BaseTime(tf, u) >= BaseTime(tf, t) + tf
  {
    hide BaseTime, Slot, Shift;
    BaseTimeOnGrid(tf, t);
    BaseTimeOnGrid(tf, u);
    var k, l := Slot(tf, t), Slot(tf, u);
    SlotStep(tf, k, l, t + Shift(tf), u + Shift(tf));
  }

  /** A small window lies inside one large window. */
  lemma WindowsNest(fromTf: int, toTf: int, t: int)
    requires Nested(fromTf, toTf) && t >= 0 && BaseTime(fromTf, t) >= 0
    ensures BaseTime(toTf, t) <= BaseTime(fromTf, t)
    ensures BaseTime(fromTf, t) + fromTf <= BaseTime(toTf, t) + toTf
    ensures BaseTime(toTf, BaseTime(fromTf, t)) == BaseTime(toTf, t)
  {
    hide BaseTime, Slot, Shift;
    BaseTimeOnGrid(fromTf, t);
    BaseTimeOnGrid(toTf, t);
    var s, b := BaseTime(fromTf, t) + Shift(fromTf), BaseTime(toTf, t) + Shift(fromTf);
    RemainderZero(s, fromTf, Slot(fromTf, t));
    LargeOnSmallGrid(fromTf, toTf, t);
    MultipleGap(s, b, fromTf);
    DivideDifference(b, toTf, fromTf);
    MultipleGap(s, b + toTf, fromTf);
    ClosingIsChangeOfWindow(toTf, BaseTime(fromTf, t), t);
    BaseTimeOnGrid(toTf, BaseTime(fromTf, t));
  }

  lemma LargeOnSmallGrid(fromTf: int, toTf: int, t: int)
    requires Nested(fromTf, toTf) && t >= 0
    ensures (BaseTime(toTf, t) + Shift(fromTf)) % fromTf == 0
  {
    BaseTimeOnGrid(toTf, t);
    var k := Slot(toTf, t);
    var m := toTf / fromTf;
    assert toTf == fromTf * m;
    assert k * toTf == fromTf * (k * m) by {
      assert k * toTf == k * (fromTf * m) == fromTf * (k * m);
    }
    RemainderZero(k * toTf, fromTf, k * m);
    DivideDifference(k * toTf, Shift(toTf) - Shift(fromTf), fromTf);
  }

  lemma SameLargeWindow(fromTf: int, toTf: int, t: int, u: int)
    requires Nested(fromTf, toTf) && 0 <= t <= u && BaseTime(fromTf, u) == BaseTime(fromTf, t)
    ensures BaseTime(toTf, u) == BaseTime(toTf, t)
  {
    hide BaseTime, Shift, Slot;
    BaseTimeOnGrid(fromTf, u);
    BaseTimeOnGrid(toTf, u);
    BaseTimeOnGrid(toTf, t);
    ClosingIsChangeOfWindow(toTf, t, u);
    BaseTimeOnGrid(fromTf, t);
    LargeOnSmallGrid(fromTf, toTf, u);
    var s, b := BaseTime(fromTf, t) + Shift(fromTf), BaseTime(toTf, u) + Shift(fromTf);
    RemainderZero(s, fromTf, Slot(fromTf, t));
    MultipleGap(s, b, fromTf);
  }
}
