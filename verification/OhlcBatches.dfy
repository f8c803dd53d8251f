/** Batches of smaller candles: those that have not ended play no part, and what makes a batch fail. */
module OhlcBatches {
  import opened Basics
  import opened OhlcGeneration

  /** The ended candles of a batch, in order. */
  function EndedOnly(cs: seq<Candle>): seq<Candle> {
    if cs == [] then [] else EndedOnly(Front(cs)) + if Last(cs).ended then [Last(cs)] else []
  }

  /** A candle that has not ended, of whatever timeframe, leaves the generator as it is. */
  lemma OpenCandleIsIgnored(fromTf: int, tf: int, s: State, c: Candle)
    requires Supported(tf) && s.last >= 0 && !c.ended
    ensures StepCandle(fromTf, tf, s, c) == Ok(Step(s, None))
  {
  }

  /** A batch does what its ended candles alone do: candles that have not ended, anywhere in it, change no
      state, no output and no failure. */
  lemma {:induction false} OpenCandlesDoNotCount(fromTf: int, tf: int, s: State, cs: seq<Candle>)
    requires Supported(tf) && s.last >= 0
    ensures RunCandles(fromTf, tf, s, cs) == RunCandles(fromTf, tf, s, EndedOnly(cs))
  {
    if cs != [] {
      var front, c := Front(cs), Last(cs);
      OpenCandlesDoNotCount(fromTf, tf, s, front);
      var ended := EndedOnly(front);
      if c.ended {
        assert Front(ended + [c]) == ended;
      } else {
        assert ended + [] == ended;
        OpenCandleIsIgnored(fromTf, tf, RunCandles(fromTf, tf, s, front).run.final, c);
      }
      hide StepCandle;
    }
  }

  /** A batch is refused iff some ended candle in it has another timeframe than the one asked for. */
  lemma {:induction false} RefusedIff(fromTf: int, tf: int, s: State, cs: seq<Candle>)
    requires Supported(tf) && s.last >= 0
    ensures RunCandles(fromTf, tf, s, cs).failed <==> exists c :: c in cs && c.ended && c.timeframe != fromTf
  {
    if cs != [] {
      hide Advance;
      RefusedIff(fromTf, tf, s, Front(cs));
      assert forall c :: c in cs <==> c in Front(cs) || c == Last(cs);
    }
  }

  /** A candle still open and then the same candle ended: what counts is the second. */
  lemma EndedCandleReplacesOpen(fromTf: int, tf: int, s: State, open: Candle, ended: Candle)
    requires Supported(tf) && s.last >= 0 && !open.ended && ended.ended
    ensures RunCandles(fromTf, tf, s, [open, ended]) == RunCandles(fromTf, tf, s, [ended])
  {
    hide StepCandle, RunCandles;
    var cs := [open, ended];
    assert Front(cs) == [open] && Last(cs) == ended;
    assert Front([open]) == [] && Last([open]) == open;
    assert EndedOnly([open]) == EndedOnly([]) + [] == [];
    assert EndedOnly(cs) == EndedOnly([open]) + [ended] == [ended];
    OpenCandlesDoNotCount(fromTf, tf, s, cs);
  }
}
