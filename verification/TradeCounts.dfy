/** The counters of a strategy against the history of its trades, one by one: which trades are won, lost or
    neither once fees and spread are taken off, and what the fees cost in all. */
module TradeCounts {
  import opened Basics
  import opened ClosedTrades

  /** What the trade made, all fees paid. */
  function Gain(t: Trade): real { t.rate - (t.entryFees + t.exitFees) }

  predicate Finished(c: Closing) { c.trade.closed && !c.trade.canceled }

  predicate Canceled(c: Closing) { c.trade.canceled }

  /** As a move of the price, the gain stays within the spread, either way. */
  predicate Even(c: Closing) {
    Finished(c) && Gain(c.trade) * c.mid < c.spread && -c.spread < Gain(c.trade) * c.mid
  }

  predicate Won(c: Closing) { Finished(c) && !Even(c) && Gain(c.trade) > 0.0 }

  predicate Lost(c: Closing) { Finished(c) && !Even(c) && Gain(c.trade) < 0.0 }

  /** How many closings of the history are of a kind. */
  function HowMany(closings: seq<Closing>, kind: Closing -> bool): nat {
    if closings == [] then 0 else HowMany(Front(closings), kind) + if kind(Last(closings)) then 1 else 0
  }

  /** The move a closing makes in the series. */
  lemma MoveIs(c: Closing)
    ensures MoveOf(c) == [Win] <==> Won(c)
    ensures MoveOf(c) == [Loss] <==> Lost(c)
    ensures MoveOf(c) == [BreakEven] <==> Even(c)
    ensures MoveOf(c) == [] <==> !Won(c) && !Lost(c) && !Even(c)
    ensures Counts(c) <==> Finished(c)
  {
  }

  lemma CountedIs(s: Counters, c: Closing)
    ensures Counted(s, c)
         == Counters(s.succeed + if Won(c) then 1 else 0, s.failed + if Lost(c) then 1 else 0,
                     s.roe + if Even(c) then 1 else 0, s.total + if Finished(c) then 1 else 0,
                     s.canceled + if Canceled(c) then 1 else 0)
  {
    MoveIs(c);
    hide MoveOf, Even, Won, Lost, Gain;
    OneKind(c);
  }

  lemma OneKind(c: Closing)
    ensures !(Won(c) && Lost(c)) && !(Won(c) && Even(c)) && !(Lost(c) && Even(c))
    ensures Won(c) || Lost(c) || Even(c) ==> Finished(c)
  {
  }

  /** The five counters are the numbers of trades won, lost, even, finished and canceled. */
  lemma {:induction false} CountersCount(closings: seq<Closing>)
    ensures CountersOf(closings)
         == Counters(HowMany(closings, Won), HowMany(closings, Lost), HowMany(closings, Even),
                     HowMany(closings, Finished), HowMany(closings, Canceled))
  {
    if closings != [] {
      hide Won, Lost, Even, Finished, Canceled, Counted;
      CountersCount(Front(closings));
      CountedIs(CountersOf(Front(closings)), Last(closings));
    }
  }

  predicate LostByStop(c: Closing) { Lost(c) && c.trade.reason == StopLoss }

  predicate LostByTarget(c: Closing) { Lost(c) && c.trade.reason == TakeProfit }

  predicate WonByStop(c: Closing) { Won(c) && c.trade.reason == StopLoss }

  predicate WonByTarget(c: Closing) { Won(c) && c.trade.reason == TakeProfit }

  /** The four exit counters are the numbers of lost and won trades that a stop or a target closed. */
  lemma {:induction false} ExitsCount(closings: seq<Closing>)
    ensures ExitsOf(closings)
         == Exits(HowMany(closings, LostByStop), HowMany(closings, LostByTarget), HowMany(closings, WonByStop),
                  HowMany(closings, WonByTarget))
  {
    if closings != [] {
      hide Won, Lost, Even, MoveOf;
      ExitsCount(Front(closings));
      MoveIs(Last(closings));
    }
  }

  // ---- Fees ----

  /** The sums of the rates, and of the fees, of all finished trades. */
  function Rates(closings: seq<Closing>): real {
    if closings == [] then 0.0
    else Rates(Front(closings)) + if Finished(Last(closings)) then Last(closings).trade.rate else 0.0
  }

  function Fees(closings: seq<Closing>): real {
    if closings == [] then 0.0
    else Fees(Front(closings)) + if Finished(Last(closings)) then Last(closings).trade.entryFees + Last(closings).trade.exitFees else 0.0
  }

  /** Performance and fees together are what the trades made before fees. */
  lemma {:induction false} FeesArePaidOnce(closings: seq<Closing>)
    ensures ReturnsOf(closings).performance + Fees(closings) == Rates(closings)
  {
    if closings != [] {
      FeesArePaidOnce(Front(closings));
    }
  }

  /** Days begin at whole multiples of a day since the epoch, and a time is in the day that began last. */
  lemma DayOfTime(now: nat)
    ensures BaseDay(now) % 86_400_000 == 0 && BaseDay(now) <= now < BaseDay(now) + 86_400_000
  {
  }

  /** A trade whose gain is less than its fees is lost, not won. */
  lemma FeesTurnAGainIntoALoss(now: nat)
    ensures var c := Closing(Trade(false, true, 1.0, 0.75, 0.5, StopLoss, 1.0), 1.0, 0.125, now);
            Lost(c) && CountersOf([c]) == Counters(0, 1, 0, 1, 0) && ExitsOf([c]) == Exits(1, 0, 0, 0)
  {
    var c := Closing(Trade(false, true, 1.0, 0.75, 0.5, StopLoss, 1.0), 1.0, 0.125, now);
    assert Front([c]) == [];
    CountersCount([c]);
    ExitsCount([c]);
  }
}
