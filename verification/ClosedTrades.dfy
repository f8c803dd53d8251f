/** The statistics of a strategy, updated trade by trade as trades close: counters, the longest
    series of wins and of losses, and the performance of the day. Times are whole milliseconds. */
module ClosedTrades {
  import opened Basics

  datatype Reason = StopLoss | TakeProfit | Other

  datatype Trade = Trade(canceled: bool, closed: bool, rate: real, entryFees: real, exitFees: real,
                         reason: Reason, exitPrice: real)

  /** A call of addClosedTrade: the trade, and the market and clock it sees. */
  datatype Closing = Closing(trade: Trade, mid: real, spread: real, now: nat)

  datatype Streak = Streak(prevDir: int, maxAdjacentWin: int, maxAdjacentLoss: int)

  datatype Counters = Counters(succeed: nat, failed: nat, roe: nat, total: nat, canceled: nat)

  /** Stop losses and take profits, of losing and of winning trades. */
  datatype Exits = Exits(stopLossInLoss: nat, takeProfitInLoss: nat, stopLossInGain: nat, takeProfitInGain: nat)

  datatype Returns = Returns(performance: real, best: real, worst: real)

  datatype Day = Day(start: int, performance: real)

  datatype Move = Win | Loss | BreakEven

  /** The return of a trade, fees deducted. */
  function Net(t: Trade): real { t.rate - t.entryFees - t.exitFees }

  predicate Counts(c: Closing) { !c.trade.canceled && c.trade.closed }

  /** The return, as a move of the market price, stays within the spread. */
  predicate IsBreakEven(net: real, mid: real, spread: real) { Abs(net * mid) < spread }

  function BaseDay(now: nat): nat { now / DAY * DAY }

  // ---- Specification of one closing ----

  /** The move of the series a closing makes, none when its net return is zero and not below the
      spread, or when it does not count. */
  function MoveOf(c: Closing): seq<Move> {
    if !Counts(c) then []
    else if IsBreakEven(Net(c.trade), c.mid, c.spread) then [BreakEven]
    else if Net(c.trade) < 0.0 then [Loss]
    else if Net(c.trade) > 0.0 then [Win]
    else []
  }

  function Streaked(s: Streak, c: Closing): Streak {
    var move := MoveOf(c);
    if move == [] then s
    else
      match move[0]
      case BreakEven => s.(prevDir := 0)
      case Loss =>
        var dir := if s.prevDir <= 0 then s.prevDir - 1 else -1;
        Streak(dir, s.maxAdjacentWin, MaxInt(s.maxAdjacentLoss, -dir))
      case Win =>
        var dir := if s.prevDir >= 0 then s.prevDir + 1 else 1;
        Streak(dir, MaxInt(s.maxAdjacentWin, dir), s.maxAdjacentLoss)
  }

  function Counted(s: Counters, c: Closing): Counters {
    if c.trade.canceled then s.(canceled := s.canceled + 1)
    else if !c.trade.closed then s
    else
      var move := MoveOf(c);
      Counters(s.succeed + if move == [Win] then 1 else 0, s.failed + if move == [Loss] then 1 else 0,
               s.roe + if move == [BreakEven] then 1 else 0, s.total + 1, s.canceled)
  }

  function Exited(s: Exits, c: Closing): Exits {
    var move, reason := MoveOf(c), c.trade.reason;
    Exits(s.stopLossInLoss + if move == [Loss] && reason.StopLoss? then 1 else 0,
          s.takeProfitInLoss + if move == [Loss] && reason.TakeProfit? then 1 else 0,
          s.stopLossInGain + if move == [Win] && reason.StopLoss? then 1 else 0,
          s.takeProfitInGain + if move == [Win] && reason.TakeProfit? then 1 else 0)
  }

  function Returned(s: Returns, c: Closing): Returns {
    if !Counts(c) then s
    else
      var net := Net(c.trade);
      Returns(s.performance + net, Max(s.best, net), Min(s.worst, net))
  }

  function Dayed(s: Day, c: Closing): Day {
    if !Counts(c) then s
    else
      var start := if s.start == 0 then BaseDay(c.now) else s.start;
      if c.now - start >= DAY then Day(BaseDay(c.now), Net(c.trade))
      else Day(start, s.performance + Net(c.trade))
  }

  /** The statistics after a run of closings, last one first to unfold. */
  function StreakOf(closings: seq<Closing>): Streak {
    if closings == [] then Streak(0, 0, 0)
    else Streaked(StreakOf(closings[..|closings| - 1]), closings[|closings| - 1])
  }

  function CountersOf(closings: seq<Closing>): Counters {
    if closings == [] then Counters(0, 0, 0, 0, 0)
    else Counted(CountersOf(closings[..|closings| - 1]), closings[|closings| - 1])
  }

  function ExitsOf(closings: seq<Closing>): Exits {
    if closings == [] then Exits(0, 0, 0, 0)
    else Exited(ExitsOf(closings[..|closings| - 1]), closings[|closings| - 1])
  }

  function ReturnsOf(closings: seq<Closing>): Returns {
    if closings == [] then Returns(0.0, 0.0, 0.0)
    else Returned(ReturnsOf(closings[..|closings| - 1]), closings[|closings| - 1])
  }

  function DayOf(closings: seq<Closing>): Day {
    if closings == [] then Day(0, 0.0)
    else Dayed(DayOf(closings[..|closings| - 1]), closings[|closings| - 1])
  }

  class Strategy {
    var performance: real
    var best: real
    var worst: real
    var succeedTrades: nat
    var failedTrades: nat
    var roeTrades: nat
    var totalTrades: nat
    var canceledTrades: nat
    var stopLossInLoss: nat
    var takeProfitInLoss: nat
    var stopLossInGain: nat
    var takeProfitInGain: nat
    var prevDir: int
    var maxAdjacentWin: int
    var maxAdjacentLoss: int
    var dailyStart: int
    var dailyPerformance: real
    var tradesResults: seq<Trade>

    ghost function StreakNow(): Streak
      reads this
    {
      Streak(prevDir, maxAdjacentWin, maxAdjacentLoss)
    }

    ghost function CountersNow(): Counters
      reads this
    {
      Counters(succeedTrades, failedTrades, roeTrades, totalTrades, canceledTrades)
    }

    ghost function ExitsNow(): Exits
      reads this
    {
      Exits(stopLossInLoss, takeProfitInLoss, stopLossInGain, takeProfitInGain)
    }

    ghost function ReturnsNow(): Returns
      reads this
    {
      Returns(performance, best, worst)
    }

    ghost function DayNow(): Day
      reads this
    {
      Day(dailyStart, dailyPerformance)
    }

    ghost predicate Holds(closings: seq<Closing>)
      reads this
    {
      && StreakNow() == StreakOf(closings) && CountersNow() == CountersOf(closings)
      && ExitsNow() == ExitsOf(closings) && ReturnsNow() == ReturnsOf(closings) && DayNow() == DayOf(closings)
    }

    constructor ()
      ensures Holds([]) && tradesResults == []
    {
      performance, best, worst := 0.0, 0.0, 0.0;
      succeedTrades, failedTrades, roeTrades, totalTrades, canceledTrades := 0, 0, 0, 0, 0;
      stopLossInLoss, takeProfitInLoss, stopLossInGain, takeProfitInGain := 0, 0, 0, 0;
      prevDir, maxAdjacentWin, maxAdjacentLoss := 0, 0, 0;
      dailyStart, dailyPerformance, tradesResults := 0, 0.0, [];
    }

    /** Counts the trade as break-even, lost or won, and follows the series. */
    method CountMove(c: Closing, rpnl: real)
      requires Counts(c) && rpnl == Net(c.trade)
      modifies this`prevDir, this`maxAdjacentWin, this`maxAdjacentLoss, this`succeedTrades, this`failedTrades,
               this`roeTrades, this`stopLossInLoss, this`takeProfitInLoss, this`stopLossInGain, this`takeProfitInGain
      ensures StreakNow() == Streaked(old(StreakNow()), c)
      ensures Counters(succeedTrades, failedTrades, roeTrades, totalTrades + 1, canceledTrades)
              == Counted(old(CountersNow()), c)
      ensures ExitsNow() == Exited(old(ExitsNow()), c)
    {
      hide IsBreakEven, Net;
      if IsBreakEven(rpnl, c.mid, c.spread) {
        roeTrades := roeTrades + 1;
        prevDir := 0;
      } else if rpnl < 0.0 {
        failedTrades := failedTrades + 1;
        if prevDir <= 0 { prevDir := prevDir - 1; } else { prevDir := -1; }
        maxAdjacentLoss := MaxInt(maxAdjacentLoss, -prevDir);
        if c.trade.reason.StopLoss? {
          stopLossInLoss := stopLossInLoss + 1;
        } else if c.trade.reason.TakeProfit? {
          takeProfitInLoss := takeProfitInLoss + 1;
        }
      } else if rpnl > 0.0 {
        succeedTrades := succeedTrades + 1;
        if prevDir >= 0 { prevDir := prevDir + 1; } else { prevDir := 1; }
        maxAdjacentWin := MaxInt(maxAdjacentWin, prevDir);
        if c.trade.reason.StopLoss? {
          stopLossInGain := stopLossInGain + 1;
        } else if c.trade.reason.TakeProfit? {
          takeProfitInGain := takeProfitInGain + 1;
        }
      }
    }

    method AddClosedTrade(c: Closing)
      modifies this
      ensures StreakNow() == Streaked(old(StreakNow()), c)
      ensures CountersNow() == Counted(old(CountersNow()), c)
      ensures ExitsNow() == Exited(old(ExitsNow()), c)
      ensures ReturnsNow() == Returned(old(ReturnsNow()), c)
      ensures DayNow() == Dayed(old(DayNow()), c)
      ensures tradesResults == old(tradesResults) + if Counts(c) && c.trade.exitPrice > 0.0 then [c.trade] else []
    {
      hide IsBreakEven, BaseDay, Net;
      if c.trade.canceled {
        canceledTrades := canceledTrades + 1;
      } else if c.trade.closed {
        CountReturn(c);
        KeepDay(c);
        if c.trade.exitPrice > 0.0 {
          tradesResults := tradesResults + [c.trade];
        }
      }
    }

    method CountReturn(c: Closing)
      requires Counts(c)
      modifies this`performance, this`best, this`worst, this`totalTrades,
               this`prevDir, this`maxAdjacentWin, this`maxAdjacentLoss, this`succeedTrades, this`failedTrades,
               this`roeTrades, this`stopLossInLoss, this`takeProfitInLoss, this`stopLossInGain, this`takeProfitInGain
      ensures StreakNow() == Streaked(old(StreakNow()), c)
      ensures CountersNow() == Counted(old(CountersNow()), c)
      ensures ExitsNow() == Exited(old(ExitsNow()), c)
      ensures ReturnsNow() == Returned(old(ReturnsNow()), c)
    {
      var rpnl := c.trade.rate;
      rpnl := rpnl - c.trade.entryFees;
      rpnl := rpnl - c.trade.exitFees;
      assert rpnl == Net(c.trade);
      hide IsBreakEven, Net, MoveOf, Streaked, Exited, Counted;
      performance := performance + rpnl;
      CountMove(c, rpnl);
      totalTrades := totalTrades + 1;
      best, worst := Max(best, rpnl), Min(worst, rpnl);
    }

    /** Opens the day of the closing when no day is open, or when a whole day has passed, and adds its
        return. */
    method KeepDay(c: Closing)
      requires Counts(c)
      modifies this`dailyStart, this`dailyPerformance
      ensures DayNow() == Dayed(old(DayNow()), c)
    {
      if dailyStart == 0 {
        dailyStart := BaseDay(c.now);
      }
      if c.now - dailyStart >= DAY {
        dailyStart := BaseDay(c.now);
        dailyPerformance := 0.0;
      }
      dailyPerformance := dailyPerformance + Net(c.trade);
    }

    /** Any run of closings from a new strategy. */
    method AddAll(closings: seq<Closing>)
      requires Holds([])
      modifies this
      ensures Holds(closings)
    {
      for i := 0 to |closings|
        invariant Holds(closings[..i])
      {
        assert closings[..i + 1][..i] == closings[..i];
        AddClosedTrade(closings[i]);
      }
      assert closings[..|closings|] == closings;
    }
  }

  // ---- Series of wins and losses ----

  function Moves(closings: seq<Closing>): seq<Move> {
    if closings == [] then []
    else Moves(closings[..|closings| - 1]) + MoveOf(closings[|closings| - 1])
  }

  /** `n` moves of the kind, one after the other, from place `i` on. */
  predicate Series(moves: seq<Move>, i: nat, n: nat, kind: Move) {
    i + n <= |moves| && forall k :: i <= k < i + n ==> moves[k] == kind
  }

  /** The length of the series the moves end with. */
  function Ending(moves: seq<Move>, kind: Move): (n: nat)
    ensures n <= |moves| && Series(moves, |moves| - n, n, kind)
    ensures n < |moves| ==> moves[|moves| - n - 1] != kind
  {
    if moves == [] || moves[|moves| - 1] != kind then 0
    else Ending(moves[..|moves| - 1], kind) + 1
  }

  ghost predicate IsLongestSeries(moves: seq<Move>, kind: Move, n: int) {
    && (exists i: nat :: n >= 0 && Series(moves, i, n, kind))
    && (forall i: nat, k: nat :: Series(moves, i, k, kind) ==> k <= n)
  }

  /** One more move: the longest series is the old one, or the one that now ends the moves. */
  lemma LongestAfter(moves: seq<Move>, move: Move, kind: Move, n: int)
    requires IsLongestSeries(moves, kind, n)
    ensures IsLongestSeries(moves + [move], kind, MaxInt(n, Ending(moves + [move], kind)))
  {
    var after := moves + [move];
    var end := Ending(after, kind);
    assert forall j :: 0 <= j < |moves| ==> after[j] == moves[j];
    var i: nat :| n >= 0 && Series(moves, i, n, kind);
    assert Series(after, i, n, kind);
    assert Series(after, |after| - end, end, kind);
    forall i: nat, k: nat | Series(after, i, k, kind)
      ensures k <= MaxInt(n, end)
    {
      if i + k < |after| {
        forall j | i <= j < i + k ensures moves[j] == kind {
          assert after[j] == kind;
        }
        assert Series(moves, i, k, kind);
      } else {
        assert end < |after| ==> after[|after| - end - 1] != kind;
      }
    }
  }

  lemma EndingAfter(moves: seq<Move>, move: Move, kind: Move)
    ensures Ending(moves + [move], kind) == if move == kind then Ending(moves, kind) + 1 else 0
  {
    assert (moves + [move])[..|moves|] == moves;
  }

  /** What the streak says of the moves so far. */
  ghost predicate Tells(s: Streak, moves: seq<Move>) {
    && s.prevDir == Ending(moves, Win) - Ending(moves, Loss)
    && (Ending(moves, Win) == 0 || Ending(moves, Loss) == 0)
    && IsLongestSeries(moves, Win, s.maxAdjacentWin)
    && IsLongestSeries(moves, Loss, s.maxAdjacentLoss)
  }

  lemma TellsAfter(s: Streak, moves: seq<Move>, c: Closing)
    requires Tells(s, moves)
    ensures Tells(Streaked(s, c), moves + MoveOf(c))
  {
    hide IsLongestSeries, Series, Ending, IsBreakEven, Net;
    var move := MoveOf(c);
    if move == [] {
      assert moves + move == moves;
    } else {
      EndingAfter(moves, move[0], Win);
      EndingAfter(moves, move[0], Loss);
      LongestAfter(moves, move[0], Win, s.maxAdjacentWin);
      LongestAfter(moves, move[0], Loss, s.maxAdjacentLoss);
      LongestIsNotNegative(moves, Win, s.maxAdjacentWin);
      LongestIsNotNegative(moves, Loss, s.maxAdjacentLoss);
    }
  }

  lemma LongestIsNotNegative(moves: seq<Move>, kind: Move, n: int)
    requires IsLongestSeries(moves, kind, n)
    ensures n >= 0
  {}

  /** The direction is the series that ends the moves, negative for losses; the two maxima are the
      longest series of the whole history. Trades that are canceled, or that end at exactly zero with
      no spread, neither extend nor break a series. */
  lemma {:induction false} AdjacentAreLongestSeries(closings: seq<Closing>)
    ensures Tells(StreakOf(closings), Moves(closings))
  {
    if closings == [] {
      assert Series([], 0, 0, Win) && Series([], 0, 0, Loss);
    } else {
      AdjacentAreLongestSeries(closings[..|closings| - 1]);
      TellsAfter(StreakOf(closings[..|closings| - 1]), Moves(closings[..|closings| - 1]), closings[|closings| - 1]);
    }
  }

  // ---- Totals ----

  function Nets(closings: seq<Closing>): seq<real> {
    if closings == [] then []
    else
      Nets(closings[..|closings| - 1])
      + if Counts(closings[|closings| - 1]) then [Net(closings[|closings| - 1].trade)] else []
  }

  function CountOf(moves: seq<Move>, kind: Move): nat { multiset(moves)[kind] }

  ghost predicate AddUp(s: Counters, e: Exits, moves: seq<Move>, counted: nat) {
    && s.succeed == CountOf(moves, Win) && s.failed == CountOf(moves, Loss) && s.roe == CountOf(moves, BreakEven)
    && s.succeed + s.failed + s.roe == |moves| <= counted == s.total
    && e.stopLossInLoss + e.takeProfitInLoss <= s.failed
    && e.stopLossInGain + e.takeProfitInGain <= s.succeed
  }

  lemma AddUpAfter(s: Counters, e: Exits, moves: seq<Move>, counted: nat, c: Closing)
    requires AddUp(s, e, moves, counted)
    ensures AddUp(Counted(s, c), Exited(e, c), moves + MoveOf(c), counted + if Counts(c) then 1 else 0)
  {
    hide IsBreakEven, Net;
    var move := MoveOf(c);
    if move == [] {
      assert moves + move == moves;
    } else {
      assert move == [move[0]];
      assert multiset(moves + move) == multiset(moves) + multiset{move[0]};
    }
  }

  /** Every counted trade is in exactly one of the counters, except those that make no move, and stop
      losses and take profits are told apart within the losses and the wins. */
  lemma {:induction false} CountersAddUp(closings: seq<Closing>)
    ensures AddUp(CountersOf(closings), ExitsOf(closings), Moves(closings), |Nets(closings)|)
  {
    if closings != [] {
      hide AddUp;
      var before := closings[..|closings| - 1];
      CountersAddUp(before);
      AddUpAfter(CountersOf(before), ExitsOf(before), Moves(before), |Nets(before)|, closings[|closings| - 1]);
    }
  }

  /** The performance is the sum of the counted returns, best is the largest of them or zero, worst the
      smallest or zero. */
  lemma {:induction false} ReturnsAreExtremes(closings: seq<Closing>)
    ensures var s, nets := ReturnsOf(closings), Nets(closings);
            && s.performance == Sum(nets)
            && s.worst <= 0.0 <= s.best
            && (forall i :: 0 <= i < |nets| ==> s.worst <= nets[i] <= s.best)
            && (s.best == 0.0 || s.best in nets) && (s.worst == 0.0 || s.worst in nets)
  {
    if closings != [] {
      var before, c := closings[..|closings| - 1], closings[|closings| - 1];
      ReturnsAreExtremes(before);
      var nets := Nets(before);
      if Counts(c) {
        assert Nets(closings) == nets + [Net(c.trade)];
        assert Nets(closings)[..|nets|] == nets;
      } else {
        assert Nets(closings) == nets;
      }
    }
  }

  // ---- The day ----

  /** The counted returns of one day. */
  function OfDay(closings: seq<Closing>, day: int): seq<real> {
    if closings == [] then []
    else
      var c := closings[|closings| - 1];
      OfDay(closings[..|closings| - 1], day)
      + if Counts(c) && BaseDay(c.now) == day then [Net(c.trade)] else []
  }

  /** The clock never goes back. */
  predicate Ordered(closings: seq<Closing>) {
    forall i, j :: 0 <= i < j < |closings| ==> closings[i].now <= closings[j].now
  }

  lemma {:induction false} NoneOnDay(closings: seq<Closing>, day: int)
    requires forall c :: c in closings && Counts(c) ==> BaseDay(c.now) != day
    ensures Sum(OfDay(closings, day)) == 0.0
    ensures OfDay(closings, day) == []
  {
    if closings != [] {
      assert closings[|closings| - 1] in closings;
      NoneOnDay(closings[..|closings| - 1], day);
    }
  }

  lemma BaseDayOrder(a: nat, b: nat)
    ensures a <= b ==> BaseDay(a) <= BaseDay(b)
    ensures BaseDay(a) <= a < BaseDay(a) + DAY
    ensures BaseDay(a) < BaseDay(b) ==> BaseDay(a) + DAY <= BaseDay(b)
  {}

  lemma SumAfter(xs: seq<real>, x: real)
    ensures Sum(xs + [x]) == Sum(xs) + x
  {
    assert (xs + [x])[..|xs|] == xs;
  }

  /** What is left over in the day: the source takes a start of zero for "not started", so the returns
      of the first day of the epoch stay in the day that follows it. */
  function Carried(closings: seq<Closing>, start: int): real {
    if start > 0 && forall c :: c in closings && Counts(c) ==> BaseDay(c.now) <= 0 || BaseDay(c.now) == start
    then Sum(OfDay(closings, 0))
    else 0.0
  }

  /** The start is the day of the last counted closing. */
  ghost predicate IsLastDay(start: int, closings: seq<Closing>) {
    && (forall c :: c in closings && Counts(c) ==> BaseDay(c.now) <= start)
    && (exists c :: c in closings && Counts(c) && BaseDay(c.now) == start)
  }

  ghost predicate NoneCounts(closings: seq<Closing>) { forall c :: c in closings ==> !Counts(c) }

  /** What the day says of the closings so far. */
  ghost predicate IsDayOf(s: Day, closings: seq<Closing>) {
    if NoneCounts(closings) then s == Day(0, 0.0)
    else IsLastDay(s.start, closings) && s.performance == Sum(OfDay(closings, s.start)) + Carried(closings, s.start)
  }

  lemma DaySkips(s: Day, before: seq<Closing>, c: Closing)
    requires IsDayOf(s, before) && !Counts(c)
    ensures IsDayOf(s, before + [c])
  {
    hide BaseDay, Net, Sum, Counts;
    var closings := before + [c];
    assert closings[..|before|] == before;
    assert OfDay(closings, s.start) == OfDay(before, s.start) && OfDay(closings, 0) == OfDay(before, 0);
    assert forall d :: d in closings <==> d in before || d == c;
  }

  /** A counted closing, as the last of its run: its day, and the sums of the days. */
  lemma DayGains(before: seq<Closing>, c: Closing)
    requires Ordered(before + [c]) && Counts(c)
    ensures IsLastDay(BaseDay(c.now), before + [c])
    ensures forall d :: d in before && Counts(d) ==> BaseDay(d.now) <= BaseDay(c.now)
    ensures forall day :: Sum(OfDay(before + [c], day))
                          == Sum(OfDay(before, day)) + if day == BaseDay(c.now) then Net(c.trade) else 0.0
  {
    hide BaseDay, Net, Sum;
    var closings := before + [c];
    assert closings[..|before|] == before && closings[|before|] == c;
    forall d | d in before ensures BaseDay(d.now) <= BaseDay(c.now) {
      var i :| 0 <= i < |before| && before[i] == d;
      assert closings[i] == d;
      BaseDayOrder(d.now, c.now);
    }
    forall day: int
      ensures Sum(OfDay(closings, day)) == Sum(OfDay(before, day)) + if day == BaseDay(c.now) then Net(c.trade) else 0.0
    {
      SumAfter(OfDay(before, day), Net(c.trade));
      if day != BaseDay(c.now) { assert OfDay(closings, day) == OfDay(before, day); }
    }
    assert c in closings;
  }

  lemma CarriedIntoSameDay(start: int, before: seq<Closing>, c: Closing)
    requires Ordered(before + [c]) && Counts(c) && start == BaseDay(c.now)
    ensures Carried(before + [c], start) == Carried(before, start)
  {
    DayGains(before, c);
    hide BaseDay, Net, Sum, OfDay, Ordered, Counts;
    assert forall d :: d in before + [c] <==> d in before || d == c;
  }

  /** A closing on the day that is open. */
  lemma DayStays(s: Day, before: seq<Closing>, c: Closing)
    requires IsDayOf(s, before) && Ordered(before + [c]) && Counts(c) && s.start == BaseDay(c.now)
    requires !NoneCounts(before)
    ensures IsDayOf(Dayed(s, c), before + [c])
  {
    DayGains(before, c);
    CarriedIntoSameDay(s.start, before, c);
    BaseDayOrder(c.now, c.now);
    hide BaseDay, Net, Sum, OfDay, Ordered, Carried, IsLastDay;
    assert c in before + [c];
  }

  lemma FirstDayOpens(s: Day, before: seq<Closing>, c: Closing)
    requires IsDayOf(s, before) && Ordered(before + [c]) && Counts(c) && NoneCounts(before)
    ensures IsDayOf(Dayed(s, c), before + [c])
  {
    DayGains(before, c);
    BaseDayOrder(c.now, c.now);
    hide BaseDay, Net, Sum, OfDay, Ordered;
    NoneOnDay(before, BaseDay(c.now));
    NoneOnDay(before, 0);
    assert c in before + [c];
  }

  lemma LaterDay(s: Day, c: Closing)
    requires Counts(c) && s.start + DAY <= BaseDay(c.now)
    ensures Dayed(s, c) == Day(BaseDay(c.now), Net(c.trade) + if s.start == 0 then s.performance else 0.0)
  {
    BaseDayOrder(c.now, c.now);
    hide BaseDay, Net;
  }

  lemma CarriedIntoLaterDay(start: int, before: seq<Closing>, c: Closing)
    requires IsLastDay(start, before) && Ordered(before + [c]) && Counts(c) && start < BaseDay(c.now)
    ensures Carried(before + [c], BaseDay(c.now)) == if start == 0 then Sum(OfDay(before, 0)) else 0.0
    ensures Carried(before, 0) == 0.0 && Sum(OfDay(before, BaseDay(c.now))) == 0.0
  {
    DayGains(before, c);
    var last :| last in before && Counts(last) && BaseDay(last.now) == start;
    hide BaseDay, Net, Sum, OfDay, Ordered, Counts;
    NoneOnDay(before, BaseDay(c.now));
    if start < 0 { NoneOnDay(before, 0); }
    assert last in before + [c];
    assert forall d :: d in before + [c] <==> d in before || d == c;
  }

  lemma LaterDayOpens(s: Day, before: seq<Closing>, c: Closing)
    requires IsDayOf(s, before) && Ordered(before + [c]) && Counts(c) && !NoneCounts(before)
    requires s.start != BaseDay(c.now)
    ensures IsDayOf(Dayed(s, c), before + [c])
  {
    DayGains(before, c);
    var last :| last in before && Counts(last) && BaseDay(last.now) == s.start;
    BaseDayOrder(last.now, c.now);
    CarriedIntoLaterDay(s.start, before, c);
    LaterDay(s, c);
    hide BaseDay, Net, Sum, OfDay, Ordered, Counts, Carried, Dayed, IsLastDay;
    assert c in before + [c];
  }

  /** Once a trade has counted, the daily performance is the sum of the returns of the day of the last
      one that did, exactly when nothing is carried over. */
  lemma {:induction false} DailyPerformanceIsOfDayIff(closings: seq<Closing>)
    requires Ordered(closings)
    ensures IsDayOf(DayOf(closings), closings)
    ensures var s := DayOf(closings);
            !NoneCounts(closings) ==>
              IsLastDay(s.start, closings)
              && (s.performance == Sum(OfDay(closings, s.start)) <==> Carried(closings, s.start) == 0.0)
  {
    if closings != [] {
      hide IsDayOf, Dayed, Ordered, IsLastDay, Carried, NoneCounts;
      var before, c := closings[..|closings| - 1], closings[|closings| - 1];
      OrderedFront(closings);
      DailyPerformanceIsOfDayIff(before);
      assert closings == before + [c];
      if !Counts(c) { DaySkips(DayOf(before), before, c); assert DayOf(closings) == DayOf(before); }
      else if NoneCounts(before) { FirstDayOpens(DayOf(before), before, c); }
      else if DayOf(before).start == BaseDay(c.now) { DayStays(DayOf(before), before, c); }
      else { LaterDayOpens(DayOf(before), before, c); }
    }
    if !NoneCounts(closings) { DayOfMeans(DayOf(closings), closings); }
  }

  lemma OrderedFront(closings: seq<Closing>)
    requires closings != [] && Ordered(closings)
    ensures Ordered(closings[..|closings| - 1])
  {}

  lemma DayOfMeans(s: Day, closings: seq<Closing>)
    requires IsDayOf(s, closings) && !NoneCounts(closings)
    ensures IsLastDay(s.start, closings)
    ensures s.performance == Sum(OfDay(closings, s.start)) <==> Carried(closings, s.start) == 0.0
  {}

  function Gain(net: real, now: nat): Closing {
    Closing(Trade(false, true, net, 0.0, 0.0, Other, 1.0), 1.0, 0.0, now)
  }

  /** A trade closed at time 0 and another a day later: the first is still in the performance of the
      second day. */
  lemma FirstDayIsCarried(a: Closing, b: Closing)
    requires a == Gain(1.0, 0) && b == Gain(2.0, DAY)
    ensures DayOf([a, b]) == Day(DAY, 3.0) && Sum(OfDay([a, b], DAY)) == 2.0
  {
    var closings := [a, b];
    assert closings[..1] == [a] && [a][..0] == [];
    assert DayOf([a]) == Day(0, 1.0);
    assert OfDay([a], DAY) == [];
    assert OfDay(closings, DAY) == [2.0];
  }

  /** Past the first day of the epoch nothing is ever carried over. */
  lemma NothingCarried(closings: seq<Closing>, start: int)
    requires forall c :: c in closings ==> c.now >= DAY
    ensures Carried(closings, start) == 0.0
  {
    forall c | c in closings ensures BaseDay(c.now) != 0 {}
    NoneOnDay(closings, 0);
  }
}
