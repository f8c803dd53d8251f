/** The paper broker on indivisible margin markets: one netted position per market, changed by
    orders that open, increase, close or reverse it, with signals emitted on the way. Quantities and
    prices are exact reals. */
module PaperBroker {
  import opened Basics

  datatype TradeType = Spot | Margin | IndMargin | OnePosition

  /** Bounds of 0 mean no bound. */
  datatype Filter = Filter(min: real, max: real, step: real, precision: nat)

  datatype Market = Market(marketId: string, qty: Filter, hedging: bool)

  datatype Order = Order(refId: string, marketId: string, strategy: Option<TradeType>, direction: int,
                         orderQuantity: real, closeOnly: bool, reduceOnly: bool, hedging: bool)

  datatype Local = Local(entryPrice: real, entryQty: real, exitPrice: real, exitQty: real)

  const NO_LOCAL := Local(0.0, 0.0, 0.0, 0.0)
  const PRICE_UNDEFINED := -1.0

  datatype Position = Position(positionId: string, marketId: string, direction: int, quantity: real,
                               avgPrice: real, local: Local)

  datatype OrderEvent = Accepted | Traded | Removed

  datatype PositionEvent = Opened | Updated | Deleted

  datatype Signal =
    | OrderSignal(onOrder: OrderEvent, market: string, dir: int, filled: real)
    | PositionSignal(onPosition: PositionEvent, positionId: string, dir: int, quantity: real)

  datatype ReturnCode = RetOk | RetError | RetInvalidArgs

  // ---- Rounding to the quantity grid ----

  function Pow10(n: nat): (p: real)
    ensures p > 0.0
  {
    if n == 0 then 1.0 else 10.0 * Pow10(n - 1)
  }

  /** Rounding to the nearest integer, halves away from zero. */
  function RoundHalfAway(x: real): int {
    if x >= 0.0 then (x + 0.5).Floor else -((0.5 - x).Floor)
  }

  /** Rounding to whole multiples of `1 / p`, halves up. */
  function RoundAt(x: real, p: real): real
    requires p > 0.0
  {
    (x * p + 0.5).Floor as real / p
  }

  function RoundDecimals(x: real, decimals: nat): real { RoundAt(x, Pow10(decimals)) }

  function NearestStep(x: real, step: real): real
    requires step > 0.0
  {
    RoundHalfAway(x / step) as real * step
  }

  function AdjustQty(f: Filter, qty: real): real {
    if f.min > 0.0 && qty < f.min then 0.0
    else if f.max > 0.0 && qty > f.max then f.max
    else if f.step > 0.0 then
      Max(RoundDecimals(NearestStep(qty, f.step), f.precision), f.min)
    else qty
  }

  /** Weighted mean; a total weight of zero, undefined in the source, gives 0. */
  function Mean(x: real, wx: real, y: real, wy: real): real {
    if wx + wy == 0.0 then 0.0 else (x * wx + y * wy) / (wx + wy)
  }

  // ---- Specification: what an order does to the book ----

  type Positions = map<string, Position>

  /** `recycled`: what freed position objects still hold in `local`, last freed last. */
  datatype Book = Book(positions: Positions, recycled: seq<Local>)

  datatype Effect = Effect(book: Book, code: ReturnCode, signals: seq<Signal>)

  function LocalOfNew(recycled: seq<Local>): Local {
    if recycled == [] then NO_LOCAL else recycled[|recycled| - 1]
  }

  function Around(o: Order, inner: Signal): seq<Signal> {
    [OrderSignal(Accepted, o.marketId, o.direction, 0.0), OrderSignal(Traded, o.marketId, o.direction, o.orderQuantity),
     inner, OrderSignal(Removed, o.marketId, o.direction, 0.0)]
  }

  function OpenedPosition(o: Order, m: Market, local: Local, price: real): Position {
    Position(m.marketId, o.marketId, o.direction, o.orderQuantity, PRICE_UNDEFINED,
             local.(entryPrice := price, entryQty := o.orderQuantity))
  }

  function IncreasedPosition(p: Position, o: Order, m: Market, price: real): Position {
    var avg := Mean(p.avgPrice, p.quantity, price, o.orderQuantity);
    var qty := AdjustQty(m.qty, p.quantity + o.orderQuantity);
    p.(avgPrice := avg, quantity := qty, local := p.local.(entryPrice := avg, entryQty := qty))
  }

  function ClosedPosition(p: Position, o: Order, m: Market, price: real): Position {
    var exitPrice := Mean(p.local.exitPrice, p.local.exitQty, price, o.orderQuantity);
    var exitQty := AdjustQty(m.qty, p.local.exitQty + o.orderQuantity);
    var qty := if p.quantity > o.orderQuantity then AdjustQty(m.qty, p.quantity - o.orderQuantity) else 0.0;
    p.(quantity := qty, local := p.local.(exitPrice := exitPrice, exitQty := exitQty, entryQty := qty))
  }

  function ReversedPosition(p: Position, o: Order, m: Market, price: real): Position {
    var qty := AdjustQty(m.qty, Basics.Abs(p.quantity - o.orderQuantity));
    p.(quantity := qty, avgPrice := price, local := Local(price, qty, 0.0, 0.0))
  }

  /** The position after an order that meets it, and whether the order was executed. */
  datatype Met = Met(position: Position, executed: bool)

  function Meet(p: Position, o: Order, m: Market, openPrice: real, closePrice: real): Met {
    if p.direction == o.direction then
      if openPrice <= 0.0 then Met(p, false) else Met(IncreasedPosition(p, o, m, openPrice), true)
    else if closePrice <= 0.0 then Met(p, false)
    else if o.orderQuantity <= p.quantity || o.closeOnly || o.reduceOnly then
      Met(ClosedPosition(p, o, m, closePrice), true)
    else Met(ReversedPosition(p, o, m, closePrice), true)
  }

  function Refused(o: Order, m: Market): bool {
    o.strategy != Some(IndMargin) || (o.hedging && !m.hedging)
  }

  /** An order on a market that has a position, which is deleted when nothing is left of it. */
  function ExecMet(b: Book, o: Order, m: Market, openPrice: real, closePrice: real): Effect
    requires m.marketId in b.positions
  {
    var met := Meet(b.positions[m.marketId], o, m, openPrice, closePrice);
    var p := met.position;
    var signals := if met.executed then Around(o, PositionSignal(Updated, p.positionId, o.direction, p.quantity)) else [];
    var code := if met.executed then RetOk else RetError;
    if p.quantity <= 0.0 then
      Effect(Book(b.positions - {m.marketId}, b.recycled + [p.local]), code,
             signals + [PositionSignal(Deleted, p.positionId, p.direction, 0.0)])
    else Effect(b.(positions := b.positions[m.marketId := p]), code, signals)
  }

  function Exec(b: Book, o: Order, m: Market, openPrice: real, closePrice: real): Effect {
    if Refused(o, m) then Effect(b, RetError, [])
    else if m.marketId in b.positions then ExecMet(b, o, m, openPrice, closePrice)
    else if o.closeOnly || o.reduceOnly then Effect(b, RetInvalidArgs, [])
    else
      var p := OpenedPosition(o, m, LocalOfNew(b.recycled), openPrice);
      Effect(Book(b.positions[m.marketId := p], if b.recycled == [] then [] else b.recycled[..|b.recycled| - 1]),
             RetOk, Around(o, PositionSignal(Opened, p.positionId, o.direction, p.quantity)))
  }

  // ---- The connector object ----

  class LocalConnector {
    var virtualPositions: Positions
    var freePositions: seq<Local>
    var signals: seq<Signal>

    ghost function Abs(): Book
      reads this
    {
      Book(virtualPositions, freePositions)
    }

    constructor ()
      ensures Abs() == Book(map[], []) && signals == []
    {
      virtualPositions, freePositions, signals := map[], [], [];
    }

    method OnSignal(s: Signal)
      modifies this`signals
      ensures signals == old(signals) + [s]
    {
      signals := signals + [s];
    }

    method ExecIndMarginOrder(o: Order, m: Market, openExecPrice: real, closeExecPrice: real) returns (res: ReturnCode)
      modifies this
      ensures var e := Exec(old(Abs()), o, m, openExecPrice, closeExecPrice);
              Abs() == e.book && res == e.code && signals == old(signals) + e.signals
    {
      hide AdjustQty, Mean, OpenedPosition, ExecMet, Around;
      if o.strategy.None? {
        return RetError;
      }
      if o.strategy.value != IndMargin {
        return RetError;
      }
      if o.hedging && !m.hedging {
        return RetError;
      }
      if m.marketId in virtualPositions {
        res := ExecOnPosition(o, m, openExecPrice, closeExecPrice);
        return;
      }
      if o.closeOnly || o.reduceOnly {
        return RetInvalidArgs;
      }
      res := IndMarginOpenPosition(o, m, openExecPrice);
    }

    method ExecOnPosition(o: Order, m: Market, openExecPrice: real, closeExecPrice: real) returns (res: ReturnCode)
      requires m.marketId in virtualPositions
      modifies this
      ensures var e := ExecMet(old(Abs()), o, m, openExecPrice, closeExecPrice);
              Abs() == e.book && res == e.code && signals == old(signals) + e.signals
    {
      hide AdjustQty, Mean, IncreasedPosition, ClosedPosition, ReversedPosition, Around;
      var position := virtualPositions[m.marketId];
      res := RetError;
      if position.direction == o.direction {
        res, position := IndMarginIncreasePosition(o, position, m, openExecPrice);
      } else if o.orderQuantity <= position.quantity {
        res, position := IndMarginClosePosition(o, position, m, closeExecPrice);
      } else {
        res, position := IndMarginReversePosition(o, position, m, closeExecPrice);
      }
      assert Met(position, res.RetOk?) == Meet(old(virtualPositions)[m.marketId], o, m, openExecPrice, closeExecPrice);
      hide Meet;
      ghost var sent := if res.RetOk? then Around(o, PositionSignal(Updated, position.positionId, o.direction, position.quantity))
                        else [];
      assert signals == old(signals) + sent;
      virtualPositions := virtualPositions[m.marketId := position];
      if position.quantity <= 0.0 {
        OnSignal(PositionSignal(Deleted, position.positionId, position.direction, 0.0));
        freePositions := freePositions + [position.local];
        virtualPositions := virtualPositions - {m.marketId};
        assert virtualPositions == old(virtualPositions) - {m.marketId};
        Associate(old(signals), sent, [PositionSignal(Deleted, position.positionId, position.direction, 0.0)]);
      }
    }

    method IndMarginOpenPosition(o: Order, m: Market, openExecPrice: real) returns (res: ReturnCode)
      requires m.marketId !in virtualPositions
      modifies this
      ensures res == RetOk
      ensures var p := OpenedPosition(o, m, LocalOfNew(old(freePositions)), openExecPrice);
              virtualPositions == old(virtualPositions)[m.marketId := p]
              && freePositions == (if old(freePositions) == [] then [] else old(freePositions)[..|old(freePositions)| - 1])
              && signals == old(signals) + Around(o, PositionSignal(Opened, p.positionId, o.direction, p.quantity))
    {
      OnSignal(OrderSignal(Accepted, o.marketId, o.direction, 0.0));
      OnSignal(OrderSignal(Traded, o.marketId, o.direction, o.orderQuantity));
      var local := NO_LOCAL;
      if |freePositions| > 0 {
        local := freePositions[|freePositions| - 1];
        freePositions := freePositions[..|freePositions| - 1];
      }
      var position := Position(m.marketId, o.marketId, o.direction, 0.0, PRICE_UNDEFINED, local);
      position := position.(quantity := o.orderQuantity);
      position := position.(local := position.local.(entryPrice := openExecPrice));
      position := position.(local := position.local.(entryQty := o.orderQuantity));
      virtualPositions := virtualPositions[position.positionId := position];
      OnSignal(PositionSignal(Opened, position.positionId, o.direction, position.quantity));
      OnSignal(OrderSignal(Removed, o.marketId, o.direction, 0.0));
      return RetOk;
    }

    method IndMarginIncreasePosition(o: Order, p: Position, m: Market, openExecPrice: real)
      returns (res: ReturnCode, position: Position)
      modifies this`signals
      ensures if openExecPrice <= 0.0 then res == RetError && position == p && signals == old(signals)
              else res == RetOk && position == IncreasedPosition(p, o, m, openExecPrice)
                   && signals == old(signals)
                      + Around(o, PositionSignal(Updated, position.positionId, o.direction, position.quantity))
    {
      position := p;
      if openExecPrice <= 0.0 {
        return RetError, position;
      }
      OnSignal(OrderSignal(Accepted, o.marketId, o.direction, 0.0));
      OnSignal(OrderSignal(Traded, o.marketId, o.direction, o.orderQuantity));
      position := position.(avgPrice := Mean(position.avgPrice, position.quantity, openExecPrice, o.orderQuantity));
      position := position.(quantity := AdjustQty(m.qty, position.quantity + o.orderQuantity));
      position := position.(local := position.local.(entryPrice := position.avgPrice, entryQty := position.quantity));
      OnSignal(PositionSignal(Updated, position.positionId, o.direction, position.quantity));
      OnSignal(OrderSignal(Removed, o.marketId, o.direction, 0.0));
      return RetOk, position;
    }

    method IndMarginClosePosition(o: Order, p: Position, m: Market, closeExecPrice: real)
      returns (res: ReturnCode, position: Position)
      modifies this`signals
      ensures if closeExecPrice <= 0.0 then res == RetError && position == p && signals == old(signals)
              else res == RetOk && position == ClosedPosition(p, o, m, closeExecPrice)
                   && signals == old(signals)
                      + Around(o, PositionSignal(Updated, position.positionId, o.direction, position.quantity))
    {
      position := p;
      if closeExecPrice <= 0.0 {
        return RetError, position;
      }
      OnSignal(OrderSignal(Accepted, o.marketId, o.direction, 0.0));
      OnSignal(OrderSignal(Traded, o.marketId, o.direction, o.orderQuantity));
      var local := position.local;
      local := local.(exitPrice := Mean(local.exitPrice, local.exitQty, closeExecPrice, o.orderQuantity));
      local := local.(exitQty := AdjustQty(m.qty, local.exitQty + o.orderQuantity));
      if position.quantity > o.orderQuantity {
        position := position.(quantity := AdjustQty(m.qty, position.quantity - o.orderQuantity));
      } else {
        position := position.(quantity := 0.0);
      }
      position := position.(local := local.(entryQty := position.quantity));
      OnSignal(PositionSignal(Updated, position.positionId, o.direction, position.quantity));
      OnSignal(OrderSignal(Removed, o.marketId, o.direction, 0.0));
      return RetOk, position;
    }

    method IndMarginReversePosition(o: Order, p: Position, m: Market, closeExecPrice: real)
      returns (res: ReturnCode, position: Position)
      modifies this`signals
      ensures if closeExecPrice <= 0.0 then res == RetError && position == p && signals == old(signals)
              else res == RetOk
                   && position == (if o.closeOnly || o.reduceOnly then ClosedPosition(p, o, m, closeExecPrice)
                                   else ReversedPosition(p, o, m, closeExecPrice))
                   && signals == old(signals)
                      + Around(o, PositionSignal(Updated, position.positionId, o.direction, position.quantity))
    {
      if o.closeOnly || o.reduceOnly {
        res, position := IndMarginClosePosition(o, p, m, closeExecPrice);
        return;
      }
      position := p;
      if closeExecPrice <= 0.0 {
        return RetError, position;
      }
      OnSignal(OrderSignal(Accepted, o.marketId, o.direction, 0.0));
      OnSignal(OrderSignal(Traded, o.marketId, o.direction, o.orderQuantity));
      position := position.(local := position.local.(exitPrice := 0.0, exitQty := 0.0));
      var oppositeQty := AdjustQty(m.qty, Basics.Abs(position.quantity - o.orderQuantity));
      position := position.(quantity := oppositeQty);
      position := position.(avgPrice := closeExecPrice);
      position := position.(local := position.local.(entryPrice := closeExecPrice, entryQty := oppositeQty));
      OnSignal(PositionSignal(Updated, position.positionId, o.direction, position.quantity));
      OnSignal(OrderSignal(Removed, o.marketId, o.direction, 0.0));
      return RetOk, position;
    }
  }
}
