/** What becomes of an order: when it is executed, what it never does, and what it leaves in the position it
    meets, for each order and over runs. */
module OrderOutcomes {
  import opened Basics
  import opened PaperBroker
  import opened BrokerLaws
  import opened ExitLaws

  // ---- Which orders are executed ----

  /** An order may only reduce a position, never make one. */
  predicate OnlyReduces(o: Order) { o.closeOnly || o.reduceOnly }

  /** It is for indivisible margin, hedges only where the market does, and finds a position and a price on its
      side, or no position and may open one. */
  predicate Executable(b: Book, r: Request) {
    var id, o := r.market.marketId, r.order;
    && o.strategy == Some(IndMargin)
    && (o.hedging ==> r.market.hedging)
    && if id in b.positions then
         (if b.positions[id].direction == o.direction then r.openPrice > 0.0 else r.closePrice > 0.0)
       else !OnlyReduces(o)
  }

  /** An order is executed iff it can be; otherwise nothing changes and nothing is sent, and the code tells an
      order that finds nothing to reduce from the others. */
  lemma ExecutedIff(b: Book, r: Request)
    requires GoodBook(b)
    ensures Do(b, r).code.RetOk? <==> Executable(b, r)
    ensures !Executable(b, r) ==> Do(b, r).book == b && Do(b, r).signals == []
    ensures Do(b, r).code.RetInvalidArgs?
       <==> r.order.strategy == Some(IndMargin) && (r.order.hedging ==> r.market.hedging)
            && r.market.marketId !in b.positions && OnlyReduces(r.order)
  {
    hide AdjustQty, Mean, Around, IncreasedPosition, ClosedPosition, ReversedPosition;
    var id := r.market.marketId;
    if id in b.positions {
      assert GoodPosition(b.positions[id]);
      if !Executable(b, r) { assert b.positions[id := b.positions[id]] == b.positions; }
    }
  }

  // ---- Orders that only reduce ----

  /** An order that only reduces never gives a market a position; where there is none, it changes nothing. */
  lemma ReducingOpensNothing(b: Book, r: Request)
    requires OnlyReduces(r.order)
    ensures Do(b, r).book.positions.Keys <= b.positions.Keys
    ensures r.market.marketId !in b.positions ==>
              Do(b, r).book == b && Do(b, r).signals == [] && !Do(b, r).code.RetOk?
  {
    hide AdjustQty, Mean, Around, Meet;
  }

  /** Over a run: every market with a position had an order that was free to open one. */
  lemma {:induction false} PositionsWereOpened(rs: seq<Request>, id: string)
    requires id in Play(rs).book.positions
    ensures exists r :: r in rs && r.market.marketId == id && !OnlyReduces(r.order)
  {
    hide AdjustQty, Mean, Around, Meet;
    if rs != [] {
      var front, r := Front(rs), Last(rs);
      if id in Play(front).book.positions {
        PositionsWereOpened(front, id);
        var q :| q in front && q.market.marketId == id && !OnlyReduces(q.order);
        assert q in rs;
      } else {
        assert r in rs;
        if OnlyReduces(r.order) { ReducingOpensNothing(Play(front).book, r); }
      }
    }
  }

  // ---- The signals of an order ----

  /** The signals about orders, without those about positions. */
  function OrderSignals(signals: seq<Signal>): seq<Signal> {
    if signals == [] then []
    else (if signals[0].OrderSignal? then [signals[0]] else []) + OrderSignals(signals[1..])
  }

  /** An executed order is accepted, traded in full and removed, in that order, and tells of one position in
      between; nothing is sent for any other. */
  lemma OrderLifecycle(b: Book, r: Request)
    requires GoodBook(b)
    ensures var signals, o := Do(b, r).signals, r.order;
            if Executable(b, r) then
              |signals| >= 4
              && signals[0] == OrderSignal(Accepted, o.marketId, o.direction, 0.0)
              && signals[1] == OrderSignal(Traded, o.marketId, o.direction, o.orderQuantity)
              && signals[2].PositionSignal? && !signals[2].onPosition.Deleted?
              && signals[3] == OrderSignal(Removed, o.marketId, o.direction, 0.0)
              && forall i :: 4 <= i < |signals| ==> signals[i].PositionSignal? && signals[i].onPosition.Deleted?
            else signals == []
  {
    hide AdjustQty, Mean, IncreasedPosition, ClosedPosition, ReversedPosition;
    ExecutedIff(b, r);
  }

  // ---- Quantities and prices of positions ----

  predicate EntriesMatch(b: Book) {
    forall id :: id in b.positions ==> b.positions[id].local.entryQty == b.positions[id].quantity
  }

  lemma StepEntriesMatch(b: Book, r: Request)
    requires EntriesMatch(b)
    ensures EntriesMatch(Do(b, r).book)
  {
    hide AdjustQty, Mean, Around;
  }

  /** In every run the entry quantity of a position is its quantity. */
  lemma {:induction false} EntryQuantityIsQuantity(rs: seq<Request>)
    ensures EntriesMatch(Play(rs).book)
  {
    if rs == [] {
      assert Play([]).book == EMPTY;
    } else {
      hide Do, EntriesMatch;
      EntryQuantityIsQuantity(Front(rs));
      StepEntriesMatch(Play(Front(rs)).book, Last(rs));
    }
  }

  predicate Increases(b: Book, r: Request) {
    Meets(b, r) && b.positions[r.market.marketId].direction == r.order.direction
  }

  /** An increase conserves cost: the new average over both quantities is what they cost together. */
  lemma IncreaseConservesCost(b: Book, r: Request)
    requires GoodBook(b) && GoodRequest(r) && Increases(b, r) && r.market.marketId in Do(b, r).book.positions
    ensures var p, p' := b.positions[r.market.marketId], Do(b, r).book.positions[r.market.marketId];
            p'.avgPrice * (p.quantity + r.order.orderQuantity)
              == p.avgPrice * p.quantity + r.openPrice * r.order.orderQuantity
            && p'.local.entryPrice == p'.avgPrice
            && p'.local.exitPrice == p.local.exitPrice && p'.local.exitQty == p.local.exitQty
  {
    hide AdjustQty, Mean, Around;
    var p := b.positions[r.market.marketId];
    assert GoodPosition(p);
    MeanTimesWeight(p.avgPrice, p.quantity, r.openPrice, r.order.orderQuantity);
  }

  /** A closing fill leaves the entry price and the average alone. */
  lemma ClosingKeepsEntry(b: Book, r: Request)
    requires Closes(b, r)
    ensures LocalAfter(b, r).entryPrice == LocalBefore(b, r).entryPrice
    ensures var id := r.market.marketId;
            id in Do(b, r).book.positions ==> Do(b, r).book.positions[id].avgPrice == b.positions[id].avgPrice
  {
    hide AdjustQty, Mean, Around;
  }

  /** An order that overshoots, and may, starts the position again at its price, with nothing exited. */
  lemma ReversalStartsAgain(b: Book, r: Request)
    requires GoodBook(b) && GoodRequest(r) && Overshoots(b, r) && !OnlyReduces(r.order)
    requires r.market.marketId in Do(b, r).book.positions
    ensures var p := Do(b, r).book.positions[r.market.marketId];
            p.avgPrice == r.closePrice && p.local == Local(r.closePrice, p.quantity, 0.0, 0.0)
  {
    hide AdjustQty, Mean, Around;
  }

  // ---- Recycled positions ----

  /** The order opens a position. */
  predicate OpensOne(b: Book, r: Request) { r.market.marketId !in b.positions && Executable(b, r) }

  /** A new position costs its price, and takes the exit figures of the object freed last. */
  lemma NewPositionReuses(b: Book, r: Request)
    requires OpensOne(b, r)
    ensures var p := Do(b, r).book.positions;
            r.market.marketId in p
            && var l := p[r.market.marketId].local;
               && l.entryPrice == r.openPrice && l.entryQty == r.order.orderQuantity
               && (b.recycled == [] ==> l.exitPrice == 0.0 && l.exitQty == 0.0)
               && (b.recycled != [] ==> l.exitPrice == Last(b.recycled).exitPrice && l.exitQty == Last(b.recycled).exitQty)
  {
    hide Around;
  }

  /** The object freed last is the next one used, and the others stay as they were. */
  lemma FreedIsReusedFirst(b: Book, close: Request, open: Request)
    requires Closes(b, close) && close.market.marketId !in Do(b, close).book.positions
    requires OpensOne(Do(b, close).book, open)
    ensures var freed, after := LocalAfter(b, close), Do(Do(b, close).book, open).book;
            after.recycled == b.recycled
            && after.positions[open.market.marketId].local == freed.(entryPrice := open.openPrice, entryQty := open.order.orderQuantity)
  {
    hide AdjustQty, Mean, Around;
  }

  /** The most positions at once over the run. */
  function PeakPositions(rs: seq<Request>): nat {
    if rs == [] then 0
    else
      var before, now := PeakPositions(Front(rs)), |Play(rs).book.positions|;
      if before < now then now else before
  }

  lemma StepObjects(b: Book, r: Request)
    ensures var after := Do(b, r).book;
            |after.positions| + |after.recycled|
            == if |b.recycled| + |b.positions| < |after.positions| then |after.positions| else |b.recycled| + |b.positions|
  {
    hide AdjustQty, Mean, Around, Meet;
    var id := r.market.marketId;
    var after := Do(b, r).book;
    if !Refused(r.order, r.market) {
      if id in b.positions {
        MapSizes(b.positions, id, Meet(b.positions[id], r.order, r.market, r.openPrice, r.closePrice).position);
      } else {
        MapSizes(b.positions, id, OpenedPosition(r.order, r.market, LocalOfNew(b.recycled), r.openPrice));
      }
    }
  }

  lemma MapSizes(m: Positions, id: string, p: Position)
    ensures id in m ==> |m - {id}| == |m| - 1 && |m[id := p]| == |m|
    ensures id !in m ==> |m[id := p]| == |m| + 1
  {
    assert (m - {id}).Keys == m.Keys - {id} && m[id := p].Keys == m.Keys + {id};
    assert |(m - {id}).Keys| == |m - {id}| && |m[id := p].Keys| == |m[id := p]| && |m.Keys| == |m|;
  }

  /** Position objects are never wasted: in every run there are as many, in use or freed, as positions were
      open at once. */
  lemma {:induction false} ObjectsArePeak(rs: seq<Request>)
    ensures |Play(rs).book.positions| + |Play(rs).book.recycled| == PeakPositions(rs)
  {
    if rs == [] {
      assert Play([]).book == EMPTY;
    } else {
      hide Do;
      ObjectsArePeak(Front(rs));
      StepObjects(Play(Front(rs)).book, Last(rs));
    }
  }
}
