/** Laws of the paper broker over whole runs of orders. */
module BrokerLaws {
  import opened Basics
  import opened PaperBroker
  import opened QuantityFilter

  /** An order with the market it is for and the two execution prices of the moment. */
  datatype Request = Request(order: Order, market: Market, openPrice: real, closePrice: real)

  function Do(b: Book, r: Request): Effect {
    Exec(b, r.order, r.market, r.openPrice, r.closePrice)
  }

  const EMPTY := Book(map[], [])

  /** The book after a run, and all the signals sent on the way. */
  datatype Session = Session(book: Book, signals: seq<Signal>)

  function Play(rs: seq<Request>): Session {
    if rs == [] then Session(EMPTY, [])
    else
      var s := Play(Front(rs));
      var e := Do(s.book, Last(rs));
      Session(e.book, s.signals + e.signals)
  }

  // ---- The signal mirror ----

  /** A listener that keeps one quantity per position from position signals alone. */
  function Listen(m: map<string, real>, s: Signal): map<string, real> {
    match s
    case OrderSignal(_, _, _, _) => m
    case PositionSignal(e, id, _, q) => if e.Deleted? then m - {id} else m[id := q]
  }

  function Mirror(signals: seq<Signal>): map<string, real> {
    if signals == [] then map[] else Listen(Mirror(signals[..|signals| - 1]), signals[|signals| - 1])
  }

  function ListenAll(m: map<string, real>, signals: seq<Signal>): map<string, real>
    decreases |signals|
  {
    if signals == [] then m else ListenAll(Listen(m, signals[0]), signals[1..])
  }

  lemma {:induction false} MirrorAppend(xs: seq<Signal>, ys: seq<Signal>)
    ensures Mirror(xs + ys) == ListenAll(Mirror(xs), ys)
    decreases |ys|
  {
    if ys == [] {
      assert xs + ys == xs;
    } else {
      var xs' := xs + [ys[0]];
      assert xs'[..|xs|] == xs && xs + ys == xs' + ys[1..];
      MirrorAppend(xs', ys[1..]);
    }
  }

  function Quantities(ps: Positions): map<string, real> {
    map id | id in ps :: ps[id].quantity
  }

  ghost predicate OwnIds(b: Book) {
    forall id :: id in b.positions ==> b.positions[id].positionId == id
  }

  lemma ListenCons(m: map<string, real>, s: Signal, rest: seq<Signal>)
    ensures ListenAll(m, [s] + rest) == ListenAll(Listen(m, s), rest)
  {
    assert ([s] + rest)[1..] == rest;
  }

  lemma ListenAround(m: map<string, real>, o: Order, inner: Signal, last: seq<Signal>)
    ensures ListenAll(m, Around(o, inner) + last) == ListenAll(Listen(m, inner), last)
  {
    hide ListenAll;
    var a := Around(o, inner);
    var t3 := [a[3]] + last;
    var t2 := [inner] + t3;
    var t1 := [a[1]] + t2;
    assert a + last == [a[0]] + t1;
    ListenCons(m, a[0], t1);
    ListenCons(m, a[1], t2);
    ListenCons(m, inner, t3);
    ListenCons(Listen(m, inner), a[3], last);
  }

  lemma StepMirrored(b: Book, r: Request)
    requires OwnIds(b)
    ensures OwnIds(Do(b, r).book)
    ensures ListenAll(Quantities(b.positions), Do(b, r).signals) == Quantities(Do(b, r).book.positions)
  {
    hide AdjustQty, Mean, ListenAll, Around;
    var o, m := r.order, r.market;
    var q := Quantities(b.positions);
    NothingHeard(q);
    if !Refused(o, m) {
      if m.marketId in b.positions {
        var met := Meet(b.positions[m.marketId], o, m, r.openPrice, r.closePrice);
        var p := met.position;
        assert p.positionId == m.marketId;
        var deleted := PositionSignal(Deleted, p.positionId, p.direction, 0.0);
        var updated := PositionSignal(Updated, p.positionId, o.direction, p.quantity);
        ListenAround(q, o, updated, []);
        ListenAround(q, o, updated, [deleted]);
        NothingHeard(Listen(q, updated));
        OneHeard(q, deleted);
        OneHeard(Listen(q, updated), deleted);
        assert Around(o, updated) + [] == Around(o, updated);
        assert q[m.marketId := p.quantity] == Quantities(b.positions[m.marketId := p]);
        assert q[m.marketId := p.quantity] - {m.marketId} == q - {m.marketId} == Quantities(b.positions - {m.marketId});
      } else if !o.closeOnly && !o.reduceOnly {
        var p := OpenedPosition(o, m, LocalOfNew(b.recycled), r.openPrice);
        var isOpened := PositionSignal(Opened, p.positionId, o.direction, p.quantity);
        ListenAround(q, o, isOpened, []);
        NothingHeard(Listen(q, isOpened));
        assert Around(o, isOpened) + [] == Around(o, isOpened);
        assert q[m.marketId := p.quantity] == Quantities(b.positions[m.marketId := p]);
      }
    }
  }

  lemma NothingHeard(m: map<string, real>)
    ensures ListenAll(m, []) == m
  {
  }

  lemma OneHeard(m: map<string, real>, s: Signal)
    ensures ListenAll(m, [s]) == Listen(m, s) && [] + [s] == [s]
  {
    assert [s][1..] == [];
  }

  /** After every run of orders, executed, rejected or reversing, a listener to the position signals
      holds exactly the book. */
  lemma {:induction false} SignalsMirrorBook(rs: seq<Request>)
    ensures OwnIds(Play(rs).book)
    ensures Mirror(Play(rs).signals) == Quantities(Play(rs).book.positions)
  {
    if rs == [] {
      assert Quantities(map[]) == map[];
    } else {
      hide Do, ListenAll, Quantities, OwnIds;
      var s := Play(rs[..|rs| - 1]);
      SignalsMirrorBook(rs[..|rs| - 1]);
      StepMirrored(s.book, rs[|rs| - 1]);
      MirrorAppend(s.signals, Do(s.book, rs[|rs| - 1]).signals);
    }
  }

  // ---- Netting ----

  /** Signed position of a market: positive long, negative short, 0 when there is none. */
  function Signed(b: Book, id: string): real {
    if id in b.positions then b.positions[id].direction as real * b.positions[id].quantity else 0.0
  }

  function Fill(s: Signal, id: string): real {
    if s.OrderSignal? && s.onOrder.Traded? && s.market == id then s.dir as real * s.filled else 0.0
  }

  /** Sum of the signed fills reported for a market. */
  function NetFills(signals: seq<Signal>, id: string): real {
    if signals == [] then 0.0
    else NetFills(signals[..|signals| - 1], id) + Fill(signals[|signals| - 1], id)
  }

  lemma {:induction false} NetFillsAppend(xs: seq<Signal>, ys: seq<Signal>, id: string)
    ensures NetFills(xs + ys, id) == NetFills(xs, id) + NetFills(ys, id)
  {
    if ys == [] {
      assert xs + ys == xs;
    } else {
      NetFillsAppend(xs, ys[..|ys| - 1], id);
      assert (xs + ys)[..|xs + ys| - 1] == xs + ys[..|ys| - 1];
    }
  }

  lemma NetFillsAround(o: Order, inner: Signal, last: seq<Signal>, id: string)
    requires inner.PositionSignal? && (last == [] || (|last| == 1 && last[0].PositionSignal?))
    ensures NetFills(Around(o, inner) + last, id) == if o.marketId == id then o.direction as real * o.orderQuantity else 0.0
  {
    hide NetFills;
    var a := Around(o, inner);
    NetFillsAppend(a, last, id);
    assert a == [a[0]] + [a[1]] + [a[2]] + [a[3]];
    NetFillsAppend([a[0]] + [a[1]] + [a[2]], [a[3]], id);
    NetFillsAppend([a[0]] + [a[1]], [a[2]], id);
    NetFillsAppend([a[0]], [a[1]], id);
    forall s | s in a || s in last ensures NetFills([s], id) == Fill(s, id) {
      OneFill(s, id);
    }
    NoFills(id);
    assert last != [] ==> last == [last[0]] && Fill(last[0], id) == 0.0;
  }

  lemma OneFill(s: Signal, id: string)
    ensures NetFills([s], id) == Fill(s, id)
  {
    assert [s][..0] == [];
  }

  /** An order for its market, with a direction and a positive quantity. */
  predicate GoodRequest(r: Request) {
    r.order.marketId == r.market.marketId
    && (r.order.direction == 1 || r.order.direction == -1) && r.order.orderQuantity > 0.0
  }

  predicate GoodBook(b: Book) {
    forall id :: id in b.positions ==> GoodPosition(b.positions[id])
  }

  predicate GoodPosition(p: Position) {
    (p.direction == 1 || p.direction == -1) && p.quantity > 0.0
  }

  /** The order meets a position, and has a price to be executed at. */
  predicate Meets(b: Book, r: Request) {
    var id := r.market.marketId;
    !Refused(r.order, r.market) && id in b.positions
    && (if b.positions[id].direction == r.order.direction then r.openPrice else r.closePrice) > 0.0
  }

  /** What the order should leave of the position it meets, on the side of the position. */
  function Left(p: Position, o: Order): real {
    if p.direction == o.direction then p.quantity + o.orderQuantity else p.quantity - o.orderQuantity
  }

  /** The order is larger than the opposite position it meets. */
  predicate Overshoots(b: Book, r: Request) {
    Meets(b, r) && Left(b.positions[r.market.marketId], r.order) < 0.0
  }

  /** The filter of the market does not admit what the order leaves: it is cut to nothing, clipped or
      rounded, although an opening order is not. */
  ghost predicate Cuts(b: Book, r: Request) {
    Meets(b, r)
    && var left := Left(b.positions[r.market.marketId], r.order);
       left > 0.0 && !Admits(r.market.qty, left)
  }

  /** What the order leaves is over the maximum size of an order, or under the minimum. */
  predicate Clips(b: Book, r: Request) {
    Meets(b, r)
    && var left := Left(b.positions[r.market.marketId], r.order);
       left > 0.0 && !InBounds(r.market.qty, left)
  }

  lemma FillOfStep(b: Book, r: Request, id: string)
    requires GoodRequest(r)
    ensures NetFills(Do(b, r).signals, id)
         == if Do(b, r).code.RetOk? && id == r.market.marketId then r.order.direction as real * r.order.orderQuantity else 0.0
  {
    hide AdjustQty, Mean, NetFills;
    var o, m := r.order, r.market;
    NoFills(id);
    if !Refused(o, m) {
      if m.marketId in b.positions {
        var p := Meet(b.positions[m.marketId], o, m, r.openPrice, r.closePrice).position;
        var updated, deleted := PositionSignal(Updated, p.positionId, o.direction, p.quantity),
                                PositionSignal(Deleted, p.positionId, p.direction, 0.0);
        NetFillsAround(o, updated, [], id);
        NetFillsAround(o, updated, [deleted], id);
        OneFill(deleted, id);
        assert Around(o, updated) + [] == Around(o, updated) && [] + [deleted] == [deleted];
      } else if !o.closeOnly && !o.reduceOnly {
        var isOpened := PositionSignal(Opened, m.marketId, o.direction, o.orderQuantity);
        NetFillsAround(o, isOpened, [], id);
        assert Around(o, isOpened) + [] == Around(o, isOpened);
      }
    }
  }

  lemma NoFills(id: string)
    ensures NetFills([], id) == 0.0
  {
  }

  /** The quantity of a position after an order that meets it, none when it is deleted. */
  function Rest(p: Position): real { if p.quantity > 0.0 then p.quantity else 0.0 }

  /** An order leaves of the position it meets what it should iff it neither overshoots nor cuts. */
  lemma MeetLeavesIff(b: Book, r: Request)
    requires Meets(b, r) && GoodRequest(r) && GoodPosition(b.positions[r.market.marketId])
    ensures var p := b.positions[r.market.marketId];
            var met := Meet(p, r.order, r.market, r.openPrice, r.closePrice);
            met.executed && met.position.direction == p.direction
            && (Rest(met.position) == Left(p, r.order) <==> !Overshoots(b, r) && !Cuts(b, r))
  {
    hide AdjustQty, Mean, Admits;
    var p, f := b.positions[r.market.marketId], r.market.qty;
    var left := Left(p, r.order);
    if left > 0.0 {
      AdjustKeepsIff(f, left);
    } else {
      AdjustedNotNegative(f, -left);
    }
  }

  lemma SignedSum(d: int, e: int, q: real, x: real)
    requires (d == 1 || d == -1) && (e == 1 || e == -1)
    ensures d as real * q + e as real * x == d as real * (if d == e then q + x else q - x)
  {
  }

  /** What an order does to the signed position of its market, and to the others. */
  lemma StepSigns(b: Book, r: Request)
    requires GoodBook(b) && GoodRequest(r)
    ensures var id, e := r.market.marketId, Do(b, r);
            && (Signed(e.book, id) == Signed(b, id) + (if e.code.RetOk? then r.order.direction as real * r.order.orderQuantity else 0.0)
                <==> !Overshoots(b, r) && !Cuts(b, r))
            && (forall other :: other != id ==> Signed(e.book, other) == Signed(b, other))
            && GoodBook(e.book)
  {
    hide AdjustQty, Mean, Admits, Around, IncreasedPosition, ClosedPosition, ReversedPosition;
    var id, m := r.market.marketId, r.market;
    if Meets(b, r) {
      MeetLeavesIff(b, r);
      var p := b.positions[id];
      assert GoodPosition(p);
      SignedSum(p.direction, r.order.direction, p.quantity, r.order.orderQuantity);
      SameSide(p.direction, Rest(Meet(p, r.order, m, r.openPrice, r.closePrice).position), Left(p, r.order));
    } else if id in b.positions && !Refused(r.order, m) {
      assert Meet(b.positions[id], r.order, m, r.openPrice, r.closePrice) == Met(b.positions[id], false);
    }
  }

  lemma SameSide(d: int, x: real, y: real)
    requires d == 1 || d == -1
    ensures d as real * x == d as real * y <==> x == y
    ensures d as real * 0.0 == 0.0
  {
  }

  lemma StepNetsIff(b: Book, r: Request)
    requires GoodBook(b) && GoodRequest(r)
    ensures GoodBook(Do(b, r).book)
    ensures (forall id :: Signed(Do(b, r).book, id) == Signed(b, id) + NetFills(Do(b, r).signals, id))
       <==> !Overshoots(b, r) && !Cuts(b, r)
  {
    StepSigns(b, r);
    hide Do, NetFills, Signed, GoodRequest, Cuts, Overshoots, GoodBook;
    forall id
      ensures NetFills(Do(b, r).signals, id)
           == if Do(b, r).code.RetOk? && id == r.market.marketId then r.order.direction as real * r.order.orderQuantity else 0.0
    {
      FillOfStep(b, r, id);
    }
    if forall id :: Signed(Do(b, r).book, id) == Signed(b, id) + NetFills(Do(b, r).signals, id) {
      var id := r.market.marketId;
      assert Signed(Do(b, r).book, id) == Signed(b, id) + NetFills(Do(b, r).signals, id);
    }
  }

  lemma OvershootBreaksNetting(b: Book, r: Request)
    requires GoodBook(b) && GoodRequest(r) && Overshoots(b, r)
    ensures Signed(Do(b, r).book, r.market.marketId)
         != Signed(b, r.market.marketId) + NetFills(Do(b, r).signals, r.market.marketId)
  {
    hide Do, NetFills, Signed, Overshoots, GoodBook;
    FillOfStep(b, r, r.market.marketId);
    StepSigns(b, r);
  }

  lemma CutBreaksNetting(b: Book, r: Request)
    requires GoodBook(b) && GoodRequest(r) && Cuts(b, r)
    ensures Signed(Do(b, r).book, r.market.marketId)
         != Signed(b, r.market.marketId) + NetFills(Do(b, r).signals, r.market.marketId)
  {
    hide Do, NetFills, Signed, GoodBook, Cuts;
    FillOfStep(b, r, r.market.marketId);
    StepSigns(b, r);
  }

  /** The filter has no room for what the order leaves to the last decimal, and rounds it. */
  ghost predicate Rounds(b: Book, r: Request) {
    Meets(b, r)
    && var left := Left(b.positions[r.market.marketId], r.order);
       left > 0.0 && !Written(r.market.qty, left)
  }

  /** With quantities in whole steps, only the bounds and the precision cut. */
  lemma GridCutsIff(b: Book, r: Request)
    requires Meets(b, r) && r.market.qty.step > 0.0
    requires OnGrid(r.market.qty, b.positions[r.market.marketId].quantity) && OnGrid(r.market.qty, r.order.orderQuantity)
    ensures Cuts(b, r) <==> Clips(b, r) || Rounds(b, r)
    ensures DecimalStep(r.market.qty) ==> !Rounds(b, r)
  {
    hide Admits, OnGrid, InBounds, Written, DecimalStep;
    var p, f := b.positions[r.market.marketId], r.market.qty;
    GridSum(f, p.quantity, r.order.orderQuantity);
    if Left(p, r.order) > 0.0 {
      GridIsAdmittedIff(f, Left(p, r.order));
      if DecimalStep(f) {
        GridIsWritten(f, Left(p, r.order));
      }
    }
  }

  // ---- Netting over whole runs ----

  /** No order of the run overshoots the position it meets, or leaves what its market does not admit. */
  ghost predicate AlwaysFits(rs: seq<Request>) {
    rs != [] ==>
      var before, r := Play(Front(rs)).book, Last(rs);
      AlwaysFits(Front(rs)) && !Overshoots(before, r) && !Cuts(before, r)
  }

  /** The signed position of every market is the sum of its signed fills. */
  ghost predicate Netted(s: Session) {
    forall id :: Signed(s.book, id) == NetFills(s.signals, id)
  }

  ghost predicate AlwaysNetted(rs: seq<Request>) {
    Netted(Play(rs)) && (rs != [] ==> AlwaysNetted(Front(rs)))
  }

  lemma NettedStep(s: Session, r: Request)
    requires Netted(s) && GoodBook(s.book) && GoodRequest(r)
    ensures var e := Do(s.book, r);
            Netted(Session(e.book, s.signals + e.signals)) <==> !Overshoots(s.book, r) && !Cuts(s.book, r)
  {
    hide NetFills, Signed, GoodBook, GoodRequest, Cuts, Overshoots, Do;
    var e := Do(s.book, r);
    forall id ensures NetFills(s.signals + e.signals, id) == NetFills(s.signals, id) + NetFills(e.signals, id) {
      NetFillsAppend(s.signals, e.signals, id);
    }
    StepNetsIff(s.book, r);
  }

  lemma {:induction false} NettingOverRuns(rs: seq<Request>)
    requires forall r :: r in rs ==> GoodRequest(r)
    ensures AlwaysNetted(rs) <==> AlwaysFits(rs)
    ensures GoodBook(Play(rs).book)
  {
    if rs == [] {
      assert forall id :: NetFills([], id) == 0.0;
    } else {
      hide NetFills, Netted, GoodBook, GoodRequest, Cuts, Overshoots, Do;
      var front := Front(rs);
      assert Last(rs) in rs;
      NettingOverRuns(front);
      StepNetsIff(Play(front).book, Last(rs));
      if AlwaysFits(front) {
        assert Netted(Play(front)) by { assert AlwaysNetted(front); }
        NettedStep(Play(front), Last(rs));
      }
    }
  }

  /** At every point of a run the book nets all fills so far iff no order of the run overshoots the position
      it meets or leaves what its market does not admit; then a market has a position iff its fills do not
      cancel out. */
  lemma NettingIff(rs: seq<Request>)
    requires forall r :: r in rs ==> GoodRequest(r)
    ensures AlwaysNetted(rs) <==> AlwaysFits(rs)
    ensures AlwaysFits(rs) ==>
              forall id :: id in Play(rs).book.positions <==> NetFills(Play(rs).signals, id) != 0.0
  {
    hide NetFills, AlwaysFits, GoodRequest, Play;
    NettingOverRuns(rs);
    if AlwaysFits(rs) {
      var s := Play(rs);
      assert Netted(s) by { assert AlwaysNetted(rs); }
      forall id ensures id in s.book.positions <==> NetFills(s.signals, id) != 0.0 {
        assert Signed(s.book, id) == NetFills(s.signals, id);
      }
    }
  }

  // ---- Steps that the precision rounds ----

  /** A request at one price. */
  function Ticket(market: Market, direction: int, quantity: real, price: real): Request {
    Request(Order("", market.marketId, Some(IndMargin), direction, quantity, false, false, false), market, price, price)
  }

  const QUARTERS := Market("Q", Filter(0.0, 0.0, 0.25, 1), false)

  lemma BuyHalf()
    ensures var e := Do(EMPTY, Ticket(QUARTERS, 1, 0.5, 2.0));
            "Q" in e.book.positions && e.code.RetOk?
            && e.book.positions["Q"].direction == 1 && e.book.positions["Q"].quantity == 0.5
  {
    hide Around;
  }

  lemma SellQuarter(b: Book)
    requires "Q" in b.positions && b.positions["Q"].direction == 1 && b.positions["Q"].quantity == 0.5
    ensures var sell := Ticket(QUARTERS, -1, 0.25, 2.0);
            Signed(Do(b, sell).book, "Q") == 0.3 && Do(b, sell).code.RetOk? && !Overshoots(b, sell)
  {
    hide Around, Mean, AdjustQty;
    QuarterIsRounded();
  }

  /** On a market with steps of a quarter, a half is bought and a quarter sold, without overshooting: the
      position is 0.3, where the fills net to 0.25. */
  lemma QuarterStepsBreakNetting()
    ensures SetQtyFilter(Filter(0.0, 0.0, 0.0, 0), 0.0, 0.0, 0.25) == QUARTERS.qty
    ensures OnGrid(QUARTERS.qty, 0.5) && OnGrid(QUARTERS.qty, 0.25)
    ensures var run := [Ticket(QUARTERS, 1, 0.5, 2.0), Ticket(QUARTERS, -1, 0.25, 2.0)];
            Signed(Play(run).book, "Q") == 0.3 && NetFills(Play(run).signals, "Q") == 0.25
            && !Overshoots(Play(Front(run)).book, Last(run))
  {
    QuarterIsRounded();
    assert Multiple(2, 0.25, 0.5) && Multiple(1, 0.25, 0.25);
    hide Do, NetFills, Signed, SetQtyFilter, AdjustQty, Overshoots, Ticket, Play;
    var buy, sell := Ticket(QUARTERS, 1, 0.5, 2.0), Ticket(QUARTERS, -1, 0.25, 2.0);
    var bought := Do(EMPTY, buy);
    PlayTwo(buy, sell);
    BuyHalf();
    SellQuarter(bought.book);
    QuarterFills(bought.book);
    NetFillsAppend(bought.signals, Do(bought.book, sell).signals, "Q");
  }

  lemma PlayTwo(r1: Request, r2: Request)
    ensures var e1 := Do(EMPTY, r1);
            var e2 := Do(e1.book, r2);
            Play([r1, r2]) == Session(e2.book, e1.signals + e2.signals)
            && Play(Front([r1, r2])).book == e1.book && Last([r1, r2]) == r2
  {
    hide Do;
    assert Front([r1, r2]) == [r1] && Front([r1]) == [];
    assert Play([]) == Session(EMPTY, []);
    var e := Do(EMPTY, r1);
    assert Play([r1]) == Session(e.book, [] + e.signals);
    assert [] + e.signals == e.signals;
  }

  lemma QuarterFills(b: Book)
    ensures var buy, sell := Ticket(QUARTERS, 1, 0.5, 2.0), Ticket(QUARTERS, -1, 0.25, 2.0);
            && (Do(EMPTY, buy).code.RetOk? ==> NetFills(Do(EMPTY, buy).signals, "Q") == 0.5)
            && (Do(b, sell).code.RetOk? ==> NetFills(Do(b, sell).signals, "Q") == -0.25)
  {
    hide Do, NetFills;
    FillOfStep(EMPTY, Ticket(QUARTERS, 1, 0.5, 2.0), "Q");
    FillOfStep(b, Ticket(QUARTERS, -1, 0.25, 2.0), "Q");
  }
}
