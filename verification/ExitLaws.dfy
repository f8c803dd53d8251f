/** What closing fills book on a position object, which keeps its exit figures when it is recycled, and
    what increasing fills make of the entry price. */
module ExitLaws {
  import opened Basics
  import opened PaperBroker
  import opened QuantityFilter
  import opened BrokerLaws

  // ---- Means and the quantity filter ----

  lemma MeanTimesWeight(x: real, wx: real, y: real, wy: real)
    requires wx + wy > 0.0
    ensures Mean(x, wx, y, wy) * (wx + wy) == x * wx + y * wy
  {
  }

  lemma MeanPositive(x: real, wx: real, y: real, wy: real)
    requires x >= 0.0 && wx >= 0.0 && y > 0.0 && wy > 0.0
    ensures Mean(x, wx, y, wy) > 0.0
  {
    assert x * wx >= 0.0 && y * wy > 0.0;
    QuotientPositive(x * wx + y * wy, wx + wy);
  }

  lemma QuotientPositive(a: real, b: real)
    requires a > 0.0 && b > 0.0
    ensures a / b > 0.0
  {
  }

  // ---- Exit figures never become negative ----

  predicate SoundExit(l: Local) { l.exitQty >= 0.0 && l.exitPrice >= 0.0 }

  ghost predicate SoundExits(b: Book) {
    (forall id :: id in b.positions ==> SoundExit(b.positions[id].local))
    && forall i :: 0 <= i < |b.recycled| ==> SoundExit(b.recycled[i])
  }

  lemma MeetSoundExit(p: Position, o: Order, m: Market, openPrice: real, closePrice: real)
    requires SoundExit(p.local) && o.orderQuantity > 0.0
    ensures SoundExit(Meet(p, o, m, openPrice, closePrice).position.local)
  {
    hide AdjustQty, Mean;
    AdjustedNotNegative(m.qty, p.local.exitQty + o.orderQuantity);
    if closePrice > 0.0 {
      MeanPositive(p.local.exitPrice, p.local.exitQty, closePrice, o.orderQuantity);
    }
  }

  lemma StepSoundExits(b: Book, r: Request)
    requires SoundExits(b) && r.order.orderQuantity > 0.0
    ensures SoundExits(Do(b, r).book)
  {
    hide AdjustQty, Mean, Meet, Around;
    var id := r.market.marketId;
    if !Refused(r.order, r.market) && id in b.positions {
      MeetSoundExit(b.positions[id], r.order, r.market, r.openPrice, r.closePrice);
    }
  }

  lemma {:induction false} ExitsStaySound(rs: seq<Request>)
    requires forall r :: r in rs ==> r.order.orderQuantity > 0.0
    ensures SoundExits(Play(rs).book)
  {
    if rs != [] {
      hide Do, SoundExits;
      assert Last(rs) in rs;
      ExitsStaySound(Front(rs));
      StepSoundExits(Play(Front(rs)).book, Last(rs));
    } else {
      assert Play(rs).book == EMPTY;
    }
  }

  // ---- Closing fills ----

  /** The order is a closing fill of the position it meets. */
  predicate Closes(b: Book, r: Request) {
    Meets(b, r)
    && var p, o := b.positions[r.market.marketId], r.order;
       p.direction != o.direction && (o.orderQuantity <= p.quantity || o.closeOnly || o.reduceOnly)
  }

  function LocalBefore(b: Book, r: Request): Local
    requires Closes(b, r)
  {
    b.positions[r.market.marketId].local
  }

  /** What the same position object holds afterwards: it is still in the book, or freed last. */
  function LocalAfter(b: Book, r: Request): Local
    requires Closes(b, r)
  {
    var after := Do(b, r).book;
    if r.market.marketId in after.positions then after.positions[r.market.marketId].local else Last(after.recycled)
  }

  function ExitTotal(l: Local): real { l.exitPrice * l.exitQty }

  /** The fill raises the exit total of its position by exactly quantity times price. */
  predicate Booked(b: Book, r: Request)
    requires Closes(b, r)
  {
    ExitTotal(LocalAfter(b, r)) == ExitTotal(LocalBefore(b, r)) + r.closePrice * r.order.orderQuantity
  }

  /** The filter of this market admits the exit quantity with the fill, whatever earlier positions left in
      the object. */
  ghost predicate HasRoom(b: Book, r: Request)
    requires Closes(b, r)
  {
    Admits(r.market.qty, LocalBefore(b, r).exitQty + r.order.orderQuantity)
  }

  lemma LocalAfterClose(b: Book, r: Request)
    requires Closes(b, r)
    ensures LocalAfter(b, r) == ClosedPosition(b.positions[r.market.marketId], r.order, r.market, r.closePrice).local
  {
    hide AdjustQty, Mean, Around;
  }

  lemma FillBookedIff(b: Book, r: Request)
    requires SoundExits(b) && Closes(b, r) && r.order.orderQuantity > 0.0
    ensures Booked(b, r) <==> HasRoom(b, r)
  {
    hide Admits, AdjustQty, Mean;
    LocalAfterClose(b, r);
    var l, l', f := LocalBefore(b, r), LocalAfter(b, r), r.market.qty;
    var total := l.exitQty + r.order.orderQuantity;
    hide Closes, LocalBefore, LocalAfter, Do, Meets;
    AdjustKeepsIff(f, total);
    MeanTimesWeight(l.exitPrice, l.exitQty, r.closePrice, r.order.orderQuantity);
    ClosePriceIsPositive(b, r);
    MeanPositive(l.exitPrice, l.exitQty, r.closePrice, r.order.orderQuantity);
    SameFactorIff(l'.exitPrice, l'.exitQty, total);
  }

  lemma ClosePriceIsPositive(b: Book, r: Request)
    requires Closes(b, r)
    ensures r.closePrice > 0.0
  {
  }

  lemma SameFactorIff(x: real, a: real, b: real)
    requires x > 0.0
    ensures x * a == x * b <==> a == b
  {
    assert x * a / x == a && x * b / x == b;
  }

  /** In every run, each closing fill raises the exit total of its position by exactly quantity times
      price iff the exit quantity has room for it. */
  lemma ClosingFillsBookedIff(rs: seq<Request>, k: nat)
    requires k < |rs| && forall r :: r in rs ==> r.order.orderQuantity > 0.0
    ensures var b := Play(rs[..k]).book;
            Closes(b, rs[k]) ==> (Booked(b, rs[k]) <==> HasRoom(b, rs[k]))
  {
    hide Booked, HasRoom, Closes, Play, SoundExits;
    var b := Play(rs[..k]).book;
    assert rs[k] in rs;
    assert forall r :: r in rs[..k] ==> r in rs;
    ExitsStaySound(rs[..k]);
    if Closes(b, rs[k]) {
      FillBookedIff(b, rs[k]);
    }
  }

  // ---- A recycled position that books a wrong exit ----

  const HALVES := Market("A", Filter(0.0, 0.0, 0.5, 1), false)
  const WHOLES := Market("B", Filter(0.0, 0.0, 1.0, 0), false)

  lemma OpensAlone(recycled: seq<Local>, market: Market, quantity: real, price: real)
    requires quantity > 0.0 && |recycled| <= 1
    ensures Do(Book(map[], recycled), Ticket(market, 1, quantity, price)).book
         == Book(map[market.marketId := Position(market.marketId, market.marketId, 1, quantity, PRICE_UNDEFINED,
                       LocalOfNew(recycled).(entryPrice := price, entryQty := quantity))], [])
  {
    hide Around;
  }

  lemma ClosesAll(p: Position, market: Market, price: real)
    requires p.direction == 1 && p.quantity > 0.0 && price > 0.0
    ensures var l := p.local;
            Do(Book(map[market.marketId := p], []), Ticket(market, -1, p.quantity, price)).book
            == Book(map[], [Local(l.entryPrice, 0.0, Mean(l.exitPrice, l.exitQty, price, p.quantity),
                                  AdjustQty(market.qty, l.exitQty + p.quantity))])
  {
    hide Around, Mean, AdjustQty;
    assert map[market.marketId := p] - {market.marketId} == map[];
  }

  /** One half is bought and sold on a market of halves; then one whole is bought and sold on a market of
      wholes, on the recycled position object. The second sale is not booked exactly. */
  lemma RecycledExitIsMisbooked()
    ensures var run := [Ticket(HALVES, 1, 0.5, 2.0), Ticket(HALVES, -1, 0.5, 2.0), Ticket(WHOLES, 1, 1.0, 2.0)];
            var b, sale := Play(run).book, Ticket(WHOLES, -1, 1.0, 2.0);
            Closes(b, sale) && InMax(WHOLES.qty, LocalBefore(b, sale).exitQty + 1.0) && !Booked(b, sale)
  {
    PlayThree(Ticket(HALVES, 1, 0.5, 2.0), Ticket(HALVES, -1, 0.5, 2.0), Ticket(WHOLES, 1, 1.0, 2.0));
    OpensAlone([], HALVES, 0.5, 2.0);
    var p := Position("A", "A", 1, 0.5, PRICE_UNDEFINED, NO_LOCAL.(entryPrice := 2.0, entryQty := 0.5));
    ClosesAll(p, HALVES, 2.0);
    HalvesAndWholes();
    assert Mean(0.0, 0.0, 2.0, 0.5) == 2.0;
    var left := Local(2.0, 0.0, 2.0, 0.5);
    OpensAlone([left], WHOLES, 1.0, 2.0);
    WholeSaleIsMisbooked(left.(entryPrice := 2.0, entryQty := 1.0));
  }

  lemma WholeSaleIsMisbooked(l: Local)
    requires l.exitQty == 0.5 && l.exitPrice == 2.0
    ensures var b := Book(map["B" := Position("B", "B", 1, 1.0, PRICE_UNDEFINED, l)], []);
            var sale := Ticket(WHOLES, -1, 1.0, 2.0);
            Closes(b, sale) && InMax(WHOLES.qty, LocalBefore(b, sale).exitQty + 1.0) && !Booked(b, sale)
  {
    hide Booked, OnGrid;
    HalvesAndWholes();
    FillBookedIff(Book(map["B" := Position("B", "B", 1, 1.0, PRICE_UNDEFINED, l)], []), Ticket(WHOLES, -1, 1.0, 2.0));
  }

  lemma PlayThree(r1: Request, r2: Request, r3: Request)
    ensures Play([r1, r2, r3]).book == Do(Do(Do(EMPTY, r1).book, r2).book, r3).book
  {
    hide Do;
    assert Front([r1, r2, r3]) == [r1, r2] && Front([r1, r2]) == [r1] && Front([r1]) == [];
    assert Play([]).book == EMPTY;
    assert Play([r1]).book == Do(EMPTY, r1).book;
    assert Play([r1, r2]).book == Do(Play([r1]).book, r2).book;
  }

  lemma HalvesAndWholes()
    ensures AdjustQty(HALVES.qty, 0.5) == 0.5 && !Admits(WHOLES.qty, 1.5)
  {
    assert Pow10(1) == 10.0 && Pow10(0) == 1.0;
    assert Scaled(5, 0.5, 1) && Multiple(1, 0.5, 0.5);
    GridIsAdmittedIff(HALVES.qty, 0.5);
    assert !Decimal(WHOLES.qty, 1.5);
  }

  // ---- The entry price ----

  /** The average is not set when a position opens, so the first increase averages in a price of -1:
      the entry price is the mean of the two fills only if the first was at that price. */
  lemma FirstIncreaseMisprices(o1: Order, o2: Order, m: Market, local: Local, p1: real, p2: real)
    requires o1.orderQuantity > 0.0 && o2.orderQuantity > 0.0
    ensures var q1, q2 := o1.orderQuantity, o2.orderQuantity;
            var entry := IncreasedPosition(OpenedPosition(o1, m, local, p1), o2, m, p2).local.entryPrice;
            entry * (q1 + q2) == p2 * q2 - q1
            && (entry * (q1 + q2) == p1 * q1 + p2 * q2 <==> p1 == PRICE_UNDEFINED)
  {
    hide AdjustQty, Mean;
    var q1, q2 := o1.orderQuantity, o2.orderQuantity;
    MeanTimesWeight(PRICE_UNDEFINED, q1, p2, q2);
    CancelFactor(q1, p1);
  }

  lemma CancelFactor(q: real, p: real)
    requires q > 0.0
    ensures p * q == -q <==> p == -1.0
  {
  }
}
