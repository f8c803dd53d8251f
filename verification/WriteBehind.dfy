/** The write-behind queue of market rows: producers append, the database thread swaps the pending
    list out, tries to commit it in one statement, and puts it back in front when that fails. */
module WriteBehind {
  import opened Basics

  datatype Key = Key(broker: string, market: string, timestamp: int, timeframe: int)

  /** A row of the candle table: its key and the stored strings. */
  datatype Row = Row(key: Key, values: seq<string>)

  datatype Liquidation = Liquidation(broker: string, market: string, timestamp: int, direction: int,
                                     price: string, quantity: string)

  type Table = map<Key, seq<string>>

  /** Upsert of rows one after the other: the last writer of a key wins. */
  function Upsert(t: Table, rows: seq<Row>): Table {
    if rows == [] then t
    else
      var r := rows[|rows| - 1];
      Upsert(t, rows[..|rows| - 1])[r.key := r.values]
  }

  /** What a transaction did and what the client was told. */
  datatype Outcome =
    | Committed
    | RolledBack          // nothing applied, an exception was raised
    | CommittedButFailed  // applied, but an exception was raised all the same

  // ---- The queue object; the table and the outcome of a commit belong to the server ----

  class Database {
    var pendingOhlc: seq<Row>
    var pendingLiquidation: seq<Liquidation>
    var lastOhlcFlush: int
    var batch: seq<Row>
    var liquidationBatch: seq<Liquidation>

    ghost function Abs(): Client
      reads this
    {
      Client(pendingOhlc, batch, pendingLiquidation, liquidationBatch)
    }

    constructor (now: int)
      ensures Abs() == Client([], [], [], [])
    {
      pendingOhlc, pendingLiquidation, batch, liquidationBatch, lastOhlcFlush := [], [], [], [], now;
    }

    /** Appends one row or many under the lock; then, outside it, discards the pending liquidations. */
    method StoreMarketOhlc(data: seq<Row>)
      modifies this`pendingOhlc, this`pendingLiquidation
      ensures Abs() == DropLiquidations(StoreRows(old(Abs()), data))
    {
      pendingOhlc := pendingOhlc + data;
      pendingLiquidation := [];
    }

    method StoreMarketLiquidation(data: seq<Liquidation>)
      modifies this`pendingLiquidation
      ensures Abs() == StoreLiquidation(old(Abs()), data)
    {
      pendingLiquidation := pendingLiquidation + data;
    }

    /** The swap under the lock, once a minute or past 500 rows. */
    method TakeOhlc(now: int) returns (taken: bool)
      requires batch == []
      modifies this`pendingOhlc, this`batch
      ensures taken <==> now - lastOhlcFlush >= 60 || |old(pendingOhlc)| > 500
      ensures Abs() == if taken then TakeRows(old(Abs())) else old(Abs())
    {
      taken := now - lastOhlcFlush >= 60 || |pendingOhlc| > 500;
      if taken {
        batch := pendingOhlc;
        pendingOhlc := [];
      }
    }

    /** After the statement: nothing when it was reported done, else the batch goes back in front.
        The flush time moves in both cases, but not for an empty batch. */
    method FinishOhlc(now: int, failed: bool)
      modifies this`pendingOhlc, this`batch, this`lastOhlcFlush
      ensures Abs() == FinishRows(old(Abs()), failed)
      ensures lastOhlcFlush == if old(batch) == [] then old(lastOhlcFlush) else now
    {
      if batch != [] {
        if failed {
          pendingOhlc := batch + pendingOhlc;
        }
        lastOhlcFlush := now;
      }
      batch := [];
    }

    method TakeLiquidation()
      requires liquidationBatch == []
      modifies this`pendingLiquidation, this`liquidationBatch
      ensures Abs() == TakeLiquidations(old(Abs()))
    {
      liquidationBatch := pendingLiquidation;
      pendingLiquidation := [];
    }

    method FinishLiquidation(failed: bool)
      modifies this`pendingLiquidation, this`liquidationBatch
      ensures Abs() == FinishLiquidations(old(Abs()), failed)
    {
      if liquidationBatch != [] && failed {
        pendingLiquidation := liquidationBatch + pendingLiquidation;
      }
      liquidationBatch := [];
    }
  }

  // ---- Specification of the steps ----

  datatype Client = Client(pending: seq<Row>, batch: seq<Row>, liquidations: seq<Liquidation>,
                           liquidationBatch: seq<Liquidation>)

  function StoreRows(c: Client, data: seq<Row>): Client { c.(pending := c.pending + data) }

  function DropLiquidations(c: Client): Client { c.(liquidations := []) }

  function StoreLiquidation(c: Client, data: seq<Liquidation>): Client {
    c.(liquidations := c.liquidations + data)
  }

  function TakeRows(c: Client): Client { c.(batch := c.pending, pending := []) }

  function FinishRows(c: Client, failed: bool): Client {
    c.(pending := if failed then c.batch + c.pending else c.pending, batch := [])
  }

  function TakeLiquidations(c: Client): Client { c.(liquidationBatch := c.liquidations, liquidations := []) }

  function FinishLiquidations(c: Client, failed: bool): Client {
    c.(liquidations := if failed then c.liquidationBatch + c.liquidations else c.liquidations, liquidationBatch := [])
  }

  /** The database thread: idle, with rows taken, past the statement with its outcome known to the
      server, and the same for liquidations, whose list it swaps and puts back in two halves. */
  datatype Phase =
    | Ready | RowsTaken | RowsTried(failed: bool)
    | LiqSwapping | LiqTaken | LiqTried(failed: bool) | LiqRequeueing

  /** Who holds the lock across two halves of a list operation: an extension, which has loaded the list
      it will extend (`orphan` once that list is no longer the pending one), or the database thread, which
      has loaded the list it will replace. */
  datatype Holder = Free | Extending(liqs: seq<Liquidation>, orphan: bool) | Swapping | Requeueing(loaded: seq<Liquidation>)

  datatype World = World(c: Client, phase: Phase, holder: Holder, table: Table, liquidationTable: seq<Liquidation>)

  /** A store of candles is Store and then Drop, which takes no lock: it may fall anywhere. A store of
      liquidations is LoadPending and then Extend. */
  datatype Event =
    | Store(rows: seq<Row>) | Drop
    | LoadPending(liqs: seq<Liquidation>) | Extend
    | Take | TryCommit(outcome: Outcome) | Finish
    | LoadSwap | StoreSwap | TryCommitLiq(outcome: Outcome) | LoadRequeue | StoreRequeue | EndLiq

  predicate Enabled(w: World, e: Event) {
    match e
    case Store(_) => w.holder.Free?
    case Drop => true
    case LoadPending(_) => w.holder.Free?
    case Extend => w.holder.Extending?
    case Take => w.phase.Ready? && w.holder.Free?
    case TryCommit(_) => w.phase.RowsTaken?
    case Finish => w.phase.RowsTried? && (w.phase.failed ==> w.holder.Free?)
    case LoadSwap => w.phase.Ready? && w.holder.Free?
    case StoreSwap => w.phase.LiqSwapping?
    case TryCommitLiq(_) => w.phase.LiqTaken? && w.c.liquidationBatch != []
    case LoadRequeue => w.phase == LiqTried(true) && w.holder.Free?
    case StoreRequeue => w.phase.LiqRequeueing? && w.holder.Requeueing?
    case EndLiq => w.phase == LiqTried(false) || (w.phase.LiqTaken? && w.c.liquidationBatch == [])
  }

  function Apply(w: World, e: Event): World
    requires Enabled(w, e)
  {
    match e
    case Store(rows) => w.(c := StoreRows(w.c, rows))
    case Drop =>
      w.(c := DropLiquidations(w.c), holder := if w.holder.Extending? then w.holder.(orphan := true) else w.holder)
    case LoadPending(liqs) => w.(holder := Extending(liqs, false))
    case Extend => w.(c := if w.holder.orphan then w.c else StoreLiquidation(w.c, w.holder.liqs), holder := Free)
    case Take => w.(c := TakeRows(w.c), phase := RowsTaken)
    case TryCommit(o) =>
      w.(phase := RowsTried(!o.Committed?), table := if o.RolledBack? then w.table else Upsert(w.table, w.c.batch))
    case Finish => w.(c := FinishRows(w.c, w.phase.failed), phase := Ready)
    case LoadSwap => w.(c := w.c.(liquidationBatch := w.c.liquidations), phase := LiqSwapping, holder := Swapping)
    case StoreSwap => w.(c := DropLiquidations(w.c), phase := LiqTaken, holder := Free)
    case TryCommitLiq(o) =>
      w.(phase := LiqTried(!o.Committed?),
         liquidationTable := if o.RolledBack? then w.liquidationTable else w.liquidationTable + w.c.liquidationBatch)
    case LoadRequeue => w.(phase := LiqRequeueing, holder := Requeueing(w.c.liquidations))
    case StoreRequeue =>
      w.(c := FinishLiquidations(w.c.(liquidations := w.holder.loaded), true), phase := Ready, holder := Free)
    case EndLiq => w.(c := FinishLiquidations(w.c, false), phase := Ready)
  }

  function Fresh(t: Table, lt: seq<Liquidation>): World { World(Client([], [], [], []), Ready, Free, t, lt) }

  /** The run of `events` from `w`; events that the phase does not allow do not occur. */
  ghost predicate Possible(w: World, events: seq<Event>)
    decreases |events|
  {
    events == [] || (Enabled(w, events[0]) && Possible(Apply(w, events[0]), events[1..]))
  }

  function After(w: World, events: seq<Event>): World
    requires Possible(w, events)
    decreases |events|
  {
    if events == [] then w else After(Apply(w, events[0]), events[1..])
  }

  function Stored(events: seq<Event>): seq<Row> {
    if events == [] then []
    else (if events[0].Store? then events[0].rows else []) + Stored(events[1..])
  }

  /** Two halves with nothing in between are the calls of the object. */
  lemma HalvesAreCalls(w: World, liqs: seq<Liquidation>)
    requires w.holder.Free?
    ensures Apply(Apply(w, LoadPending(liqs)), Extend).c == StoreLiquidation(w.c, liqs)
    ensures w.phase.Ready? ==> Apply(Apply(w, LoadSwap), StoreSwap).c == TakeLiquidations(w.c)
    ensures w.phase == LiqTried(true) ==> Apply(Apply(w, LoadRequeue), StoreRequeue).c == FinishLiquidations(w.c, true)
    ensures w.phase == LiqTried(false) ==> Apply(w, EndLiq).c == FinishLiquidations(w.c, false)
  {
  }

  // ---- Upserts ----

  predicate Writes(rows: seq<Row>, k: Key) { exists i :: 0 <= i < |rows| && rows[i].key == k }

  /** Last writer wins: `v` is what the last row with key `k` says. */
  predicate LastWrite(rows: seq<Row>, k: Key, v: seq<string>) {
    exists i :: 0 <= i < |rows| && rows[i] == Row(k, v) && forall j :: i < j < |rows| ==> rows[j].key != k
  }

  lemma WritesSnoc(front: seq<Row>, r: Row, k: Key)
    ensures Writes(front + [r], k) <==> r.key == k || Writes(front, k)
    ensures r.key == k ==> LastWrite(front + [r], k, r.values)
    ensures forall v :: r.key != k && LastWrite(front, k, v) ==> LastWrite(front + [r], k, v)
  {
    var rows := front + [r];
    assert rows[|front|] == r && forall i :: 0 <= i < |front| ==> rows[i] == front[i];
  }

  /** A key holds its last write, or its old value when no row writes it. */
  lemma {:induction false} UpsertLastWriterWins(t: Table, rows: seq<Row>, k: Key)
    ensures k in Upsert(t, rows) <==> k in t || Writes(rows, k)
    ensures k in Upsert(t, rows) ==>
              if Writes(rows, k) then LastWrite(rows, k, Upsert(t, rows)[k]) else k in t && Upsert(t, rows)[k] == t[k]
  {
    if rows != [] {
      hide Writes, LastWrite;
      var front, r := rows[..|rows| - 1], rows[|rows| - 1];
      assert rows == front + [r];
      UpsertLastWriterWins(t, front, k);
      WritesSnoc(front, r, k);
    } else {
      assert !Writes(rows, k);
    }
  }

  lemma LastWriteUnique(rows: seq<Row>, k: Key, v: seq<string>, v': seq<string>)
    requires LastWrite(rows, k, v) && LastWrite(rows, k, v')
    ensures v == v'
  {
  }

  lemma {:induction false} UpsertAppend(t: Table, xs: seq<Row>, ys: seq<Row>)
    ensures Upsert(t, xs + ys) == Upsert(Upsert(t, xs), ys)
  {
    if ys == [] {
      assert xs + ys == xs;
    } else {
      UpsertAppend(t, xs, ys[..|ys| - 1]);
      assert (xs + ys)[..|xs + ys| - 1] == xs + ys[..|ys| - 1];
    }
  }

  lemma UpsertSameKeys(t: Table, t': Table, rows: seq<Row>)
    requires forall k :: !Writes(rows, k) ==> (k in t <==> k in t') && (k in t ==> t[k] == t'[k])
    ensures Upsert(t, rows) == Upsert(t', rows)
  {
    var u, u' := Upsert(t, rows), Upsert(t', rows);
    forall k ensures (k in u <==> k in u') && (k in u ==> u[k] == u'[k]) {
      UpsertLastWriterWins(t, rows, k);
      UpsertLastWriterWins(t', rows, k);
      if Writes(rows, k) {
        LastWriteUnique(rows, k, u[k], u'[k]);
      }
    }
  }

  /** Rows that were committed without anyone knowing do no harm when they are committed again. */
  lemma UpsertAgain(t: Table, p: seq<Row>, rest: seq<Row>)
    ensures Upsert(Upsert(t, p), p + rest) == Upsert(t, p + rest)
  {
    forall k | !Writes(p + rest, k)
      ensures (k in Upsert(t, p) <==> k in t) && (k in t ==> Upsert(t, p)[k] == t[k])
    {
      assert forall i :: 0 <= i < |p| ==> (p + rest)[i] == p[i];
      assert !Writes(p, k);
      UpsertLastWriterWins(t, p, k);
    }
    UpsertSameKeys(Upsert(t, p), t, p + rest);
  }

  // ---- Nothing is lost and nothing is reordered ----

  /** `done`: rows of acknowledged batches; `p`: rows applied by a commit reported as failed. */
  ghost predicate Consistent(w: World, t0: Table, stored: seq<Row>, done: seq<Row>, p: seq<Row>) {
    stored == done + w.c.batch + w.c.pending
    && w.table == Upsert(t0, done + p)
    && (if w.phase.RowsTaken? || w.phase.RowsTried? then p <= w.c.batch else w.c.batch == [] && p <= w.c.pending)
    && (w.phase == RowsTried(false) ==> p == w.c.batch)
  }

  lemma FreshConsistent(t0: Table, lt: seq<Liquidation>)
    ensures Consistent(Fresh(t0, lt), t0, [], [], [])
  {
  }

  lemma StepConsistent(w: World, e: Event, t0: Table, stored: seq<Row>, done: seq<Row>, p: seq<Row>)
    returns (done': seq<Row>, p': seq<Row>)
    requires Enabled(w, e) && Consistent(w, t0, stored, done, p)
    ensures Consistent(Apply(w, e), t0, stored + (if e.Store? then e.rows else []), done', p')
  {
    hide Upsert;
    done', p' := done, p;
    match e {
      case Store(rows) =>
        assert done + w.c.batch + w.c.pending + rows == done + w.c.batch + (w.c.pending + rows);
      case Take =>
        assert done + [] + w.c.pending == done + w.c.pending + [];
      case TryCommit(o) =>
        if !o.RolledBack? {
          CommitAgain(t0, done, p, w.c.batch);
          p' := w.c.batch;
        }
      case Finish =>
        if w.phase.failed {
          assert done + w.c.batch + w.c.pending == done + [] + (w.c.batch + w.c.pending);
        } else {
          done', p' := done + w.c.batch, [];
          assert done + w.c.batch + [] == done + w.c.batch;
        }
      case _ =>
    }
    assert stored + [] == stored;
  }

  lemma CommitAgain(t0: Table, done: seq<Row>, p: seq<Row>, batch: seq<Row>)
    requires p <= batch
    ensures Upsert(Upsert(t0, done + p), batch) == Upsert(t0, done + batch)
  {
    hide Upsert;
    var rest := batch[|p|..];
    assert batch == p + rest;
    UpsertAppend(t0, done, p);
    UpsertAppend(t0, done, batch);
    UpsertAgain(Upsert(t0, done), p, rest);
  }

  lemma {:induction false} RunConsistent(w: World, events: seq<Event>, t0: Table, stored: seq<Row>, done: seq<Row>, p: seq<Row>)
    returns (done': seq<Row>, p': seq<Row>)
    requires Possible(w, events) && Consistent(w, t0, stored, done, p)
    ensures Consistent(After(w, events), t0, stored + Stored(events), done', p')
    decreases |events|
  {
    hide Consistent, Apply, Enabled;
    if events == [] {
      done', p' := done, p;
      assert stored + [] == stored;
    } else {
      var rows := if events[0].Store? then events[0].rows else [];
      done', p' := StepConsistent(w, events[0], t0, stored, done, p);
      done', p' := RunConsistent(Apply(w, events[0]), events[1..], t0, stored + rows, done', p');
      assert stored + rows + Stored(events[1..]) == stored + (rows + Stored(events[1..]));
    }
  }

  /** In every run of stores, swaps, commits, failures and commits reported as failed: the table
      overlaid with the batch in flight and then the pending rows is the initial table with all stored
      rows applied in the order they were stored. */
  lemma NothingLostOrReordered(t0: Table, lt: seq<Liquidation>, events: seq<Event>)
    requires Possible(Fresh(t0, lt), events)
    ensures var w := After(Fresh(t0, lt), events);
            Upsert(Upsert(w.table, w.c.batch), w.c.pending) == Upsert(t0, Stored(events))
  {
    hide Upsert, After, Possible, Consistent, Stored;
    FreshConsistent(t0, lt);
    assert [] + Stored(events) == Stored(events);
    var done, p := RunConsistent(Fresh(t0, lt), events, t0, [], [], []);
    OverlayIsComplete(After(Fresh(t0, lt), events), t0, Stored(events), done, p);
  }

  lemma OverlayIsComplete(w: World, t0: Table, stored: seq<Row>, done: seq<Row>, p: seq<Row>)
    requires Consistent(w, t0, stored, done, p)
    ensures Upsert(Upsert(w.table, w.c.batch), w.c.pending) == Upsert(t0, stored)
  {
    hide Upsert;
    var queue := w.c.batch + w.c.pending;
    assert p <= queue;
    CommitAgain(t0, done, p, queue);
    UpsertAppend(w.table, w.c.batch, w.c.pending);
    assert done + queue == done + w.c.batch + w.c.pending;
  }

  /** In particular, a drained queue means that the table holds every row that was stored. */
  lemma DrainedTableIsComplete(t0: Table, lt: seq<Liquidation>, events: seq<Event>)
    requires Possible(Fresh(t0, lt), events)
    ensures var w := After(Fresh(t0, lt), events);
            w.phase.Ready? && w.c.pending == [] ==> w.table == Upsert(t0, Stored(events))
  {
    NothingLostOrReordered(t0, lt, events);
    FreshConsistent(t0, lt);
    var done, p := RunConsistent(Fresh(t0, lt), events, t0, [], [], []);
  }

  /** The queue itself keeps the order: what is in flight and pending is the end of what was stored. */
  lemma QueueIsTail(t0: Table, lt: seq<Liquidation>, events: seq<Event>) returns (done: seq<Row>)
    requires Possible(Fresh(t0, lt), events)
    ensures var w := After(Fresh(t0, lt), events);
            Stored(events) == done + w.c.batch + w.c.pending
  {
    FreshConsistent(t0, lt);
    var p;
    done, p := RunConsistent(Fresh(t0, lt), events, t0, [], [], []);
  }

  // ---- Liquidations share the object, and storing candles discards the pending ones ----

  /** What an event adds to the liquidations stored: an extension counts when it completes. */
  function Offered(w: World, e: Event): seq<Liquidation>
    requires Enabled(w, e)
  {
    if e.Extend? then w.holder.liqs else []
  }

  /** Liquidations in the table, in flight and pending, each counted where the client still has it. */
  function Durable(w: World): seq<Liquidation> {
    w.liquidationTable + (if w.phase == LiqTried(false) then [] else w.c.liquidationBatch)
    + match w.holder
      case Swapping => []
      case Requeueing(loaded) => loaded
      case _ => w.c.liquidations
  }

  /** The event discards pending liquidations that nobody has loaded to keep, completes an extension of a
      list that was discarded under it, or commits a batch that will be put back. */
  predicate Harmful(w: World, e: Event) {
    || (e.Drop? && (w.holder.Free? || w.holder.Extending?) && w.c.liquidations != [])
    || (e.Extend? && w.holder.Extending? && w.holder.orphan && w.holder.liqs != [])
    || e == TryCommitLiq(CommittedButFailed)
  }

  /** The phases in which the database thread holds a batch, or the lock. */
  predicate LiqPhase(w: World) {
    && (w.phase.Ready? || w.phase.RowsTaken? || w.phase.RowsTried? ==> w.c.liquidationBatch == [])
    && (w.phase.LiqSwapping? <==> w.holder.Swapping?)
    && (w.phase.LiqRequeueing? <==> w.holder.Requeueing?)
  }

  lemma StepDurableIff(w: World, e: Event)
    requires Enabled(w, e) && LiqPhase(w)
    ensures LiqPhase(Apply(w, e))
    ensures Durable(Apply(w, e)) == Durable(w) + Offered(w, e) <==> !Harmful(w, e)
  {
    hide Upsert;
    assert Durable(w) + [] == Durable(w);
    if e.Extend? {
      Associate(w.liquidationTable + w.c.liquidationBatch, w.c.liquidations, w.holder.liqs);
    }
  }

  /** At every point of the run, the liquidations in the table, in flight and pending are exactly those
      stored so far, once each and in order. */
  ghost predicate AlwaysExact(w: World, events: seq<Event>, stored: seq<Liquidation>)
    requires Possible(w, events)
    decreases |events|
  {
    Durable(w) == stored
    && (events != [] ==> AlwaysExact(Apply(w, events[0]), events[1..], stored + Offered(w, events[0])))
  }

  predicate NeverHarmful(w: World, events: seq<Event>)
    requires Possible(w, events)
    decreases |events|
  {
    events != [] ==> !Harmful(w, events[0]) && NeverHarmful(Apply(w, events[0]), events[1..])
  }

  lemma {:induction false} ExactRunIff(w: World, events: seq<Event>, stored: seq<Liquidation>)
    requires Possible(w, events) && LiqPhase(w) && Durable(w) == stored
    ensures AlwaysExact(w, events, stored) <==> NeverHarmful(w, events)
    decreases |events|
  {
    if events != [] {
      hide Durable, Apply, Enabled, LiqPhase, Harmful, Offered;
      StepDurableIff(w, events[0]);
      if !Harmful(w, events[0]) {
        ExactRunIff(Apply(w, events[0]), events[1..], stored + Offered(w, events[0]));
      } else {
        ExactNow(Apply(w, events[0]), events[1..], stored + Offered(w, events[0]));
      }
    }
  }

  lemma ExactNow(w: World, events: seq<Event>, stored: seq<Liquidation>)
    requires Possible(w, events)
    ensures AlwaysExact(w, events, stored) ==> Durable(w) == stored
  {
  }

  /** Liquidations survive every run exactly once and in order iff no store of candles ends while some are
      pending and not loaded by the database thread, or inside an extension, and no commit of theirs
      succeeds while reported as failed. */
  lemma LiquidationsSurviveIff(t0: Table, lt: seq<Liquidation>, events: seq<Event>)
    requires Possible(Fresh(t0, lt), events)
    ensures AlwaysExact(Fresh(t0, lt), events, lt) <==> NeverHarmful(Fresh(t0, lt), events)
  {
    hide Enabled, Apply;
    assert Durable(Fresh(t0, lt)) == lt;
    ExactRunIff(Fresh(t0, lt), events, lt);
  }

  /** Two calls in the wrong order, with nothing in between, lose a liquidation. */
  lemma CandleStoreLosesLiquidation(t0: Table, l: Liquidation)
    ensures var w := Apply(Apply(Fresh(t0, []), LoadPending([l])), Extend);
            Durable(w) == [l] && Durable(Apply(Apply(w, Store([])), Drop)) == []
  {
  }

  /** A store of candles that ends inside a store of liquidations loses them although none was pending; one
      that ends inside a swap loses nothing. */
  lemma DiscardInsideExtension(t0: Table, l: Liquidation)
    ensures var inside := Apply(Apply(Fresh(t0, []), LoadPending([l])), Drop);
            !Harmful(Apply(Fresh(t0, []), LoadPending([l])), Drop) && Durable(Apply(inside, Extend)) == []
    ensures var swapping := Apply(Apply(Apply(Fresh(t0, []), LoadPending([l])), Extend), LoadSwap);
            Durable(Apply(Apply(swapping, Drop), StoreSwap)) == [l]
  {
  }

  /** A commit that succeeds but is reported as failed stores its liquidations twice. */
  lemma DoubtfulCommitDuplicates(t0: Table, l: Liquidation)
    ensures var taken := Apply(Apply(Apply(Apply(Fresh(t0, []), LoadPending([l])), Extend), LoadSwap), StoreSwap);
            var again := Apply(Apply(Apply(taken, TryCommitLiq(CommittedButFailed)), LoadRequeue), StoreRequeue);
            Durable(again) == [l, l]
  {
  }

  lemma AfterFirst(w: World, e: Event, events: seq<Event>)
    requires Possible(w, [e] + events)
    ensures Possible(Apply(w, e), events) && After(w, [e] + events) == After(Apply(w, e), events)
  {
    hide Enabled, Apply;
    assert ([e] + events)[1..] == events;
  }

  /** Rows whose commit is reported as failed, even if it succeeded, are pending again, in front of what came
      during the commit; after a commit they are not. */
  lemma RowsAreRetriedIff(w: World, a: seq<Row>, o: Outcome, b: seq<Row>)
    requires Possible(w, [Take, Store(a), TryCommit(o), Store(b), Finish])
    ensures var c := After(w, [Take, Store(a), TryCommit(o), Store(b), Finish]).c;
            c.batch == [] && c.pending == (if o.Committed? then [] else w.c.pending) + a + b
  {
    hide Upsert;
    var e4, e3, e2, e1 := [Finish], [Store(b), Finish], [TryCommit(o), Store(b), Finish],
                          [Store(a), TryCommit(o), Store(b), Finish];
    var w1 := Apply(w, Take);
    var w2 := Apply(w1, Store(a));
    var w3 := Apply(w2, TryCommit(o));
    var w4 := Apply(w3, Store(b));
    AfterFirst(w, Take, e1);
    AfterFirst(w1, Store(a), e2);
    AfterFirst(w2, TryCommit(o), e3);
    AfterFirst(w3, Store(b), e4);
    AfterFirst(w4, Finish, []);
    assert w.c.pending + a + b == w.c.pending + (a + b);
  }

  // ---- The lock, and the end of every run ----

  /** Whoever holds the lock keeps it until its own second half, whatever the others do, and no other operation
      on the lists begins. */
  lemma LockIsKept(w: World, e: Event)
    requires Enabled(w, e) && LiqPhase(w) && !w.holder.Free?
    ensures !e.Store? && !e.LoadPending? && !e.Take? && !e.LoadSwap? && !e.LoadRequeue?
    ensures match w.holder
            case Extending(liqs, orphan) =>
              Apply(w, e).holder == if e.Extend? then Free else Extending(liqs, orphan || e.Drop?)
            case Swapping => Apply(w, e).holder == if e.StoreSwap? then Free else Swapping
            case Requeueing(loaded) => Apply(w, e).holder == if e.StoreRequeue? then Free else Requeueing(loaded)
            case Free => false
  {
    hide Upsert;
  }

  predicate IsDb(e: Event) {
    e.Take? || e.TryCommit? || e.Finish? || e.LoadSwap? || e.StoreSwap? || e.TryCommitLiq? || e.LoadRequeue?
    || e.StoreRequeue? || e.EndLiq?
  }

  /** While a store holds the lock, the database thread goes on exactly where it commits, or has committed, a
      batch; it waits to swap a list and to put one back. */
  lemma GoesOnIff(w: World)
    requires LiqPhase(w) && w.holder.Extending?
    ensures (exists e: Event :: IsDb(e) && Enabled(w, e))
       <==> w.phase in [RowsTaken, RowsTried(false), LiqTaken, LiqTried(false)]
  {
    if w.phase.RowsTaken? { assert IsDb(TryCommit(Committed)) && Enabled(w, TryCommit(Committed)); }
    if w.phase == RowsTried(false) { assert IsDb(Finish) && Enabled(w, Finish); }
    if w.phase.LiqTaken? {
      var e := if w.c.liquidationBatch == [] then EndLiq else TryCommitLiq(Committed);
      assert IsDb(e) && Enabled(w, e);
    }
    if w.phase == LiqTried(false) { assert IsDb(EndLiq) && Enabled(w, EndLiq); }
  }

  /** The next step towards empty lists: of a store under way, or else of the database thread. */
  function NextDb(w: World): Event {
    if w.holder.Extending? then Extend
    else
      match w.phase
      case Ready => if w.c.pending != [] then Take else LoadSwap
      case RowsTaken => TryCommit(Committed)
      case RowsTried(_) => Finish
      case LiqSwapping => StoreSwap
      case LiqTaken => if w.c.liquidationBatch == [] then EndLiq else TryCommitLiq(Committed)
      case LiqTried(failed) => if failed then LoadRequeue else EndLiq
      case LiqRequeueing => StoreRequeue
  }

  function PhaseRank(phase: Phase): nat {
    match phase
    case Ready => 0
    case RowsTaken => 6
    case RowsTried(failed) => if failed then 12 else 3
    case LiqSwapping => 5
    case LiqTaken => 4
    case LiqTried(failed) => if failed then 13 else 1
    case LiqRequeueing => 12
  }

  function Rank(w: World): nat {
    (if w.holder.Extending? then 11 else 0) + (if w.c.pending != [] then 10 else 0)
    + (if w.c.liquidations != [] && !w.phase.LiqSwapping? then 10 else 0) + PhaseRank(w.phase)
  }

  lemma NextDbApproaches(w: World)
    requires LiqPhase(w) && Rank(w) > 0
    ensures Enabled(w, NextDb(w)) && !NextDb(w).Store? && LiqPhase(Apply(w, NextDb(w)))
    ensures Rank(Apply(w, NextDb(w))) < Rank(w)
  {
    hide Upsert;
  }

  lemma {:induction false} RunsEmpty(w: World) returns (more: seq<Event>)
    requires LiqPhase(w)
    ensures Possible(w, more) && Rank(After(w, more)) == 0 && Stored(more) == [] && LiqPhase(After(w, more))
    decreases Rank(w)
  {
    hide Enabled, Apply, LiqPhase, Rank, NextDb;
    more := [];
    if Rank(w) > 0 {
      NextDbApproaches(w);
      var e := NextDb(w);
      var rest := RunsEmpty(Apply(w, e));
      more := [e] + rest;
      assert more[1..] == rest;
    }
  }

  lemma {:induction false} PossibleOn(w: World, events: seq<Event>, more: seq<Event>)
    requires Possible(w, events) && Possible(After(w, events), more)
    ensures Possible(w, events + more) && After(w, events + more) == After(After(w, events), more)
    decreases |events|
  {
    hide Enabled, Apply;
    if events == [] {
      assert events + more == more;
    } else {
      PossibleOn(Apply(w, events[0]), events[1..], more);
      assert (events + more)[1..] == events[1..] + more;
    }
  }

  lemma {:induction false} StoredOn(events: seq<Event>, more: seq<Event>)
    ensures Stored(events + more) == Stored(events) + Stored(more)
  {
    if events == [] {
      assert events + more == more;
    } else {
      StoredOn(events[1..], more);
      assert (events + more)[1..] == events[1..] + more;
    }
  }

  lemma {:induction false} LiqPhaseKept(w: World, events: seq<Event>)
    requires Possible(w, events) && LiqPhase(w)
    ensures LiqPhase(After(w, events))
    decreases |events|
  {
    hide Enabled, Apply, LiqPhase, Durable, Harmful, Offered;
    if events != [] {
      StepDurableIff(w, events[0]);
      LiqPhaseKept(Apply(w, events[0]), events[1..]);
    }
  }

  /** Nobody is ever stuck: from every point of every run, stores under way can end and the database thread can
      bring all rows and liquidations into their tables. */
  lemma ListsCanAlwaysEmpty(t0: Table, lt: seq<Liquidation>, events: seq<Event>) returns (more: seq<Event>)
    requires Possible(Fresh(t0, lt), events)
    ensures Possible(Fresh(t0, lt), events + more)
    ensures var w := After(Fresh(t0, lt), events + more);
            w.phase.Ready? && w.holder.Free? && w.c.pending == [] && w.c.liquidations == w.c.liquidationBatch == []
            && w.table == Upsert(t0, Stored(events))
  {
    hide Enabled, Apply, Possible, After, Stored, Upsert;
    var now := After(Fresh(t0, lt), events);
    assert Possible(Fresh(t0, lt), events);
    LiqPhaseKept(Fresh(t0, lt), events);
    more := RunsEmpty(now);
    PossibleOn(Fresh(t0, lt), events, more);
    StoredOn(events, more);
    assert Stored(events) + [] == Stored(events);
    DrainedTableIsComplete(t0, lt, events + more);
  }
}
