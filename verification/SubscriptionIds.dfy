/** The subscription ids of a connector: a deleted id is recycled, the last deleted first, and a new
    number is taken only when nothing can be recycled. */
module SubscriptionIds {
  import opened Basics

  datatype Subscription = Subscription(id: int, market: string, timeframe: real, depth: int)

  datatype State = State(live: map<int, Subscription>, recycled: seq<int>, next: int)

  datatype Op = Add(market: string, timeframe: real, depth: int) | Del(id: int)

  const EMPTY := State(map[], [], 1)

  /** The id the next subscription gets. */
  function NewId(s: State): int {
    if s.recycled != [] then s.recycled[|s.recycled| - 1] else s.next
  }

  function Step(s: State, op: Op): State {
    match op
    case Add(market, timeframe, depth) =>
      var live := s.live[NewId(s) := Subscription(NewId(s), market, timeframe, depth)];
      if s.recycled != [] then State(live, s.recycled[..|s.recycled| - 1], s.next)
      else State(live, [], s.next + 1)
    case Del(id) =>
      if id in s.live then State(s.live - {id}, s.recycled + [id], s.next) else s
  }

  /** The run of the operations, last one first to unfold. */
  function Run(ops: seq<Op>): State {
    if ops == [] then EMPTY else Step(Run(ops[..|ops| - 1]), ops[|ops| - 1])
  }

  class Connector {
    var subscriptions: map<int, Subscription>
    var recycledSubId: seq<int>
    var nextSubId: int

    ghost function View(): State
      reads this
    {
      State(subscriptions, recycledSubId, nextSubId)
    }

    constructor ()
      ensures View() == EMPTY
    {
      subscriptions, recycledSubId, nextSubId := map[], [], 1;
    }

    method AddSubscription(market: string, timeframe: real, depth: int) returns (sub: Subscription)
      modifies this
      ensures View() == Step(old(View()), Add(market, timeframe, depth))
      ensures sub.id in subscriptions && subscriptions[sub.id] == sub
      ensures sub == Subscription(NewId(old(View())), market, timeframe, depth)
    {
      var subId := -1;
      if recycledSubId != [] {
        subId := recycledSubId[|recycledSubId| - 1];
        recycledSubId := recycledSubId[..|recycledSubId| - 1];
      } else {
        subId := nextSubId;
        nextSubId := nextSubId + 1;
      }
      sub := Subscription(subId, market, timeframe, depth);
      subscriptions := subscriptions[subId := sub];
    }

    method DelSubscription(subId: int)
      modifies this
      ensures View() == Step(old(View()), Del(subId))
    {
      if subId in subscriptions {
        subscriptions := subscriptions - {subId};
        recycledSubId := recycledSubId + [subId];
      }
    }
  }

  // ---- Every run ----

  predicate NoDuplicates(ids: seq<int>) {
    forall i, j :: 0 <= i < j < |ids| ==> ids[i] != ids[j]
  }

  /** Each number below the next one is live or waits to be recycled, never both, never twice. */
  ghost predicate Partitioned(s: State) {
    && s.next >= 1
    && NoDuplicates(s.recycled)
    && (forall id :: id in s.live ==> id !in s.recycled)
    && (forall id :: 1 <= id < s.next <==> id in s.live || id in s.recycled)
    && (forall id :: id in s.live ==> s.live[id].id == id)
    && |s.live| + |s.recycled| == s.next - 1
  }

  lemma TakeLast(ids: seq<int>)
    requires ids != [] && NoDuplicates(ids)
    ensures var last := ids[|ids| - 1];
            var rest := ids[..|ids| - 1];
            NoDuplicates(rest) && last !in rest && forall id :: id in ids <==> id in rest || id == last
  {
    assert ids == ids[..|ids| - 1] + [ids[|ids| - 1]];
  }

  /** A subscription under an id that is not live makes one more of them. */
  lemma OneMore(live: map<int, Subscription>, id: int, sub: Subscription)
    requires id !in live
    ensures |live[id := sub]| == |live| + 1
  {
    var after := live[id := sub];
    assert after.Keys == live.Keys + {id};
    assert |live.Keys| == |live| && |after.Keys| == |after|;
  }

  lemma OneLess(live: map<int, Subscription>, id: int)
    requires id in live
    ensures |live - {id}| == |live| - 1
  {
    var after := live - {id};
    assert after.Keys == live.Keys - {id};
    assert |live.Keys| == |live| && |after.Keys| == |after|;
  }

  lemma RecyclePartitions(s: State, op: Op)
    requires Partitioned(s) && op.Add? && s.recycled != []
    ensures Partitioned(Step(s, op)) && NewId(s) !in s.live && NewId(s) >= 1
  {
    TakeLast(s.recycled);
    var id := NewId(s);
    assert id in s.recycled;
    hide NoDuplicates, NewId;
    OneMore(s.live, id, Subscription(id, op.market, op.timeframe, op.depth));
  }

  lemma NumberPartitions(s: State, op: Op)
    requires Partitioned(s) && op.Add? && s.recycled == []
    ensures Partitioned(Step(s, op)) && NewId(s) !in s.live && NewId(s) >= 1
  {
    assert s.next !in s.live;
    OneMore(s.live, s.next, Subscription(s.next, op.market, op.timeframe, op.depth));
  }

  lemma DeletePartitions(s: State, op: Op)
    requires Partitioned(s) && op.Del?
    ensures Partitioned(Step(s, op))
  {
    if op.id in s.live {
      var after := Step(s, op);
      OneLess(s.live, op.id);
      assert forall id :: id in after.recycled <==> id in s.recycled || id == op.id;
    }
  }

  /** One step keeps the partition, and a new subscription never gets a live id. */
  lemma StepPartitions(s: State, op: Op)
    requires Partitioned(s)
    ensures Partitioned(Step(s, op))
    ensures op.Add? ==> NewId(s) !in s.live && NewId(s) >= 1
  {
    hide Partitioned, Step;
    if op.Del? { DeletePartitions(s, op); }
    else if s.recycled != [] { RecyclePartitions(s, op); }
    else { NumberPartitions(s, op); }
  }

  /** In every run the live and the recycled ids are disjoint, without duplicates, and together
      exactly the numbers handed out so far. */
  lemma {:induction false} RunPartitions(ops: seq<Op>)
    ensures Partitioned(Run(ops))
  {
    if ops != [] {
      RunPartitions(ops[..|ops| - 1]);
      StepPartitions(Run(ops[..|ops| - 1]), ops[|ops| - 1]);
    }
  }

  /** The most subscriptions that were live at once. */
  function Peak(ops: seq<Op>): nat {
    if ops == [] then 0
    else
      var before, now := Peak(ops[..|ops| - 1]), |Run(ops).live|;
      if before < now then now else before
  }

  /** Ids are never wasted: as many were ever handed out as subscriptions were live at once. */
  lemma {:induction false} NextIsPeak(ops: seq<Op>)
    ensures Run(ops).next - 1 == Peak(ops)
  {
    if ops != [] {
      var before := ops[..|ops| - 1];
      NextIsPeak(before);
      RunPartitions(before);
      RunPartitions(ops);
    }
  }

  /** The subscription the history says `id` has: the one added under it and not deleted since. */
  function Owner(ops: seq<Op>, id: int): Option<Subscription> {
    if ops == [] then None
    else
      var before := ops[..|ops| - 1];
      match ops[|ops| - 1]
      case Add(market, timeframe, depth) =>
        if NewId(Run(before)) == id then Some(Subscription(id, market, timeframe, depth)) else Owner(before, id)
      case Del(deleted) => if deleted == id then None else Owner(before, id)
  }

  /** No subscription is ever taken over by another: adding never hits a live id, and what is stored
      under an id is what was added there last, until it is deleted. */
  lemma {:induction false} SubscriptionsKeepTheirId(ops: seq<Op>, id: int)
    ensures Owner(ops, id) == if id in Run(ops).live then Some(Run(ops).live[id]) else None
    ensures id in Run(ops).live ==> id != NewId(Run(ops)) && 1 <= id <= Peak(ops)
  {
    RunPartitions(ops);
    NextIsPeak(ops);
    StepPartitions(Run(ops), Add("", 0.0, 0));
    if ops != [] {
      SubscriptionsKeepTheirId(ops[..|ops| - 1], id);
    }
  }

  // ---- The order of recycling ----

  /** What a connector that is in state `s` does with further operations. */
  function Continue(s: State, ops: seq<Op>): State {
    if ops == [] then s else Step(Continue(s, ops[..|ops| - 1]), ops[|ops| - 1])
  }

  function Deletes(ids: seq<int>): (ops: seq<Op>)
    ensures |ops| == |ids|
  {
    seq(|ids|, i requires 0 <= i < |ids| => Del(ids[i]))
  }

  predicate AllAdd(ops: seq<Op>) {
    forall i :: 0 <= i < |ops| ==> ops[i].Add?
  }

  /** After `ids` were deleted and `adds` came, each of `ids` holds the subscription that came as late as
      the id was deleted early, and nothing else changed. */
  ghost predicate HandedBack(s: State, ids: seq<int>, adds: seq<Op>, after: State)
    requires |adds| == |ids| && AllAdd(adds)
  {
    after.recycled == s.recycled && after.next == s.next && after.live.Keys == s.live.Keys
    && (forall k :: 0 <= k < |ids| && ids[k] in after.live ==>
          var add := adds[|ids| - 1 - k];
          after.live[ids[k]] == Subscription(ids[k], add.market, add.timeframe, add.depth))
    && (forall id :: id in s.live && id !in ids && id in after.live ==> after.live[id] == s.live[id])
  }

  lemma {:induction false} ContinueFirst(s: State, op: Op, ops: seq<Op>)
    ensures Continue(s, [op] + ops) == Continue(Step(s, op), ops)
  {
    hide Step;
    var all := [op] + ops;
    if ops == [] {
      assert all[..0] == [] && Continue(s, []) == s;
    } else {
      ContinueFirst(s, op, ops[..|ops| - 1]);
      assert all[..|all| - 1] == [op] + ops[..|ops| - 1];
    }
  }

  /** Ids are handed out again in the reverse order of their deletion, the last deleted first, and
      before any new number. */
  lemma {:induction false} LastDeletedFirst(s: State, ids: seq<int>, adds: seq<Op>)
    requires NoDuplicates(ids) && (forall id :: id in ids ==> id in s.live)
    requires |adds| == |ids| && AllAdd(adds)
    ensures HandedBack(s, ids, adds, Continue(s, Deletes(ids) + adds))
    decreases |ids|
  {
    if ids == [] {
      assert Deletes(ids) + adds == [];
    } else {
      hide Step, HandedBack, Continue, NoDuplicates;
      var most := adds[..|ids| - 1];
      DeleteFirst(s, ids);
      LastDeletedFirst(Step(s, Del(ids[0])), ids[1..], most);
      Unfold(s, ids, adds);
      FirstComesLast(s, ids, adds, Continue(Step(s, Del(ids[0])), Deletes(ids[1..]) + most));
    }
  }

  lemma DeleteFirst(s: State, ids: seq<int>)
    requires ids != [] && NoDuplicates(ids) && (forall id :: id in ids ==> id in s.live)
    ensures NoDuplicates(ids[1..]) && forall id :: id in ids[1..] ==> id in Step(s, Del(ids[0])).live
  {
    assert forall i :: 0 <= i < |ids| - 1 ==> ids[1..][i] == ids[i + 1];
  }

  /** The first deletion and the last addition enclose the other operations. */
  lemma Unfold(s: State, ids: seq<int>, adds: seq<Op>)
    requires ids != [] && |adds| == |ids|
    ensures var n := |ids|;
            Continue(s, Deletes(ids) + adds)
            == Step(Continue(Step(s, Del(ids[0])), Deletes(ids[1..]) + adds[..n - 1]), adds[n - 1])
  {
    hide Step;
    var n := |ids|;
    var all, inner := Deletes(ids) + adds, Deletes(ids[1..]) + adds[..n - 1];
    ContinueFirst(s, Del(ids[0]), inner);
    assert all[..2 * n - 1] == [Del(ids[0])] + inner;
  }

  lemma FirstComesLast(s: State, ids: seq<int>, adds: seq<Op>, before: State)
    requires ids != [] && NoDuplicates(ids) && (forall id :: id in ids ==> id in s.live)
    requires |adds| == |ids| && AllAdd(adds)
    requires HandedBack(Step(s, Del(ids[0])), ids[1..], adds[..|ids| - 1], before)
    ensures HandedBack(s, ids, adds, Step(before, adds[|ids| - 1]))
  {
    var n := |ids|;
    var after := Step(before, adds[n - 1]);
    assert before.recycled == s.recycled + [ids[0]];
    assert forall k :: 1 <= k < n ==> ids[k] == ids[1..][k - 1] && ids[k] != ids[0];
    assert forall id :: id in ids <==> id == ids[0] || id in ids[1..];
  }
}
