/** What holds of every run of the worker pool. */
module PoolProofs {
  import opened Pool
  import opened Tables

  // ---------------------------------------------------------------- tallies

  /** No two results about the same order differ. */
  ghost predicate OneResultPerOrder(rs: seq<Result>) {
    forall r, s :: r in rs && s in rs && r.value.orderId == s.value.orderId ==> r == s
  }

  ghost predicate Answered(r: Result) {
    !r.failed && r.code == HTTP_SUCCESS
  }

  ghost predicate Postponed(r: Result) {
    !r.failed && r.code == HTTP_RETRY
  }

  /** The tally in terms of which results there are: neither their order nor repetition counts. */
  lemma {:induction false} FoldMeaning(rs: seq<Result>)
    requires OneResultPerOrder(rs)
    ensures forall r :: r in rs && Answered(r) ==>
              r.value.orderId in Fold(rs).orders && Fold(rs).orders[r.value.orderId] == r.value
    ensures forall id :: id in Fold(rs).orders ==>
              exists r :: r in rs && Answered(r) && r.value.orderId == id
    ensures Fold(rs).wait >= 0
    ensures forall r :: r in rs && Postponed(r) ==> r.waitSec <= Fold(rs).wait
    ensures Fold(rs).wait > 0 ==> exists r :: r in rs && Postponed(r) && r.waitSec == Fold(rs).wait
  {
    if rs == [] {
    } else {
      var init, last := rs[..|rs| - 1], rs[|rs| - 1];
      assert rs == init + [last];
      FoldMeaning(init);
    }
  }

  /** A part of the results tallies to a part of the tally. */
  lemma {:induction false} FoldPart(rs: seq<Result>, all: seq<Result>)
    requires OneResultPerOrder(all) && forall r :: r in rs ==> r in all
    ensures Fold(rs).orders.Keys <= Fold(all).orders.Keys && Fold(rs).wait <= Fold(all).wait
    ensures forall id :: id in Fold(rs).orders ==> Fold(rs).orders[id] == Fold(all).orders[id]
  {
    FoldMeaning(rs);
    FoldMeaning(all);
    forall id | id in Fold(rs).orders
      ensures id in Fold(all).orders && Fold(rs).orders[id] == Fold(all).orders[id]
    {
      var r :| r in rs && Answered(r) && r.value.orderId == id;
      assert r in all;
    }
  }

  lemma {:induction false} FoldSame(rs: seq<Result>, ss: seq<Result>)
    requires OneResultPerOrder(rs) && forall r :: r in rs <==> r in ss
    ensures Fold(rs) == Fold(ss)
  {
    FoldPart(rs, ss);
    FoldPart(ss, rs);
    assert Fold(rs).orders == Fold(ss).orders;
  }

  lemma {:induction false} DistinctResults(orders: seq<Order>, replies: nat -> Reply)
    requires DistinctIds(orders)
    ensures OneResultPerOrder(ResultsOf(orders, replies))
  {
    var rs := ResultsOf(orders, replies);
    forall r, s | r in rs && s in rs && r.value.orderId == s.value.orderId
      ensures r == s
    {
      var i :| 0 <= i < |orders| && r == rs[i];
      var j :| 0 <= j < |orders| && s == rs[j];
      assert r == MakeResult(orders[i], replies(orders[i].orderId));
      assert s == MakeResult(orders[j], replies(orders[j].orderId));
    }
  }

  ghost predicate AsksToWait(r: Reply, wait: int) {
    r.Http? && r.code == 429 && r.retryAfter == wait
  }

  /** What asking one order after the other comes to: exactly the orders answered 200, each
      with the status and accrual the service gave for it, and the longest wait any 429 asked
      for, or zero. */
  lemma {:induction false} SequentialMeaning(orders: seq<Order>, replies: nat -> Reply, i: nat)
    requires DistinctIds(orders) && i < |orders|
    ensures var o, r, t := orders[i], replies(orders[i].orderId), Sequential(orders, replies);
            && (o.orderId in t.orders <==> r.Http? && r.code == 200)
            && (o.orderId in t.orders ==> t.orders[o.orderId] == Order(o.orderId, o.userId, r.status, r.accrual))
            && (r.Http? && r.code == 429 ==> r.retryAfter <= t.wait)
    ensures var t := Sequential(orders, replies);
            && t.wait >= 0
            && (t.wait > 0 ==>
                  exists j :: 0 <= j < |orders| && var r := replies(orders[j].orderId);
                              r.Http? && r.code == 429 && r.retryAfter == t.wait)
            && (forall id :: id in t.orders ==> exists j :: 0 <= j < |orders| && orders[j].orderId == id)
  {
    var rs := ResultsOf(orders, replies);
    var t := Fold(rs);
    DistinctResults(orders, replies);
    FoldMeaning(rs);
    assert rs[i] in rs;
    forall id | id in t.orders
      ensures exists j :: 0 <= j < |orders| && orders[j].orderId == id && Answered(rs[j])
    {
      var r :| r in rs && Answered(r) && r.value.orderId == id;
      var j :| 0 <= j < |rs| && rs[j] == r;
      assert r == MakeResult(orders[j], replies(orders[j].orderId));
    }
    if t.wait > 0 {
      var r :| r in rs && Postponed(r) && r.waitSec == t.wait;
      var j :| 0 <= j < |rs| && rs[j] == r;
      assert r == MakeResult(orders[j], replies(orders[j].orderId));
      assert AsksToWait(replies(orders[j].orderId), t.wait);
    }
  }

  // ---------------------------------------------------------------- invariants

  /** The control facts: who has closed what, and what a finished goroutine implies. */
  ghost predicate Control(p: State) {
    && (p.jobsClosed <==> p.producer.Closed?)
    && (p.producer.Sending? ==> p.unsent != [])
    && (p.producer.Closed? ==> p.unsent == [])
    && (p.resultsClosed ==> AllDone(p.workers))
    && (p.consumer.Returned? ==> p.resultsClosed && p.results == [])
    && (p.consumer.Cancelled? ==> p.cancelled)
    && (!p.cancelled ==> p.dropped == [])
    && |p.jobs| <= Capacity(p) && |p.results| <= Capacity(p)
    && (!p.cancelled ==> forall i :: 0 <= i < |p.workers| && p.workers[i].Done? ==> p.jobsClosed && p.jobs == [])
  }

  predicate IsWorkerEvent(e: Event) {
    e.TakeJob? || e.CheckJob? || e.EndCall? || e.Deliver?
  }

  lemma {:induction false} ControlWorkerStep(p: State, e: Event, replies: nat -> Reply)
    requires Control(p) && Enabled(p, e) && IsWorkerEvent(e)
    ensures Control(Step(p, e, replies)) && |Step(p, e, replies).workers| == |p.workers|
  {
    var q := Step(p, e, replies);
    assert q.workers == p.workers[e.i := q.workers[e.i]];
    assert !p.workers[e.i].Done? && !p.resultsClosed;
  }

  lemma {:induction false} ControlStep(p: State, e: Event, replies: nat -> Reply)
    requires Control(p) && Enabled(p, e)
    ensures Control(Step(p, e, replies)) && |Step(p, e, replies).workers| == |p.workers|
  {
    if IsWorkerEvent(e) {
      ControlWorkerStep(p, e, replies);
    }
  }

  /** Every order in flight came from the input. Until cancellation every result in flight is
      the service's own; every result tallied always is. */
  ghost predicate Genuine(p: State, orders: seq<Order>, replies: nat -> Reply) {
    var all := ResultsOf(orders, replies);
    && p.tally == Fold(p.absorbed)
    && (forall o :: o in p.unsent ==> o in orders)
    && (forall o :: o in p.jobs ==> o in orders)
    && (forall i :: 0 <= i < |p.workers| && (p.workers[i].Holding? || p.workers[i].Calling?) ==>
          p.workers[i].job in orders)
    && (forall r :: r in p.absorbed ==> r in all)
    && (!p.cancelled ==>
          && (forall r :: r in p.results ==> r in all)
          && (forall i :: 0 <= i < |p.workers| && p.workers[i].Delivering? ==> p.workers[i].result in all)
          && (p.consumer.Received? ==> p.consumer.result in all))
  }

  lemma {:induction false} GenuineResult(o: Order, orders: seq<Order>, replies: nat -> Reply)
    requires o in orders
    ensures MakeResult(o, replies(o.orderId)) in ResultsOf(orders, replies)
  {
    var i :| 0 <= i < |orders| && orders[i] == o;
    assert ResultsOf(orders, replies)[i] == MakeResult(o, replies(o.orderId));
  }

  lemma {:induction false} GenuineWorkerStep(p: State, e: Event, orders: seq<Order>, replies: nat -> Reply)
    requires Genuine(p, orders, replies) && Enabled(p, e)
    requires IsWorkerEvent(e)
    ensures Genuine(Step(p, e, replies), orders, replies)
  {
    if e.EndCall? && e.ending.Complete? {
      GenuineResult(p.workers[e.i].job, orders, replies);
    }
  }

  lemma {:induction false} GenuineLook(p: State, orders: seq<Order>, replies: nat -> Reply)
    requires Genuine(p, orders, replies) && Enabled(p, Look)
    ensures Genuine(Step(p, Look, replies), orders, replies)
  {
    assert (p.absorbed + [p.consumer.result])[..|p.absorbed|] == p.absorbed;
  }

  lemma {:induction false} GenuineStep(p: State, e: Event, orders: seq<Order>, replies: nat -> Reply)
    requires Genuine(p, orders, replies) && Enabled(p, e)
    ensures Genuine(Step(p, e, replies), orders, replies)
  {
    if IsWorkerEvent(e) {
      GenuineWorkerStep(p, e, orders, replies);
    } else if e.Look? {
      GenuineLook(p, orders, replies);
    }
  }

  function One(o: Order, id: nat): nat {
    if o.orderId == id then 1 else 0
  }

  function CountOrders(orders: seq<Order>, id: nat): nat {
    if orders == [] then 0 else One(orders[0], id) + CountOrders(orders[1..], id)
  }

  function CountResults(rs: seq<Result>, id: nat): nat {
    if rs == [] then 0 else One(rs[0].value, id) + CountResults(rs[1..], id)
  }

  function CountWorker(w: Worker, id: nat): nat {
    match w
    case Holding(o) => One(o, id)
    case Calling(o) => One(o, id)
    case Delivering(r) => One(r.value, id)
    case _ => 0
  }

  function CountWorkers(ws: seq<Worker>, id: nat): nat {
    if ws == [] then 0 else CountWorker(ws[0], id) + CountWorkers(ws[1..], id)
  }

  /** How often an order number occurs: unsent, queued, held by workers, in the results
      channel, in the consumer's hand, tallied, or dropped by cancellation. */
  function Count(p: State, id: nat): nat {
    CountOrders(p.unsent, id) + CountOrders(p.jobs, id) + CountWorkers(p.workers, id)
    + CountResults(p.results, id) + (if p.consumer.Received? then One(p.consumer.result.value, id) else 0)
    + CountResults(p.absorbed, id) + CountOrders(p.dropped, id)
  }

  lemma {:induction false} WorkerUpdate(ws: seq<Worker>, i: nat, w: Worker, id: nat)
    requires i < |ws|
    ensures CountWorkers(ws[i := w], id) == CountWorkers(ws, id) + CountWorker(w, id) - CountWorker(ws[i], id)
  {
    if i == 0 {
      assert ws[0 := w][1..] == ws[1..];
    } else {
      WorkerUpdate(ws[1..], i - 1, w, id);
      assert ws[i := w][1..] == ws[1..][i - 1 := w];
    }
  }

  lemma {:induction false} OrdersConcat(a: seq<Order>, b: seq<Order>, id: nat)
    ensures CountOrders(a + b, id) == CountOrders(a, id) + CountOrders(b, id)
  {
    if a == [] {
      assert a + b == b;
    } else {
      OrdersConcat(a[1..], b, id);
      assert (a + b)[1..] == a[1..] + b;
    }
  }

  lemma {:induction false} ResultsConcat(a: seq<Result>, r: Result, id: nat)
    ensures CountResults(a + [r], id) == CountResults(a, id) + One(r.value, id)
  {
    if a == [] {
      assert a + [r] == [r];
    } else {
      ResultsConcat(a[1..], r, id);
      assert (a + [r])[1..] == a[1..] + [r];
    }
  }

  lemma {:induction false} OrdersAppend(a: seq<Order>, o: Order, id: nat)
    ensures CountOrders(a + [o], id) == CountOrders(a, id) + One(o, id)
  {
    OrdersConcat(a, [o], id);
    assert CountOrders([o], id) == One(o, id) + CountOrders([], id);
  }

  lemma {:induction false} ProducerCount(p: State, e: Event, replies: nat -> Reply, id: nat)
    requires Enabled(p, e) && (e.Produce? || e.PutJob?)
    ensures Count(Step(p, e, replies), id) == Count(p, id)
  {
    if e.Produce? {
      OrdersConcat(p.dropped, p.unsent, id);
    } else {
      OrdersAppend(p.jobs, p.unsent[0], id);
    }
  }

  function CountAround(p: State, i: nat, id: nat): nat
    requires i < |p.workers|
  {
    CountOrders(p.jobs, id) + CountWorker(p.workers[i], id) + CountResults(p.results, id) + CountOrders(p.dropped, id)
  }

  lemma {:induction false} JobDropped(p: State, e: Event, replies: nat -> Reply, id: nat)
    requires Enabled(p, e) && (e.CheckJob? || e.EndCall?)
    ensures CountAround(Step(p, e, replies), e.i, id) == CountAround(p, e.i, id)
  {
    OrdersAppend(p.dropped, p.workers[e.i].job, id);
  }

  lemma {:induction false} WorkerMoves(p: State, e: Event, replies: nat -> Reply, id: nat)
    requires Enabled(p, e) && IsWorkerEvent(e)
    ensures CountAround(Step(p, e, replies), e.i, id) == CountAround(p, e.i, id)
  {
    if e.CheckJob? || e.EndCall? {
      JobDropped(p, e, replies, id);
    } else if e.Deliver? {
      ResultsConcat(p.results, p.workers[e.i].result, id);
    }
  }

  /** A worker step moves an order between the worker, the channels and the dropped ones. */
  lemma {:induction false} WorkerCount(p: State, e: Event, replies: nat -> Reply, id: nat)
    requires Enabled(p, e) && IsWorkerEvent(e)
    ensures Count(Step(p, e, replies), id) == Count(p, id)
  {
    var q := Step(p, e, replies);
    WorkerUpdate(p.workers, e.i, q.workers[e.i], id);
    assert q.workers == p.workers[e.i := q.workers[e.i]];
    WorkerMoves(p, e, replies, id);
  }

  lemma {:induction false} ConsumerCount(p: State, e: Event, replies: nat -> Reply, id: nat)
    requires Enabled(p, e) && (e.Receive? || e.Look?)
    ensures Count(Step(p, e, replies), id) == Count(p, id)
  {
    if e.Look? {
      ResultsConcat(p.absorbed, p.consumer.result, id);
      OrdersAppend(p.dropped, p.consumer.result.value, id);
    }
  }

  /** No step creates, duplicates or silently loses an order. */
  lemma {:induction false} CountStep(p: State, e: Event, replies: nat -> Reply, id: nat)
    requires Enabled(p, e)
    ensures Count(Step(p, e, replies), id) == Count(p, id)
  {
    if e.Produce? || e.PutJob? {
      ProducerCount(p, e, replies, id);
    } else if e.Receive? || e.Look? {
      ConsumerCount(p, e, replies, id);
    } else if IsWorkerEvent(e) {
      WorkerCount(p, e, replies, id);
    }
  }

  ghost predicate Inv(p: State, orders: seq<Order>, workerCount: nat, replies: nat -> Reply) {
    && Control(p)
    && |p.workers| == workerCount
    && Genuine(p, orders, replies)
    && forall id: nat :: Count(p, id) == CountOrders(orders, id)
  }

  lemma {:induction false} IdleWorkers(ws: seq<Worker>, id: nat)
    requires forall i :: 0 <= i < |ws| ==> ws[i].Waiting? || ws[i].Done?
    ensures CountWorkers(ws, id) == 0
  {
    if ws == [] {
    } else {
      IdleWorkers(ws[1..], id);
    }
  }

  /** Conservation and the control facts hold in every reachable state, cancelled or not. */
  lemma {:induction false} RunInvariant(orders: seq<Order>, workerCount: nat, replies: nat -> Reply,
                                        states: seq<State>, events: seq<Event>, i: nat)
    requires Run(orders, workerCount, replies, states, events) && i < |states|
    ensures Inv(states[i], orders, workerCount, replies)
  {
    if i == 0 {
      forall id: nat
        ensures Count(states[0], id) == CountOrders(orders, id)
      {
        IdleWorkers(states[0].workers, id);
      }
    } else {
      var p, e := states[i - 1], events[i - 1];
      RunInvariant(orders, workerCount, replies, states, events, i - 1);
      ControlStep(p, e, replies);
      GenuineStep(p, e, orders, replies);
      forall id: nat
        ensures Count(states[i], id) == CountOrders(orders, id)
      {
        CountStep(p, e, replies, id);
      }
    }
  }

  // ---------------------------------------------------------------- main results

  /** In every reachable state each order is in exactly one place: not yet sent, queued, with a
      worker, in the results channel, in the consumer's hand, tallied, or dropped by
      cancellation; and nothing is dropped without cancellation. */
  lemma {:induction false} OrdersConserved(orders: seq<Order>, workerCount: nat, replies: nat -> Reply,
                        states: seq<State>, events: seq<Event>, i: nat, id: nat)
    requires Run(orders, workerCount, replies, states, events) && i < |states|
    ensures Count(states[i], id) == CountOrders(orders, id)
    ensures !states[i].cancelled ==> states[i].dropped == []
  {
    RunInvariant(orders, workerCount, replies, states, events, i);
    assert Count(states[i], id) == CountOrders(orders, id);
  }

  /** No goroutine is ever about to send on a closed channel: the jobs channel is closed only
      by its one sender, the results channel only after every worker is done. Neither channel
      exceeds its capacity. */
  lemma {:induction false} ChannelSafety(orders: seq<Order>, workerCount: nat, replies: nat -> Reply,
                      states: seq<State>, events: seq<Event>, i: nat)
    requires Run(orders, workerCount, replies, states, events) && i < |states|
    ensures states[i].producer.Sending? ==> !states[i].jobsClosed
    ensures forall k :: 0 <= k < |states[i].workers| && states[i].workers[k].Delivering? ==> !states[i].resultsClosed
    ensures |states[i].jobs| <= 2 * workerCount && |states[i].results| <= 2 * workerCount
  {
    RunInvariant(orders, workerCount, replies, states, events, i);
  }

  lemma {:induction false} CountedResult(rs: seq<Result>, id: nat)
    requires CountResults(rs, id) > 0
    ensures exists r :: r in rs && r.value.orderId == id
  {
    if rs[0].value.orderId == id {
      assert rs[0] in rs;
    } else {
      CountedResult(rs[1..], id);
      var r :| r in rs[1..] && r.value.orderId == id;
      assert r in rs;
    }
  }

  lemma {:induction false} CountsItself(orders: seq<Order>, i: nat)
    requires i < |orders|
    ensures CountOrders(orders, orders[i].orderId) > 0
  {
    if i == 0 {
    } else {
      CountsItself(orders[1..], i - 1);
    }
  }

  /** Whatever is cancelled and whenever, what the call returns is part of the sequential
      answer: no order is reported with anything but the service's own reply about it. */
  lemma {:induction false} CancelledPoolIsPartial(orders: seq<Order>, workerCount: nat, replies: nat -> Reply,
                               states: seq<State>, events: seq<Event>)
    requires DistinctIds(orders)
    requires Run(orders, workerCount, replies, states, events)
    ensures var got, all := Last(states).tally, Sequential(orders, replies);
            && got.orders.Keys <= all.orders.Keys
            && (forall id :: id in got.orders ==> got.orders[id] == all.orders[id])
            && got.wait <= all.wait
  {
    RunInvariant(orders, workerCount, replies, states, events, |states| - 1);
    DistinctResults(orders, replies);
    FoldPart(Last(states).absorbed, ResultsOf(orders, replies));
  }

  /** How often an order number is among the orders that never reached the tally: not sent, left
      in the queue, or dropped by cancellation. */
  function Lost(p: State, id: nat): nat {
    CountOrders(p.unsent, id) + CountOrders(p.jobs, id) + CountOrders(p.dropped, id)
  }

  /** The orders that were not lost. */
  function Arrived(orders: seq<Order>, p: State): seq<Order> {
    if orders == [] then []
    else (if Lost(p, orders[0].orderId) == 0 then [orders[0]] else []) + Arrived(orders[1..], p)
  }

  lemma {:induction false} ArrivedMembers(orders: seq<Order>, p: State, o: Order)
    ensures o in Arrived(orders, p) <==> o in orders && Lost(p, o.orderId) == 0
  {
    if orders == [] {
    } else {
      ArrivedMembers(orders[1..], p, o);
      assert orders == [orders[0]] + orders[1..];
    }
  }

  lemma {:induction false} ArrivedDistinct(orders: seq<Order>, p: State)
    requires DistinctIds(orders)
    ensures DistinctIds(Arrived(orders, p))
  {
    if orders == [] {
    } else {
      var rest := orders[1..];
      ArrivedDistinct(rest, p);
      forall o | o in Arrived(rest, p)
        ensures o.orderId != orders[0].orderId
      {
        ArrivedMembers(rest, p, o);
        var i :| 0 <= i < |rest| && rest[i] == o;
        assert orders[i + 1] == o;
      }
    }
  }

  lemma {:induction false} CountedAtMostOnce(orders: seq<Order>, id: nat)
    requires DistinctIds(orders)
    ensures CountOrders(orders, id) <= 1
    ensures (forall o :: o in orders ==> o.orderId != id) ==> CountOrders(orders, id) == 0
  {
    if orders == [] {
    } else {
      var rest := orders[1..];
      CountedAtMostOnce(rest, id);
      assert forall i :: 0 <= i < |rest| ==> rest[i] == orders[i + 1];
    }
  }

  lemma {:induction false} ResultOfMember(orders: seq<Order>, replies: nat -> Reply, r: Result)
    ensures r in ResultsOf(orders, replies) <==> exists o :: o in orders && r == MakeResult(o, replies(o.orderId))
  {
    if r in ResultsOf(orders, replies) {
      var i :| 0 <= i < |orders| && ResultsOf(orders, replies)[i] == r;
      assert orders[i] in orders;
    } else if o :| o in orders && r == MakeResult(o, replies(o.orderId)) {
      GenuineResult(o, orders, replies);
    }
  }

  /** Once the consumer has returned, an order has been tallied or lost, never both. */
  lemma {:induction false} TalliedOrLost(p: State, orders: seq<Order>, workerCount: nat, replies: nat -> Reply,
                                         o: Order)
    requires DistinctIds(orders) && o in orders
    requires Inv(p, orders, workerCount, replies) && p.consumer.Returned?
    ensures CountResults(p.absorbed, o.orderId) + Lost(p, o.orderId) == 1
  {
    var i :| 0 <= i < |orders| && orders[i] == o;
    CountsItself(orders, i);
    CountedAtMostOnce(orders, o.orderId);
    IdleWorkers(p.workers, o.orderId);
    assert Count(p, o.orderId) == CountOrders(orders, o.orderId);
  }

  lemma {:induction false} CountsResult(rs: seq<Result>, r: Result)
    requires r in rs
    ensures CountResults(rs, r.value.orderId) > 0
  {
    if rs[0] == r {
    } else {
      assert rs == [rs[0]] + rs[1..];
      CountsResult(rs[1..], r);
    }
  }

  lemma {:induction false} AbsorbedArrived(p: State, orders: seq<Order>, workerCount: nat, replies: nat -> Reply,
                                           r: Result)
    requires DistinctIds(orders)
    requires Inv(p, orders, workerCount, replies) && p.consumer.Returned?
    ensures r in p.absorbed <==> r in ResultsOf(Arrived(orders, p), replies)
  {
    ResultOfMember(orders, replies, r);
    ResultOfMember(Arrived(orders, p), replies, r);
    if r in p.absorbed {
      var o :| o in orders && r == MakeResult(o, replies(o.orderId));
      TalliedOrLost(p, orders, workerCount, replies, o);
      CountsResult(p.absorbed, r);
      ArrivedMembers(orders, p, o);
    }
    if o :| o in Arrived(orders, p) && r == MakeResult(o, replies(o.orderId)) {
      ArrivedMembers(orders, p, o);
      TalliedOrLost(p, orders, workerCount, replies, o);
      CountedResult(p.absorbed, o.orderId);
      DistinctResults(orders, replies);
      GenuineResult(o, orders, replies);
    }
  }

  lemma {:induction false} ArrivedAnswered(orders: seq<Order>, p: State, replies: nat -> Reply, id: nat)
    requires DistinctIds(orders)
    requires id in Sequential(Arrived(orders, p), replies).orders
    ensures id in Sequential(orders, replies).orders && Lost(p, id) == 0
  {
    var arrived := Arrived(orders, p);
    ArrivedDistinct(orders, p);
    if arrived == [] {
      assert false;
    } else {
      SequentialMeaning(arrived, replies, 0);
      var k :| 0 <= k < |arrived| && arrived[k].orderId == id;
      SequentialMeaning(arrived, replies, k);
      ArrivedMembers(orders, p, arrived[k]);
      var i :| 0 <= i < |orders| && orders[i] == arrived[k];
      SequentialMeaning(orders, replies, i);
    }
  }

  /** Which answers are missing: those of the lost orders and no others. */
  lemma {:induction false} MissingExact(orders: seq<Order>, p: State, replies: nat -> Reply, id: nat)
    requires DistinctIds(orders)
    ensures var got, all := Sequential(Arrived(orders, p), replies), Sequential(orders, replies);
            && (id in got.orders <==> id in all.orders && Lost(p, id) == 0)
            && (id in got.orders ==> got.orders[id] == all.orders[id])
  {
    var arrived := Arrived(orders, p);
    ArrivedDistinct(orders, p);
    if id in Sequential(orders, replies).orders {
      SequentialMeaning(orders, replies, 0);
      var i :| 0 <= i < |orders| && orders[i].orderId == id;
      SequentialMeaning(orders, replies, i);
      ArrivedMembers(orders, p, orders[i]);
      if k: nat :| k < |arrived| && arrived[k] == orders[i] {
        SequentialMeaning(arrived, replies, k);
      }
    }
    if id in Sequential(arrived, replies).orders {
      ArrivedAnswered(orders, p, replies, id);
    }
  }

  /** What a call that returns without an error returns, whatever the number of workers and
      whenever the context was cancelled: the sequential answer to the orders that were not
      lost, complete with its wait. */
  lemma {:induction false} ReturnedExact(orders: seq<Order>, workerCount: nat, replies: nat -> Reply,
                                         states: seq<State>, events: seq<Event>)
    requires DistinctIds(orders)
    requires Run(orders, workerCount, replies, states, events)
    requires Last(states).consumer.Returned?
    ensures Last(states).tally == Sequential(Arrived(orders, Last(states)), replies)
    ensures forall id :: id in Last(states).tally.orders <==>
              id in Sequential(orders, replies).orders && Lost(Last(states), id) == 0
  {
    var p := Last(states);
    var arrived := Arrived(orders, p);
    RunInvariant(orders, workerCount, replies, states, events, |states| - 1);
    ArrivedDistinct(orders, p);
    DistinctResults(arrived, replies);
    forall r
      ensures r in p.absorbed <==> r in ResultsOf(arrived, replies)
    {
      AbsorbedArrived(p, orders, workerCount, replies, r);
    }
    FoldSame(ResultsOf(arrived, replies), p.absorbed);
    forall id: nat
      ensures id in p.tally.orders <==> id in Sequential(orders, replies).orders && Lost(p, id) == 0
    {
      MissingExact(orders, p, replies, id);
    }
  }

  /** Some order that was not lost was told to wait that long. */
  ghost predicate WaitArrived(orders: seq<Order>, p: State, replies: nat -> Reply, wait: int) {
    exists i :: 0 <= i < |orders| && Lost(p, orders[i].orderId) == 0 && AsksToWait(replies(orders[i].orderId), wait)
  }

  lemma {:induction false} WaitPart(orders: seq<Order>, p: State, replies: nat -> Reply)
    requires DistinctIds(orders)
    ensures 0 <= Sequential(Arrived(orders, p), replies).wait <= Sequential(orders, replies).wait
  {
    var rs := ResultsOf(Arrived(orders, p), replies);
    DistinctResults(orders, replies);
    forall r | r in rs
      ensures r in ResultsOf(orders, replies)
    {
      ResultOfMember(Arrived(orders, p), replies, r);
      var o :| o in Arrived(orders, p) && r == MakeResult(o, replies(o.orderId));
      ArrivedMembers(orders, p, o);
      GenuineResult(o, orders, replies);
    }
    FoldMeaning(rs);
    FoldPart(rs, ResultsOf(orders, replies));
  }

  lemma {:induction false} WaitExact(orders: seq<Order>, p: State, replies: nat -> Reply)
    requires DistinctIds(orders)
    ensures var got, all := Sequential(Arrived(orders, p), replies), Sequential(orders, replies);
            got.wait == all.wait <==> all.wait == 0 || WaitArrived(orders, p, replies, all.wait)
  {
    var arrived := Arrived(orders, p);
    var got, all := Sequential(arrived, replies).wait, Sequential(orders, replies).wait;
    ArrivedDistinct(orders, p);
    WaitPart(orders, p, replies);
    if all > 0 && got == all {
      SequentialMeaning(arrived, replies, 0);
      var k :| 0 <= k < |arrived| && AsksToWait(replies(arrived[k].orderId), got);
      ArrivedMembers(orders, p, arrived[k]);
      var i :| 0 <= i < |orders| && orders[i] == arrived[k];
      assert Lost(p, orders[i].orderId) == 0;
    }
    if i :| 0 <= i < |orders| && Lost(p, orders[i].orderId) == 0 && AsksToWait(replies(orders[i].orderId), all) {
      ArrivedMembers(orders, p, orders[i]);
      var k :| 0 <= k < |arrived| && arrived[k] == orders[i];
      SequentialMeaning(arrived, replies, k);
    }
  }

  /** The answer is complete exactly when no order with an answer was lost and the longest wait
      was asked for an order that was not. */
  lemma {:induction false} CompleteExact(orders: seq<Order>, workerCount: nat, replies: nat -> Reply,
                                         states: seq<State>, events: seq<Event>)
    requires DistinctIds(orders)
    requires Run(orders, workerCount, replies, states, events)
    requires Last(states).consumer.Returned?
    ensures var p, all := Last(states), Sequential(orders, replies);
            p.tally == all <==>
              && (forall id :: id in all.orders ==> Lost(p, id) == 0)
              && (all.wait == 0 || WaitArrived(orders, p, replies, all.wait))
  {
    var p, all := Last(states), Sequential(orders, replies);
    ReturnedExact(orders, workerCount, replies, states, events);
    WaitExact(orders, p, replies);
    forall id: nat
      ensures id in p.tally.orders <==> id in all.orders && Lost(p, id) == 0
      ensures id in p.tally.orders ==> p.tally.orders[id] == all.orders[id]
    {
      MissingExact(orders, p, replies, id);
    }
    if (forall id :: id in all.orders ==> Lost(p, id) == 0) {
      assert p.tally.orders == all.orders;
    }
  }

  /** Once the consumer has returned without cancellation and there is a worker, every
      goroutine has finished and no order has been lost. */
  lemma {:induction false} ReturnedMeansFinished(p: State, orders: seq<Order>, workerCount: nat, replies: nat -> Reply)
    requires Inv(p, orders, workerCount, replies) && workerCount >= 1
    requires p.consumer.Returned? && !p.cancelled
    ensures p.producer.Closed? && AllDone(p.workers) && p.resultsClosed
    ensures forall id: nat :: Lost(p, id) == 0
  {
    assert p.workers[0].Done?;
  }

  lemma {:induction false} NoneLost(orders: seq<Order>, p: State)
    requires forall id: nat :: Lost(p, id) == 0
    ensures Arrived(orders, p) == orders
  {
    if orders == [] {
    } else {
      NoneLost(orders[1..], p);
      assert orders == [orders[0]] + orders[1..];
    }
  }

  /** Refinement: whatever the schedule, an uncancelled call returns what asking one order
      after the other returns. */
  lemma {:induction false} PoolIsSequential(orders: seq<Order>, workerCount: nat, replies: nat -> Reply,
                                            states: seq<State>, events: seq<Event>)
    requires DistinctIds(orders) && workerCount >= 1
    requires Run(orders, workerCount, replies, states, events)
    requires Last(states).consumer.Returned? && !Last(states).cancelled
    ensures Last(states).tally == Sequential(orders, replies)
  {
    RunInvariant(orders, workerCount, replies, states, events, |states| - 1);
    ReturnedMeansFinished(Last(states), orders, workerCount, replies);
    NoneLost(orders, Last(states));
    ReturnedExact(orders, workerCount, replies, states, events);
  }

  lemma {:induction false} NothingArrives(orders: seq<Order>, replies: nat -> Reply,
                                          states: seq<State>, events: seq<Event>, i: nat)
    requires Run(orders, 0, replies, states, events) && i < |states|
    ensures states[i].absorbed == [] && !states[i].consumer.Received?
  {
    if i == 0 {
    } else {
      NothingArrives(orders, replies, states, events, i - 1);
      RunInvariant(orders, 0, replies, states, events, i - 1);
    }
  }

  /** Without workers nobody reads the jobs: the call returns at once, with nothing. */
  lemma {:induction false} NoWorkersNoAnswers(orders: seq<Order>, replies: nat -> Reply,
                                              states: seq<State>, events: seq<Event>, i: nat)
    requires Run(orders, 0, replies, states, events) && i < |states|
    ensures states[i].tally == Tally(map[], 0) && states[i].jobs == []
  {
    NothingArrives(orders, replies, states, events, i);
    RunInvariant(orders, 0, replies, states, events, i);
  }

  /** The number of workers decides exactly: an uncancelled call returns the sequential
      answer if and only if there is a worker or that answer is empty. */
  lemma {:induction false} PoolIsSequentialExact(orders: seq<Order>, workerCount: nat, replies: nat -> Reply,
                              states: seq<State>, events: seq<Event>)
    requires DistinctIds(orders)
    requires Run(orders, workerCount, replies, states, events)
    requires Last(states).consumer.Returned? && !Last(states).cancelled
    ensures Last(states).tally == Sequential(orders, replies)
       <==> workerCount >= 1 || Sequential(orders, replies) == Tally(map[], 0)
  {
    if workerCount >= 1 {
      PoolIsSequential(orders, workerCount, replies, states, events);
    } else {
      NoWorkersNoAnswers(orders, replies, states, events, |states| - 1);
    }
  }

  lemma {:induction false} OneMoreStep(orders: seq<Order>, workerCount: nat, replies: nat -> Reply,
                                       states: seq<State>, events: seq<Event>, e: Event)
    requires Run(orders, workerCount, replies, states, events) && Enabled(Last(states), e)
    ensures Run(orders, workerCount, replies, states + [Step(Last(states), e, replies)], events + [e])
  {
  }

  /** Where the pool stands when the context was cancelled before the producer sent anything and
      the first k workers have noticed. */
  function Noticed(orders: seq<Order>, workerCount: nat, k: nat): State {
    Init(orders, workerCount).(
      unsent := [], dropped := orders, producer := Closed, jobsClosed := true, cancelled := true,
      workers := seq(workerCount, i requires 0 <= i < workerCount => if i < k then Done else Waiting))
  }

  lemma {:induction false} OneMoreNotices(orders: seq<Order>, workerCount: nat, replies: nat -> Reply, k: nat)
    requires k < workerCount
    ensures Enabled(Noticed(orders, workerCount, k), TakeJob(k))
    ensures Step(Noticed(orders, workerCount, k), TakeJob(k), replies) == Noticed(orders, workerCount, k + 1)
  {
    var p := Noticed(orders, workerCount, k);
    assert p.workers[k := Done] == Noticed(orders, workerCount, k + 1).workers;
  }

  lemma {:induction false} AllNotice(orders: seq<Order>, workerCount: nat, replies: nat -> Reply)
    returns (states: seq<State>, events: seq<Event>)
    ensures Run(orders, workerCount, replies, states, events)
    ensures Last(states) == Noticed(orders, workerCount, workerCount)
  {
    var s0 := Init(orders, workerCount);
    var s1 := Step(s0, Cancel, replies);
    assert [] + orders == orders && s0.workers == Noticed(orders, workerCount, 0).workers;
    states, events := [s0, s1, Step(s1, Produce, replies)], [Cancel, Produce];
    for k := 0 to workerCount
      invariant Run(orders, workerCount, replies, states, events)
      invariant Last(states) == Noticed(orders, workerCount, k)
    {
      OneMoreNotices(orders, workerCount, replies, k);
      OneMoreStep(orders, workerCount, replies, states, events, TakeJob(k));
      states, events := states + [Step(Last(states), TakeJob(k), replies)], events + [TakeJob(k)];
    }
  }

  /** And it can be an empty part, whatever the orders, the workers and the replies: a context
      cancelled before anything is sent makes the call return nothing, and no error. */
  lemma {:induction false} CancellationCanLoseOrders(orders: seq<Order>, workerCount: nat, replies: nat -> Reply)
    returns (states: seq<State>, events: seq<Event>)
    ensures Run(orders, workerCount, replies, states, events)
    ensures Last(states).consumer.Returned? && Last(states).tally == Tally(map[], 0)
  {
    states, events := AllNotice(orders, workerCount, replies);
    OneMoreStep(orders, workerCount, replies, states, events, CloseResults);
    states, events := states + [Step(Last(states), CloseResults, replies)], events + [CloseResults];
    OneMoreStep(orders, workerCount, replies, states, events, Receive);
    states, events := states + [Step(Last(states), Receive, replies)], events + [Receive];
  }

  /** Every call that returns without an error returns the sequential answer. */
  ghost predicate SurelyComplete(orders: seq<Order>, workerCount: nat, replies: nat -> Reply) {
    forall states, events ::
      Run(orders, workerCount, replies, states, events) && Last(states).consumer.Returned? ==>
        Last(states).tally == Sequential(orders, replies)
  }

  /** Before the call: when it may be cancelled, it is sure to be complete exactly when there is
      nothing to answer. */
  lemma {:induction false} SurelyCompleteExact(orders: seq<Order>, workerCount: nat, replies: nat -> Reply)
    requires DistinctIds(orders)
    ensures SurelyComplete(orders, workerCount, replies) <==> Sequential(orders, replies) == Tally(map[], 0)
  {
    if SurelyComplete(orders, workerCount, replies) {
      var states, events := CancellationCanLoseOrders(orders, workerCount, replies);
      assert Last(states).tally == Sequential(orders, replies);
    } else if Sequential(orders, replies) == Tally(map[], 0) {
      var states, events :| Run(orders, workerCount, replies, states, events) && Last(states).consumer.Returned?
                            && Last(states).tally != Sequential(orders, replies);
      CancelledPoolIsPartial(orders, workerCount, replies, states, events);
      ReturnedExact(orders, workerCount, replies, states, events);
      WaitPart(orders, Last(states), replies);
    }
  }

  ghost predicate ConsumerFinished(p: State) {
    p.consumer.Returned? || p.consumer.Cancelled?
  }

  /** The caller never gets stuck: until it has its answer, some goroutine can step. */
  lemma {:induction false} SomebodyCanStep(p: State, orders: seq<Order>, workerCount: nat, replies: nat -> Reply)
    returns (e: Event)
    requires Inv(p, orders, workerCount, replies) && !ConsumerFinished(p)
    ensures Enabled(p, e) && !e.Cancel?
  {
    if p.consumer.Received? {
      return Look;
    }
    if p.results != [] || p.resultsClosed {
      return Receive;
    }
    if AllDone(p.workers) {
      return CloseResults;
    }
    var i: nat :| i < |p.workers| && !p.workers[i].Done?;
    match p.workers[i]
    case Holding(_) => e := CheckJob(i);
    case Calling(_) => e := EndCall(i, Complete);
    case Delivering(_) => e := Deliver(i);
    case Waiting =>
      if p.jobs != [] || p.jobsClosed {
        e := TakeJob(i);
      } else if p.producer.Checking? {
        e := Produce;
      } else {
        e := PutJob;
      }
  }

  // ---------------------------------------------------------------- termination

  function WorkerWork(w: Worker): nat {
    match w
    case Done => 0
    case Waiting => 1
    case Delivering(_) => 4
    case Calling(_) => 5
    case Holding(_) => 6
  }

  function WorkersWork(ws: seq<Worker>): nat {
    if ws == [] then 0 else WorkerWork(ws[0]) + WorkersWork(ws[1..])
  }

  /** The work left: what each order and each goroutine still has to do. */
  function Work(p: State): nat {
    8 * |p.unsent| + (if p.producer.Checking? then 2 else if p.producer.Sending? then 1 else 0)
    + 6 * |p.jobs| + WorkersWork(p.workers) + 2 * |p.results| + (if p.resultsClosed then 0 else 1)
    + (if p.consumer.Received? then 2 else if p.consumer.Ranging? then 1 else 0)
    + (if p.cancelled then 0 else 1)
  }

  lemma {:induction false} WorkUpdate(ws: seq<Worker>, i: nat, w: Worker)
    requires i < |ws|
    ensures WorkersWork(ws[i := w]) == WorkersWork(ws) + WorkerWork(w) - WorkerWork(ws[i])
  {
    if i == 0 {
      assert ws[0 := w][1..] == ws[1..];
    } else {
      WorkUpdate(ws[1..], i - 1, w);
      assert ws[i := w][1..] == ws[1..][i - 1 := w];
    }
  }

  lemma {:induction false} WorkerWorkShrinks(p: State, e: Event, replies: nat -> Reply)
    requires Enabled(p, e) && IsWorkerEvent(e)
    ensures Work(Step(p, e, replies)) < Work(p)
  {
    var q := Step(p, e, replies);
    WorkUpdate(p.workers, e.i, q.workers[e.i]);
    assert q.workers == p.workers[e.i := q.workers[e.i]];
    assert 6 * |q.jobs| + 2 * |q.results| + WorkerWork(q.workers[e.i])
         < 6 * |p.jobs| + 2 * |p.results| + WorkerWork(p.workers[e.i]);
  }

  /** Every step, of whichever goroutine, leaves less work. */
  lemma {:induction false} WorkShrinks(p: State, e: Event, replies: nat -> Reply)
    requires Enabled(p, e)
    ensures Work(Step(p, e, replies)) < Work(p)
  {
    if IsWorkerEvent(e) {
      WorkerWorkShrinks(p, e, replies);
    }
  }

  lemma {:induction false} WaitingWork(n: nat)
    ensures WorkersWork(seq(n, _ => Waiting)) == n
  {
    if n == 0 {
    } else {
      WaitingWork(n - 1);
      assert seq(n, _ => Waiting)[1..] == seq(n - 1, _ => Waiting);
    }
  }

  lemma {:induction false} WorkAlongRun(orders: seq<Order>, workerCount: nat, replies: nat -> Reply,
                                        states: seq<State>, events: seq<Event>, i: nat)
    requires Run(orders, workerCount, replies, states, events) && i < |states|
    ensures i + Work(states[i]) <= 8 * |orders| + workerCount + 5
  {
    if i == 0 {
      WaitingWork(workerCount);
    } else {
      WorkAlongRun(orders, workerCount, replies, states, events, i - 1);
      WorkShrinks(states[i - 1], events[i - 1], replies);
    }
  }

  /** Every run ends, within a bound known beforehand, and a run nobody can extend has ended
      with an answer to the caller; uncancelled and with a worker, with everybody finished. */
  lemma {:induction false} EveryRunEnds(orders: seq<Order>, workerCount: nat, replies: nat -> Reply,
                     states: seq<State>, events: seq<Event>)
    requires Run(orders, workerCount, replies, states, events)
    ensures |events| <= 8 * |orders| + workerCount + 5
    ensures (forall e: Event :: Enabled(Last(states), e) ==> e == Cancel) ==>
              Last(states).consumer.Returned? || Last(states).consumer.Cancelled?
    ensures ConsumerFinished(Last(states)) && !Last(states).cancelled && workerCount >= 1 ==>
              Last(states).producer.Closed? && AllDone(Last(states).workers) && Last(states).resultsClosed
  {
    var p := Last(states);
    WorkAlongRun(orders, workerCount, replies, states, events, |events|);
    RunInvariant(orders, workerCount, replies, states, events, |events|);
    if !ConsumerFinished(p) {
      var e := SomebodyCanStep(p, orders, workerCount, replies);
    } else if !p.cancelled && workerCount >= 1 {
      ReturnedMeansFinished(p, orders, workerCount, replies);
    }
  }

  /** Every uncancelled call can be brought to its end. */
  lemma {:induction false} RunToTheEnd(orders: seq<Order>, workerCount: nat, replies: nat -> Reply,
                                       states: seq<State>, events: seq<Event>)
    returns (ss: seq<State>, es: seq<Event>)
    requires Run(orders, workerCount, replies, states, events) && !Last(states).cancelled
    ensures Run(orders, workerCount, replies, ss, es)
    ensures Last(ss).consumer.Returned? && !Last(ss).cancelled
    decreases Work(Last(states))
  {
    var p := Last(states);
    RunInvariant(orders, workerCount, replies, states, events, |states| - 1);
    if ConsumerFinished(p) {
      ss, es := states, events;
    } else {
      var e := SomebodyCanStep(p, orders, workerCount, replies);
      WorkShrinks(p, e, replies);
      OneMoreStep(orders, workerCount, replies, states, events, e);
      ss, es := RunToTheEnd(orders, workerCount, replies, states + [Step(p, e, replies)], events + [e]);
    }
  }

  /** With a worker there is an uncancelled run for every input, and it returns the sequential
      answer. */
  lemma {:induction false} SequentialIsReached(orders: seq<Order>, workerCount: nat, replies: nat -> Reply)
    returns (states: seq<State>, events: seq<Event>)
    requires DistinctIds(orders) && workerCount >= 1
    ensures Run(orders, workerCount, replies, states, events)
    ensures Last(states).consumer.Returned? && !Last(states).cancelled
    ensures Last(states).tally == Sequential(orders, replies)
  {
    states, events := RunToTheEnd(orders, workerCount, replies, [Init(orders, workerCount)], []);
    PoolIsSequential(orders, workerCount, replies, states, events);
  }

  // ---------------------------------------------------------------- who waits for what

  /** A goroutine waits for nothing but its channel: a send blocks exactly while twice as many
      items as workers are buffered, a receive exactly while the channel is empty and open, and
      the context may be cancelled at any time. */
  lemma {:induction false} BlockedExact(p: State, i: nat)
    ensures p.producer.Checking? ==> Enabled(p, Produce)
    ensures p.producer.Sending? && p.unsent != [] ==> (Enabled(p, PutJob) <==> |p.jobs| < 2 * |p.workers|)
    ensures i < |p.workers| && p.workers[i].Waiting? ==> (Enabled(p, TakeJob(i)) <==> p.jobs != [] || p.jobsClosed)
    ensures i < |p.workers| && p.workers[i].Holding? ==> Enabled(p, CheckJob(i))
    ensures i < |p.workers| && p.workers[i].Calling? ==>
              && Enabled(p, EndCall(i, Complete))
              && (Enabled(p, EndCall(i, Aborted)) <==> p.cancelled)
              && forall r: Result :: r.value.orderId == p.workers[i].job.orderId ==>
                   (Enabled(p, EndCall(i, CutShort(r))) <==> p.cancelled)
    ensures i < |p.workers| && p.workers[i].Delivering? ==> (Enabled(p, Deliver(i)) <==> |p.results| < 2 * |p.workers|)
    ensures p.consumer.Ranging? ==> (Enabled(p, Receive) <==> p.results != [] || p.resultsClosed)
    ensures p.consumer.Received? ==> Enabled(p, Look)
    ensures Enabled(p, Cancel) <==> !p.cancelled
  {
  }

  // ---------------------------------------------------------------- after cancellation

  /** Nothing new begins after cancellation: no request is made, no order but the one in hand is
      queued and no result is tallied. */
  ghost predicate WindsDown(p: State, q: State) {
    && q.cancelled
    && q.tally == p.tally
    && |q.workers| == |p.workers|
    && (forall k :: 0 <= k < |q.workers| && q.workers[k].Calling? ==> p.workers[k].Calling?)
    && (q.producer.Sending? ==> p.producer.Sending? && q.unsent == p.unsent)
    && (p.consumer.Cancelled? ==> q.consumer.Cancelled?)
  }

  lemma {:induction false} WindsDownStep(p: State, e: Event, replies: nat -> Reply)
    requires p.cancelled && Enabled(p, e)
    ensures WindsDown(p, Step(p, e, replies))
  {
  }

  lemma {:induction false} CancelledRunWindsDown(orders: seq<Order>, workerCount: nat, replies: nat -> Reply,
                                                 states: seq<State>, events: seq<Event>, i: nat, j: nat)
    requires Run(orders, workerCount, replies, states, events) && i <= j < |states| && states[i].cancelled
    ensures WindsDown(states[i], states[j])
    decreases j
  {
    if i == j {
    } else {
      CancelledRunWindsDown(orders, workerCount, replies, states, events, i, j - 1);
      WindsDownStep(states[j - 1], events[j - 1], replies);
    }
  }

  /** A call that looks at a result under a cancelled context ends with an error, whatever the
      other goroutines still do. */
  lemma {:induction false} LookAfterCancelFails(orders: seq<Order>, workerCount: nat, replies: nat -> Reply,
                                                states: seq<State>, events: seq<Event>, i: nat, j: nat)
    requires Run(orders, workerCount, replies, states, events) && i < j < |states|
    requires states[i].cancelled && events[i].Look?
    ensures states[j].consumer.Cancelled? && !states[j].consumer.Returned?
  {
    WindsDownStep(states[i], events[i], replies);
    CancelledRunWindsDown(orders, workerCount, replies, states, events, i + 1, j);
  }

  function ReceivedNow(p: State, e: Event): seq<Result> {
    if e.Receive? && p.results != [] then [p.results[0]] else []
  }

  /** The results the consumer has received so far, in order. */
  function ReceivedSoFar(states: seq<State>, events: seq<Event>, n: nat): seq<Result>
    requires n <= |events| < |states|
  {
    if n == 0 then [] else ReceivedSoFar(states, events, n - 1) + ReceivedNow(states[n - 1], events[n - 1])
  }

  /** All that was received is tallied, but for a result still in hand or refused. */
  ghost predicate Drained(p: State, received: seq<Result>) {
    && (p.consumer.Ranging? || p.consumer.Returned? ==> p.absorbed == received)
    && (p.consumer.Received? ==> p.absorbed + [p.consumer.result] == received)
    && (p.consumer.Cancelled? ==> |received| == |p.absorbed| + 1 && p.absorbed <= received)
  }

  lemma {:induction false} DrainStep(p: State, e: Event, replies: nat -> Reply, received: seq<Result>)
    requires Drained(p, received) && Enabled(p, e)
    ensures Drained(Step(p, e, replies), received + ReceivedNow(p, e))
  {
    assert received + [] == received;
    if e.Receive? {
      assert p.consumer.Ranging?;
    }
  }

  lemma {:induction false} RunDrained(orders: seq<Order>, workerCount: nat, replies: nat -> Reply,
                                      states: seq<State>, events: seq<Event>, n: nat)
    requires Run(orders, workerCount, replies, states, events) && n < |states|
    ensures Drained(states[n], ReceivedSoFar(states, events, n))
  {
    if n == 0 {
    } else {
      RunDrained(orders, workerCount, replies, states, events, n - 1);
      DrainStep(states[n - 1], events[n - 1], replies, ReceivedSoFar(states, events, n - 1));
    }
  }

  /** The consumer does with what it receives what draining it in order does: a call that returns
      has folded all of it, one that fails had one result left to look at. */
  lemma {:induction false} ConsumerDrains(orders: seq<Order>, workerCount: nat, replies: nat -> Reply,
                                          states: seq<State>, events: seq<Event>, n: nat)
    requires Run(orders, workerCount, replies, states, events) && n < |states|
    ensures states[n].consumer.Returned? ==> states[n].tally == Fold(ReceivedSoFar(states, events, n))
    ensures states[n].consumer.Cancelled? ==>
              && states[n].absorbed < ReceivedSoFar(states, events, n)
              && states[n].tally == Fold(states[n].absorbed)
  {
    RunDrained(orders, workerCount, replies, states, events, n);
    RunInvariant(orders, workerCount, replies, states, events, n);
  }
}
