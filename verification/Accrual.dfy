/**
  One cycle of the poller, internal/gophermart/accrual/accrual.go, run without interference:
  read the pending orders, ask the accrual service, keep what changed, commit the batch.
  The pool is any function that returns what some run of `Pool` returns, or an error.
 */
module Accrual {
  import opened Accounting
  import opened Batches
  import opened Ledger
  import opened LedgerProofs
  import opened Money
  import opened Pg
  import opened Pool
  import opened PoolProofs
  import opened Tables
  import opened Wrappers

  /** Where one cycle takes an order: a pending one to the status and accrual of a 200 reply
      that names another status, any other nowhere. */
  function NextRow(row: OrderRow, reply: Pool.Reply): OrderRow {
    if Pending(row.status) && reply.Http? && reply.code == 200 && reply.status != row.status
    then OrderRow(row.owner, reply.status, Cents(reply.accrual))
    else row
  }

  /** What a cycle makes of t when the accrual service answers for the orders in `answered`. */
  ghost predicate CycleDone(t: Db, u: Db, replies: nat -> Pool.Reply, answered: set<nat>) {
    && u.orders.Keys == t.orders.Keys
    && u.withdrawals == t.withdrawals
    && forall id :: id in t.orders ==>
         u.orders[id] == if id in answered then NextRow(t.orders[id], replies(id)) else t.orders[id]
  }

  /** Some run of the pool, cancelled or not, returns this without an error. */
  ghost predicate PoolReturns(orders: seq<Order>, workerCount: nat, replies: nat -> Pool.Reply, tally: Pool.Tally) {
    exists states, events :: Pool.Run(orders, workerCount, replies, states, events)
                             && Last(states).consumer.Returned? && Last(states).tally == tally
  }

  /** `send` is a pool: for every list of distinct orders it returns what some run of the pool
      over that list returns, or an error. */
  ghost predicate IsPool(send: seq<Order> -> Option<Pool.Tally>, workerCount: nat, replies: nat -> Pool.Reply) {
    forall orders :: DistinctIds(orders) && send(orders).Some? ==>
      PoolReturns(orders, workerCount, replies, send(orders).value)
  }

  /** A pool that loses nothing, as an uncancelled one with a worker does. */
  ghost predicate LosesNothing(send: seq<Order> -> Option<Pool.Tally>, replies: nat -> Pool.Reply) {
    forall orders :: DistinctIds(orders) ==> send(orders) == Some(Sequential(orders, replies))
  }

  /** Such a pool is there for every number of workers but none; one that always fails and one
      that always comes back empty are pools as well. */
  lemma {:induction false} SequentialIsPool(workerCount: nat, replies: nat -> Pool.Reply)
    requires workerCount >= 1
    ensures var send := (orders: seq<Order>) => Some(Sequential(orders, replies));
            IsPool(send, workerCount, replies) && LosesNothing(send, replies)
    ensures IsPool(_ => None, workerCount, replies) && IsPool(_ => Some(Pool.Tally(map[], 0)), workerCount, replies)
  {
    forall orders: seq<Order>
      ensures PoolReturns(orders, workerCount, replies, Pool.Tally(map[], 0))
    {
      var states, events := CancellationCanLoseOrders(orders, workerCount, replies);
    }
    forall orders: seq<Order> | DistinctIds(orders)
      ensures PoolReturns(orders, workerCount, replies, Sequential(orders, replies))
    {
      var states, events := SequentialIsReached(orders, workerCount, replies);
    }
  }

  /** The answers are the service's own, about orders of the list and under their owners. */
  ghost predicate OwnAnswers(orders: seq<Order>, replies: nat -> Pool.Reply, got: map<nat, Order>) {
    forall id :: id in got ==>
      exists i :: 0 <= i < |orders| && orders[i].orderId == id
                  && replies(id).Http? && replies(id).code == HTTP_SUCCESS
                  && got[id] == Order(id, orders[i].userId, replies(id).status, replies(id).accrual)
  }

  ghost predicate CommittedListing(t: Db, u: Db, orders: seq<Order>, send: seq<Order> -> Option<Pool.Tally>,
                                   replies: nat -> Pool.Reply) {
    && PendingRows(t, orders) && send(orders).Some?
    && var got := send(orders).value.orders;
    && AnswersFor(orders, got)
    && u == CycleAlone(t, orders, got).db
    && CycleDone(t, u, replies, got.Keys)
  }

  /** What a committed cycle has done: for some listing of the pending orders, what the ledger's
      three cycle events do when nothing comes in between, which is to move every order the
      pool answered for to what the service says about it and no other. */
  ghost predicate CycleCommitted(t: Db, u: Db, send: seq<Order> -> Option<Pool.Tally>, replies: nat -> Pool.Reply) {
    exists orders :: CommittedListing(t, u, orders, send, replies)
  }

  /** The service keeps its promise in every 200 reply. */
  ghost predicate HonestReplies(replies: nat -> Pool.Reply) {
    forall id: nat :: replies(id).Http? && replies(id).code == HTTP_SUCCESS ==>
      Honest(Order(id, 0, replies(id).status, replies(id).accrual))
  }

  lemma {:induction false} DocumentedRepliesPromised(replies: nat -> Pool.Reply)
    requires forall id: nat :: replies(id).Http? && replies(id).code == 200 ==>
               || (replies(id).status == PROCESSED && replies(id).accrual >= 0.0)
               || (replies(id).accrual == 0.0
                   && (replies(id).status == REGISTERED || replies(id).status == PROCESSING
                       || replies(id).status == INVALID))
               || replies(id).status.Garbled?
    ensures HonestReplies(replies)
  {
    forall id: nat | replies(id).Http? && replies(id).code == 200
      ensures Honest(Order(id, 0, replies(id).status, replies(id).accrual))
    {
      DocumentedRepliesHonest(Order(id, 0, replies(id).status, replies(id).accrual));
    }
  }

  lemma {:induction false} ConcatAssociates<T>(x: seq<T>, y: seq<T>, z: seq<T>)
    ensures x + (y + z) == (x + y) + z
  {
  }

  lemma {:induction false} AppendChanged(a: seq<Order>, o: Order, resOrders: map<nat, Order>)
    ensures Changed(a + [o], resOrders) == Changed(a, resOrders) + Kept(o, resOrders)
  {
    if a == [] {
      assert a + [o] == [o] && Changed([o][1..], resOrders) == [];
    } else {
      AppendChanged(a[1..], o, resOrders);
      assert (a + [o])[0] == a[0] && (a + [o])[1..] == a[1..] + [o];
      ConcatAssociates(Kept(a[0], resOrders), Changed(a[1..], resOrders), Kept(o, resOrders));
    }
  }

  lemma {:induction false} SequentialOwn(orders: seq<Order>, replies: nat -> Pool.Reply)
    requires DistinctIds(orders)
    ensures OwnAnswers(orders, replies, Sequential(orders, replies).orders)
  {
    var all := Sequential(orders, replies).orders;
    forall id | id in all
      ensures exists i :: 0 <= i < |orders| && orders[i].orderId == id
                          && replies(id).Http? && replies(id).code == HTTP_SUCCESS
                          && all[id] == Order(id, orders[i].userId, replies(id).status, replies(id).accrual)
    {
      if orders != [] {
        SequentialMeaning(orders, replies, 0);
        var j :| 0 <= j < |orders| && orders[j].orderId == id;
        SequentialMeaning(orders, replies, j);
      }
    }
  }

  /** Whatever is cancelled, a pool returns nothing but the service's own answers. */
  lemma {:induction false} PoolOwn(orders: seq<Order>, workerCount: nat, replies: nat -> Pool.Reply,
                                   states: seq<Pool.State>, events: seq<Pool.Event>)
    requires DistinctIds(orders) && Pool.Run(orders, workerCount, replies, states, events)
    ensures OwnAnswers(orders, replies, Last(states).tally.orders)
  {
    CancelledPoolIsPartial(orders, workerCount, replies, states, events);
    SequentialOwn(orders, replies);
  }

  lemma {:induction false} OwnAnswersFor(orders: seq<Order>, replies: nat -> Pool.Reply, got: map<nat, Order>)
    requires DistinctIds(orders) && OwnAnswers(orders, replies, got)
    ensures AnswersFor(orders, got) && UnderOwnName(orders, got)
  {
    forall id | id in got
      ensures exists i :: 0 <= i < |orders| && orders[i].orderId == id
                          && got[id].orderId == id && got[id].userId == orders[i].userId
    {
      var i :| 0 <= i < |orders| && orders[i].orderId == id && got[id].userId == orders[i].userId;
    }
    AnswersOwnName(orders, got);
  }

  /** What the filter keeps of the answers, order by order. */
  lemma {:induction false} KeptAnswer(t: Db, orders: seq<Order>, replies: nat -> Pool.Reply,
                                      got: map<nat, Order>, i: nat)
    requires PendingRows(t, orders) && i < |orders| && OwnAnswers(orders, replies, got)
    ensures var id, es := orders[i].orderId, Changed(orders, got);
            var next := if id in got then NextRow(t.orders[id], replies(id)) else t.orders[id];
            if next != t.orders[id] || (exists o :: o in es && o.orderId == id) then
              && replies(id).Http?
              && Order(id, next.owner, replies(id).status, replies(id).accrual) in es
              && next == OrderRow(next.owner, replies(id).status, Cents(replies(id).accrual))
            else
              next == t.orders[id]
  {
    var id := orders[i].orderId;
    OwnAnswersFor(orders, replies, got);
    ChangedPicks(orders, got);
    if id in got {
      var k :| 0 <= k < |orders| && orders[k].orderId == id
               && got[id] == Order(id, orders[k].userId, replies(id).status, replies(id).accrual);
      assert k == i;
      if got[id].status != orders[i].status {
        assert PickedFrom(got[id], orders, got);
      }
    }
    if o :| o in Changed(orders, got) && o.orderId == id {
      assert PickedFrom(o, orders, got);
      var k :| 0 <= k < |orders| && orders[k].orderId == id && orders[k].status != o.status;
      assert k == i;
    }
  }

  lemma {:induction false} CyclePosts(t: Db, orders: seq<Order>, replies: nat -> Pool.Reply, got: map<nat, Order>)
    requires PendingRows(t, orders) && OwnAnswers(orders, replies, got)
    requires PostAll(t, Changed(orders, got)).Some?
    ensures CycleDone(t, PostAll(t, Changed(orders, got)).value, replies, got.Keys)
  {
    var es := Changed(orders, got);
    var u := PostAll(t, es).value;
    OwnAnswersFor(orders, replies, got);
    ChangedFits(t, orders, got);
    ChangedPicks(orders, got);
    BatchEffect(t, es);
    forall id | id in t.orders
      ensures u.orders[id] == if id in got then NextRow(t.orders[id], replies(id)) else t.orders[id]
    {
      if Pending(t.orders[id].status) {
        var i :| 0 <= i < |orders| && orders[i] == ReadOrder(id, t.orders[id]);
        KeptAnswer(t, orders, replies, got, i);
      }
    }
  }

  lemma {:induction false} HonestAnswer(orders: seq<Order>, replies: nat -> Pool.Reply, got: map<nat, Order>, id: nat)
    requires OwnAnswers(orders, replies, got) && HonestReplies(replies) && id in got
    ensures Honest(got[id])
  {
    var i :| 0 <= i < |orders| && orders[i].orderId == id
             && replies(id).Http? && replies(id).code == HTTP_SUCCESS
             && got[id] == Order(id, orders[i].userId, replies(id).status, replies(id).accrual);
    assert Honest(Order(id, 0, replies(id).status, replies(id).accrual));
  }

  /** A cycle overwrites nothing when pending rows carry nothing, and truthful answers keep it so. */
  lemma {:induction false} CycleAgrees(t: Db, orders: seq<Order>, replies: nat -> Pool.Reply, got: map<nat, Order>)
    requires PendingRows(t, orders) && OwnAnswers(orders, replies, got)
    requires PostAll(t, Changed(orders, got)).Some? && Rows(t)
    ensures Agrees(t) ==> Agrees(PostAll(t, Changed(orders, got)).value)
    ensures HonestReplies(replies) ==> Rows(PostAll(t, Changed(orders, got)).value)
  {
    var es := Changed(orders, got);
    OwnAnswersFor(orders, replies, got);
    ChangedFits(t, orders, got);
    forall user: nat
      ensures OverwrittenBy(t, es, user) == 0
    {
      PendingOverwritesNothing(t, es, user);
    }
    if Agrees(t) {
      BatchAgreementExact(t, es);
    }
    if HonestReplies(replies) {
      forall i | 0 <= i < |es|
        ensures Honest(es[i])
      {
        ChangedPicks(orders, got);
        assert PickedFrom(es[i], orders, got);
        HonestAnswer(orders, replies, got, es[i].orderId);
      }
      HonestBatch(t, es);
    }
  }

  /** What a committed cycle has done. */
  lemma {:induction false} CycleEffect(t: Db, orders: seq<Order>, send: seq<Order> -> Option<Pool.Tally>,
                                       replies: nat -> Pool.Reply)
    requires PendingRows(t, orders) && send(orders).Some?
    requires OwnAnswers(orders, replies, send(orders).value.orders)
    requires PostAll(t, Changed(orders, send(orders).value.orders)).Some?
    ensures var u := PostAll(t, Changed(orders, send(orders).value.orders)).value;
            && CycleCommitted(t, u, send, replies)
            && (Rows(t) && Agrees(t) ==> Agrees(u))
            && (Rows(t) && HonestReplies(replies) ==> Rows(u))
  {
    var got := send(orders).value.orders;
    var u := PostAll(t, Changed(orders, got)).value;
    OwnAnswersFor(orders, replies, got);
    CyclePosts(t, orders, replies, got);
    CycleAlonePosts(t, orders, got);
    assert CommittedListing(t, u, orders, send, replies);
    if Rows(t) {
      CycleAgrees(t, orders, replies, got);
    }
  }

  /** When the pool loses nothing, a cycle moves every pending order. */
  lemma {:induction false} FullCycle(t: Db, u: Db, orders: seq<Order>, replies: nat -> Pool.Reply)
    requires PendingRows(t, orders)
    requires CycleDone(t, u, replies, Sequential(orders, replies).orders.Keys)
    ensures CycleDone(t, u, replies, t.orders.Keys)
  {
    forall id | id in t.orders && id !in Sequential(orders, replies).orders
      ensures NextRow(t.orders[id], replies(id)) == t.orders[id]
    {
      if Pending(t.orders[id].status) {
        var i :| 0 <= i < |orders| && orders[i] == ReadOrder(id, t.orders[id]);
        SequentialMeaning(orders, replies, i);
      }
    }
  }

  lemma {:induction false} WaitMeaning(t: Db, orders: seq<Order>, replies: nat -> Pool.Reply)
    requires PendingRows(t, orders)
    ensures var wait := Sequential(orders, replies).wait;
            && wait >= 0
            && (wait > 0 ==>
                  exists id :: id in t.orders && Pending(t.orders[id].status) && AsksToWait(replies(id), wait))
            && forall id :: id in t.orders && Pending(t.orders[id].status) ==>
                 forall n :: AsksToWait(replies(id), n) ==> n <= wait
  {
    var wait := Sequential(orders, replies).wait;
    if orders != [] {
      SequentialMeaning(orders, replies, 0);
    }
    if wait > 0 {
      var j :| 0 <= j < |orders| && AsksToWait(replies(orders[j].orderId), wait);
      assert orders[j].orderId in t.orders;
    }
    forall id, n | id in t.orders && Pending(t.orders[id].status) && AsksToWait(replies(id), n)
      ensures n <= wait
    {
      var i :| 0 <= i < |orders| && orders[i] == ReadOrder(id, t.orders[id]);
      SequentialMeaning(orders, replies, i);
    }
  }

  /** What a pool returns, seen from a cycle. */
  lemma {:induction false} PoolAnswer(t: Db, orders: seq<Order>, workerCount: nat, replies: nat -> Pool.Reply,
                                      tally: Pool.Tally)
    requires PendingRows(t, orders) && PoolReturns(orders, workerCount, replies, tally)
    ensures OwnAnswers(orders, replies, tally.orders)
    ensures tally.wait >= 0
    ensures tally.wait > 0 ==>
              exists id :: id in t.orders && Pending(t.orders[id].status) && AsksToWait(replies(id), tally.wait)
  {
    var states, events :| Pool.Run(orders, workerCount, replies, states, events)
                          && Last(states).consumer.Returned? && Last(states).tally == tally;
    PoolOwn(orders, workerCount, replies, states, events);
    ReturnedExact(orders, workerCount, replies, states, events);
    var arrived := Arrived(orders, Last(states));
    ArrivedDistinct(orders, Last(states));
    if arrived != [] {
      SequentialMeaning(arrived, replies, 0);
    }
    if tally.wait > 0 {
      var k :| 0 <= k < |arrived| && AsksToWait(replies(arrived[k].orderId), tally.wait);
      ArrivedMembers(orders, Last(states), arrived[k]);
    }
  }

  /** What comes of a cycle that read this listing: nothing without an answer; otherwise the wait
      the answer asks for and, unless the batch fails, every answered order moved. */
  ghost predicate CycleOutcome(t: Db, u: Db, wait: int, committed: bool, orders: seq<Order>,
                               answer: Option<Pool.Tally>, replies: nat -> Pool.Reply,
                               faultAt: set<nat>, txFails: bool) {
    && PendingRows(t, orders)
    && if orders == [] || answer == None then
         u == t && wait == 0 && !committed
       else
         var es := Changed(orders, answer.value.orders);
         && wait == answer.value.wait
         && (committed <==> es != [] && !txFails && PostAll(t, es).Some? && forall i :: 0 <= i < |es| ==> i !in faultAt)
         && (committed ==> PostAll(t, es) == Some(u))
         && (!committed ==> u == t)
  }

  /** A committed cycle is the ledger's own, and moves the orders answered for. */
  lemma {:induction false} OutcomeCommitted(t: Db, u: Db, wait: int, orders: seq<Order>,
                                            send: seq<Order> -> Option<Pool.Tally>, workerCount: nat,
                                            replies: nat -> Pool.Reply, faultAt: set<nat>, txFails: bool)
    requires IsPool(send, workerCount, replies)
    requires CycleOutcome(t, u, wait, true, orders, send(orders), replies, faultAt, txFails)
    ensures CycleCommitted(t, u, send, replies)
    ensures Rows(t) && Agrees(t) ==> Agrees(u)
    ensures Rows(t) && HonestReplies(replies) ==> Rows(u)
  {
    PoolAnswer(t, orders, workerCount, replies, send(orders).value);
    CycleEffect(t, orders, send, replies);
  }

  /** When the pool loses nothing, a cycle that nothing disturbs leaves every row that is NEW,
      REGISTERED or PROCESSING with the other status a 200 names and its accrual in cents, and
      every other row alone, or its batch was refused. */
  lemma {:induction false} OutcomeLaw(t: Db, u: Db, wait: int, committed: bool, orders: seq<Order>,
                                      replies: nat -> Pool.Reply, faultAt: set<nat>, txFails: bool, id: nat)
    requires CycleOutcome(t, u, wait, committed, orders, Some(Sequential(orders, replies)), replies, faultAt, txFails)
    requires committed || (faultAt == {} && !txFails)
    requires id in t.orders
    ensures var row, reply := t.orders[id], replies(id);
            || (&& id in u.orders
                && if reply.Http? && reply.code == 200 && reply.status != row.status
                      && (row.status == NEW || row.status == REGISTERED || row.status == PROCESSING)
                   then u.orders[id] == OrderRow(row.owner, reply.status, Cents(reply.accrual))
                   else u.orders[id] == row)
            || (!committed && PostAll(t, Changed(orders, Sequential(orders, replies).orders)).None?)
  {
    var got := Sequential(orders, replies).orders;
    SequentialOwn(orders, replies);
    if committed || Changed(orders, got) == [] {
      assert PostAll(t, []) == Some(t);
      assert orders == [] ==> Changed(orders, got) == [];
      CyclePosts(t, orders, replies, got);
      FullCycle(t, u, orders, replies);
    }
  }

  /** The wait after a cycle is zero or one that a 429 about a pending order asked for. */
  lemma {:induction false} OutcomeWait(t: Db, u: Db, wait: int, committed: bool, orders: seq<Order>,
                                       send: seq<Order> -> Option<Pool.Tally>, workerCount: nat,
                                       replies: nat -> Pool.Reply, faultAt: set<nat>, txFails: bool)
    requires IsPool(send, workerCount, replies)
    requires CycleOutcome(t, u, wait, committed, orders, send(orders), replies, faultAt, txFails)
    ensures wait >= 0
    ensures wait > 0 ==>
              exists id :: && id in t.orders
                           && (t.orders[id].status == NEW || t.orders[id].status == REGISTERED
                               || t.orders[id].status == PROCESSING)
                           && replies(id).Http? && replies(id).code == 429 && replies(id).retryAfter == wait
    ensures LosesNothing(send, replies) ==>
              forall id | id in t.orders && replies(id).Http? && replies(id).code == 429 ::
                t.orders[id].status == NEW || t.orders[id].status == REGISTERED || t.orders[id].status == PROCESSING ==>
                  replies(id).retryAfter <= wait
  {
    if orders != [] && send(orders).Some? {
      PoolAnswer(t, orders, workerCount, replies, send(orders).value);
    }
    WaitMeaning(t, orders, replies);
    if LosesNothing(send, replies) {
      forall id | id in t.orders && Pending(t.orders[id].status) && replies(id).Http? && replies(id).code == 429
        ensures replies(id).retryAfter <= wait
      {
        assert AsksToWait(replies(id), replies(id).retryAfter);
      }
    }
  }

  class HandlersAccrual {
    var waitSec: int
    const store: PgStore

    constructor (store: PgStore)
      ensures this.store == store && waitSec == 0
    {
      this.store := store;
      waitSec := 0;
    }

    method ChangedOrders(orders: seq<Order>, resOrders: map<nat, Order>) returns (updOrders: seq<Order>)
      ensures updOrders == Changed(orders, resOrders)
    {
      updOrders := [];
      for i := 0 to |orders|
        invariant updOrders == Changed(orders[..i], resOrders)
      {
        if orders[i].orderId in resOrders {
          var val := resOrders[orders[i].orderId];
          if orders[i].status != val.status {
            updOrders := updOrders + [val];
          }
        }
        AppendChanged(orders[..i], orders[i], resOrders);
        assert orders[..i + 1] == orders[..i] + [orders[i]];
      }
      assert orders[..|orders|] == orders;
    }

    /** A cycle moves every pending order the pool answers for to what the service says about it
        and nothing else, or changes no table; the wait before the next cycle is the one the
        answer asks for. `orders` is what the cycle read. */
    method PollOnce(send: seq<Order> -> Option<Pool.Tally>, ghost workerCount: nat, ghost replies: nat -> Pool.Reply,
                    fetchFails: bool, faultAt: set<nat>, beginFails: bool, commitFails: bool)
      returns (committed: bool, ghost orders: seq<Order>)
      requires IsPool(send, workerCount, replies)
      modifies this, store
      ensures fetchFails ==> !committed && waitSec == 0
      ensures !fetchFails ==>
                CycleOutcome(old(store.Contents()), store.Contents(), waitSec, committed, orders, send(orders), replies,
                             faultAt, beginFails || commitFails)
      ensures committed ==> CycleCommitted(old(store.Contents()), store.Contents(), send, replies)
      ensures !committed ==> store.Contents() == old(store.Contents())
      ensures Rows(old(store.Contents())) && Agrees(old(store.Contents())) ==> Agrees(store.Contents())
      ensures Rows(old(store.Contents())) && HonestReplies(replies) ==> Rows(store.Contents())
    {
      ghost var t := store.Contents();
      committed, orders := false, [];
      waitSec := 0;
      if fetchFails {
        return;
      }
      var listed := store.GetOrdersForProcessing();
      orders := listed;
      if listed == [] {
        return;
      }
      var answer := send(listed);
      if answer == None {
        return;
      }
      var tally := answer.value;
      PoolAnswer(t, orders, workerCount, replies, tally);
      if tally.wait > 0 {
        waitSec := tally.wait;
      }
      var updOrders := ChangedOrders(listed, tally.orders);
      if updOrders == [] {
        return;
      }
      var r := store.UpdateOrdersBalancesBatch(updOrders, faultAt, beginFails, commitFails);
      committed := r == Ok;
      if committed {
        OutcomeCommitted(t, store.Contents(), waitSec, orders, send, workerCount, replies,
                         faultAt, beginFails || commitFails);
      }
    }
  }

  /** The bridge to the interleaved system: whatever a pool run over a snapshot returns,
      complete or cut short by cancellation, is an answer the ledger's cycle admits, and a
      lawful one when the service keeps its promise. */
  lemma {:induction false} PoolFeedsLedger(s: Ledger.State, workerCount: nat, replies: nat -> Pool.Reply,
                        states: seq<Pool.State>, events: seq<Pool.Event>)
    requires s.cycle.Polled? && DistinctIds(s.cycle.orders)
    requires Pool.Run(s.cycle.orders, workerCount, replies, states, events)
    ensures Ledger.Enabled(s, Ledger.Reply(Last(states).tally.orders))
    ensures HonestReplies(replies) ==> Truthful(Ledger.Reply(Last(states).tally.orders))
  {
    var orders := s.cycle.orders;
    var got := Last(states).tally.orders;
    PoolOwn(orders, workerCount, replies, states, events);
    OwnAnswersFor(orders, replies, got);
    forall id | id in got && HonestReplies(replies)
      ensures Honest(got[id])
    {
      HonestAnswer(orders, replies, got, id);
    }
  }
}
