/**
  The store of internal/common/store/pg/pg.go.

  The three tables are fields that the methods reassign. A transaction is a local copy of
  them; it reaches the fields only at its commit, so an early return publishes nothing.
  Failures of the database or the connection are parameters.
 */
module Pg {
  import opened Batches
  import opened Money
  import opened Tables
  import opened Wrappers

  class PgStore {
    var orders: map<nat, OrderRow>
    var balances: map<nat, BalanceRow>
    var withdrawals: map<nat, WithdrawalRow>
    const limitBatch: nat

    function Contents(): Db
      reads this
    {
      Db(orders, balances, withdrawals)
    }

    constructor (limitBatch: nat)
      ensures orders == map[] && balances == map[] && withdrawals == map[] && this.limitBatch == limitBatch
    {
      this.limitBatch := limitBatch;
      orders, balances, withdrawals := map[], map[], map[];
    }

    method Publish(tx: Db)
      modifies this
      ensures Contents() == tx
    {
      orders, balances, withdrawals := tx.orders, tx.balances, tx.withdrawals;
    }

    method InsertOrder(o: Order, fails: bool) returns (r: Outcome)
      modifies this
      ensures r == Ok <==> !fails && Storable(o) && o.orderId !in old(orders)
      ensures r == AlreadyExists <==> !fails && Storable(o) && o.orderId in old(orders)
      ensures r == Failed <==> fails || !Storable(o)
      ensures r == Ok ==>
                && orders == old(orders)[o.orderId := OrderRow(o.userId, o.status, Cents(o.accrual))]
                && balances == old(balances) && withdrawals == old(withdrawals)
      ensures r != Ok ==> Contents() == old(Contents())
    {
      if fails {
        return Failed;
      }
      var (tx, outcome) := InsertOrderRow(Contents(), o);
      Publish(tx);
      r := outcome;
    }

    /** Either everything the withdrawal does becomes visible, or nothing. */
    method InsertWithdraw(w: Withdraw, fault: Fault) returns (r: Outcome)
      modifies this
      ensures (Contents(), r)
           == FinishWithdraw(old(Contents()), w, SeenBalance(old(Contents()), w.userId, fault), fault)
      ensures r != Ok ==> Contents() == old(Contents())
      ensures r == NotEnough <==>
                !fault.AtBegin?
                && if fault.AtSelect? || w.userId !in old(balances) then w.sum > 0.0
                   else w.sum > old(balances)[w.userId].current as real / 100.0
      ensures r == Ok ==>
                && w.orderId !in old(withdrawals)
                && withdrawals == old(withdrawals)[w.orderId := WithdrawalRow(w.userId, Cents(w.sum))]
                && orders == old(orders)
                && Bal(Contents(), w.userId).withdrawn == Bal(old(Contents()), w.userId).withdrawn + Cents(w.sum)
                && forall user :: user != w.userId ==> Bal(Contents(), user) == Bal(old(Contents()), user)
    {
      if fault.AtBegin? {
        return Failed;
      }
      var tx := Contents();
      var seen := SeenBalance(tx, w.userId, fault);
      if Amount(seen) < w.sum {
        return NotEnough;
      }
      if fault.AtSelect? || fault.AtDebit? {
        return Failed;
      }
      var debited := DebitCents(tx, w.userId, Cents(w.sum));
      if debited.None? {
        return Failed;
      }
      tx := debited.value;
      if fault.AtInsert? {
        return Failed;
      }
      var (inserted, outcome) := InsertWithdrawalRow(tx, w);
      tx := inserted;
      if outcome != Ok {
        return outcome;
      }
      if fault.AtCommit? {
        return Failed;
      }
      Publish(tx);
      r := Ok;
    }

    /** All the updates of a chunk, then all its credits. */
    method QueueChunk(chunk: seq<Order>) returns (batch: seq<Statement>)
      ensures batch == Sets(chunk) + Credits(chunk)
    {
      batch := [];
      for i := 0 to |chunk|
        invariant batch == Sets(chunk)[..i]
      {
        batch := batch + [SetOrder(chunk[i])];
      }
      for i := 0 to |chunk|
        invariant batch == Sets(chunk) + Credits(chunk)[..i]
      {
        QueueNext(chunk, i);
        batch := batch + [Credit(chunk[i])];
      }
    }

    /** The chunked batch posts the orders exactly as posting them one by one would, whatever
        the limit, or it fails and changes nothing. `faultAt` holds the positions whose
        statements the connection loses. */
    method UpdateOrdersBalancesBatch(es: seq<Order>, faultAt: set<nat>, beginFails: bool, commitFails: bool)
      returns (r: Outcome)
      modifies this
      ensures r == Ok <==>
                && !beginFails && !commitFails
                && PostAll(old(Contents()), es).Some?
                && (forall i :: 0 <= i < |es| ==> i !in faultAt)
      ensures r == Ok ==> Contents() == PostAll(old(Contents()), es).value
      ensures r != Ok ==> r == Failed && Contents() == old(Contents())
    {
      if beginFails {
        return Failed;
      }
      var tx := Contents();
      var indexLimit: nat;
      if limitBatch != 0 && |es| > limitBatch {
        indexLimit := limitBatch;
      } else {
        indexLimit := |es|;
      }
      var index: nat := 0;
      while index < |es|
        invariant index <= |es| && (index < |es| ==> indexLimit > 0)
        invariant PostAll(Contents(), es[..index]) == Some(tx)
        invariant forall i :: 0 <= i < index ==> i !in faultAt
        invariant Contents() == old(Contents())
      {
        if index + indexLimit > |es| {
          indexLimit := |es| - index;
        }
        var batch := QueueChunk(es[index..index + indexLimit]);
        ChunkContinues(Contents(), es, index, indexLimit, tx);
        var sent := RunBatch(tx, batch);
        if sent.None? || exists i :: index <= i < index + indexLimit && i in faultAt {
          return Failed;
        }
        tx := sent.value;
        index := index + indexLimit;
      }
      assert es[..index] == es;
      if commitFails {
        return Failed;
      }
      Publish(tx);
      r := Ok;
    }

    /** The query returns its rows in an order the model leaves open. */
    method GetOrdersForProcessing() returns (es: seq<Order>)
      ensures PendingRows(Contents(), es)
      ensures forall e :: e in es <==>
                && e.orderId in orders
                && var row := orders[e.orderId];
                && (row.status == NEW || row.status == REGISTERED || row.status == PROCESSING)
                && e == Order(e.orderId, row.owner, row.status, row.accrual as real / 100.0)
      ensures forall i, j :: 0 <= i < j < |es| ==> es[i].orderId != es[j].orderId
    {
      es := [];
      var left := orders.Keys;
      while left != {}
        invariant left <= orders.Keys
        invariant forall i :: 0 <= i < |es| ==>
                    && es[i].orderId in orders && es[i].orderId !in left
                    && Pending(orders[es[i].orderId].status)
                    && es[i] == ReadOrder(es[i].orderId, orders[es[i].orderId])
        invariant DistinctIds(es)
        invariant forall id :: id in orders && id !in left && Pending(orders[id].status) ==>
                    ReadOrder(id, orders[id]) in es
        decreases left
      {
        var id :| id in left;
        left := left - {id};
        if Pending(orders[id].status) {
          es := es + [ReadOrder(id, orders[id])];
        }
      }
    }

    method GetOneOrder(id: nat, fails: bool) returns (r: Outcome, o: Order)
      ensures r == Ok <==> !fails && id in orders
      ensures r == Ok ==>
                o == Order(id, orders[id].owner, orders[id].status, orders[id].accrual as real / 100.0)
    {
      r, o := Failed, Order(0, 0, Garbled(""), 0.0);
      if !fails && id in orders {
        r, o := Ok, ReadOrder(id, orders[id]);
      }
    }

    method GetBalance(user: nat, fails: bool) returns (r: Outcome, row: BalanceRow)
      ensures r == if fails then Failed else if user in balances then Ok else RowNotFound
      ensures !fails ==> row == if user in balances then balances[user] else BalanceRow(0, 0)
    {
      r, row := Failed, BalanceRow(0, 0);
      if !fails {
        if user in balances {
          r, row := Ok, balances[user];
        } else {
          r := RowNotFound;
        }
      }
    }
  }
}
