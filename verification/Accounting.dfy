/**
  What the balances table is for: it caches what the other two tables imply.

  Per user, `AccrualDrift` and `WithdrawnDrift` measure how far the cache is from the
  history. Each writer is shown to move the drifts by an exact amount; agreement of cache
  and history is both drifts being zero.
 */
module Accounting {
  import opened Money
  import opened Tables

  // ---------------------------------------------------------------- sums over a table

  /** One line of a user's history. */
  datatype Entry = Entry(owner: nat, cents: int)

  ghost function EntryFor(e: Entry, user: nat): int {
    if e.owner == user then e.cents else 0
  }

  ghost function SumFor(m: map<nat, Entry>, user: nat): int
    decreases |m|
  {
    if m == map[] then 0
    else
      var k :| k in m;
      EntryFor(m[k], user) + SumFor(m - {k}, user)
  }

  lemma {:induction false} SumWithout(m: map<nat, Entry>, k: nat, user: nat)
    requires k in m
    ensures SumFor(m, user) == EntryFor(m[k], user) + SumFor(m - {k}, user)
    decreases |m|
  {
    var j :| j in m && SumFor(m, user) == EntryFor(m[j], user) + SumFor(m - {j}, user);
    if j != k {
      SumWithout(m - {j}, k, user);
      SumWithout(m - {k}, j, user);
      assert m - {j} - {k} == m - {k} - {j};
    }
  }

  /** Writing one line changes the sum by the new line less the old. */
  lemma {:induction false} SumWrite(m: map<nat, Entry>, k: nat, e: Entry, user: nat)
    ensures SumFor(m[k := e], user)
         == SumFor(m, user) + EntryFor(e, user) - if k in m then EntryFor(m[k], user) else 0
  {
    SumWithout(m[k := e], k, user);
    if k in m {
      SumWithout(m, k, user);
      assert m[k := e] - {k} == m - {k};
    } else {
      assert m[k := e] - {k} == m;
    }
  }

  ghost function Accruals(orders: map<nat, OrderRow>): map<nat, Entry> {
    map k | k in orders :: Entry(orders[k].owner, orders[k].accrual)
  }

  ghost function Withdrawals(rows: map<nat, WithdrawalRow>): map<nat, Entry> {
    map k | k in rows :: Entry(rows[k].owner, rows[k].sum)
  }

  // ---------------------------------------------------------------- drift

  ghost function AccrualDrift(t: Db, user: nat): int {
    Bal(t, user).current + Bal(t, user).withdrawn - SumFor(Accruals(t.orders), user)
  }

  ghost function WithdrawnDrift(t: Db, user: nat): int {
    Bal(t, user).withdrawn - SumFor(Withdrawals(t.withdrawals), user)
  }

  /** Cache and history agree for every user. */
  ghost predicate Agrees(t: Db) {
    forall user: nat :: AccrualDrift(t, user) == 0 && WithdrawnDrift(t, user) == 0
  }

  lemma {:induction false} EmptyAgrees()
    ensures Agrees(EMPTY)
  {
    assert Accruals(EMPTY.orders) == map[] && Withdrawals(EMPTY.withdrawals) == map[];
  }

  lemma {:induction false} WriteOrderDrift(t: Db, id: nat, row: OrderRow, user: nat)
    ensures var t' := t.(orders := t.orders[id := row]);
            && AccrualDrift(t', user) == AccrualDrift(t, user)
                 - (if row.owner == user then row.accrual else 0)
                 + (if id in t.orders && t.orders[id].owner == user then t.orders[id].accrual else 0)
            && WithdrawnDrift(t', user) == WithdrawnDrift(t, user)
  {
    SumWrite(Accruals(t.orders), id, Entry(row.owner, row.accrual), user);
    assert Accruals(t.orders[id := row]) == Accruals(t.orders)[id := Entry(row.owner, row.accrual)];
  }

  /** A new order, which carries no accrual, leaves every drift alone. */
  lemma {:induction false} InsertOrderDrift(t: Db, o: Order, user: nat)
    requires Cents(o.accrual) == 0
    ensures AccrualDrift(InsertOrderRow(t, o).0, user) == AccrualDrift(t, user)
    ensures WithdrawnDrift(InsertOrderRow(t, o).0, user) == WithdrawnDrift(t, user)
  {
    WriteOrderDrift(t, o.orderId, OrderRow(o.userId, o.status, Cents(o.accrual)), user);
  }

  // ---------------------------------------------------------------- withdrawal

  /** A withdrawal that succeeds shifts the accrual drift of its user by twice the amount
      when it had to create the balance row, and shifts nothing otherwise. */
  lemma {:induction false} WithdrawDrift(t: Db, w: Withdraw, seen: int, fault: Fault, user: nat)
    requires FinishWithdraw(t, w, seen, fault).1 == Ok
    ensures var t' := FinishWithdraw(t, w, seen, fault).0;
            && AccrualDrift(t', user) == AccrualDrift(t, user)
                 + (if user == w.userId && w.userId !in t.balances then 2 * Cents(w.sum) else 0)
            && WithdrawnDrift(t', user) == WithdrawnDrift(t, user)
  {
    var c := Cents(w.sum);
    var row := WithdrawalRow(w.userId, c);
    SumWrite(Withdrawals(t.withdrawals), w.orderId, Entry(w.userId, c), user);
    assert Withdrawals(t.withdrawals[w.orderId := row])
        == Withdrawals(t.withdrawals)[w.orderId := Entry(w.userId, c)];
  }

  /** A successful withdrawal keeps cache and history in agreement exactly when its user
      already has a balance row or its amount rounds to zero. */
  lemma {:induction false} WithdrawAgreementExact(t: Db, w: Withdraw, seen: int, fault: Fault)
    requires Agrees(t) && FinishWithdraw(t, w, seen, fault).1 == Ok
    ensures Agrees(FinishWithdraw(t, w, seen, fault).0)
       <==> w.userId in t.balances || Cents(w.sum) == 0
  {
    var t' := FinishWithdraw(t, w, seen, fault).0;
    forall user: nat
      ensures AccrualDrift(t', user) == if user == w.userId && w.userId !in t.balances then 2 * Cents(w.sum) else 0
      ensures WithdrawnDrift(t', user) == 0
    {
      WithdrawDrift(t, w, seen, fault, user);
      assert AccrualDrift(t, user) == 0;
    }
    assert AccrualDrift(t', w.userId) == if w.userId !in t.balances then 2 * Cents(w.sum) else 0;
  }

  /** The guard admits a user without a row only for amounts that are not positive, so for
      the amounts the service is meant to receive the row-creating branch writes zeros. */
  lemma {:induction false} GuardForcesZero(t: Db, w: Withdraw, fault: Fault)
    requires w.sum >= 0.0 && w.userId !in t.balances
    requires FinishWithdraw(t, w, SeenBalance(t, w.userId, fault), fault).1 == Ok
    ensures w.sum == 0.0 && FinishWithdraw(t, w, SeenBalance(t, w.userId, fault), fault).0.balances
         == t.balances[w.userId := BalanceRow(0, 0)]
  {
  }

  /** Every stored amount is one its cell can hold. */
  predicate CellsFit(t: Db) {
    forall user :: user in t.balances ==> FitsCell(t.balances[user].current) && FitsCell(t.balances[user].withdrawn)
  }

  /** When a withdrawal that reads and writes in one go succeeds, and when it is told that its
      order number has been used; an amount that is not negative and passes the guard never
      takes the balance out of its cell. */
  lemma {:induction false} WithdrawOutcomeExact(t: Db, w: Withdraw, fault: Fault)
    ensures var row, c := Bal(t, w.userId), Cents(w.sum);
            var outcome := FinishWithdraw(t, w, SeenBalance(t, w.userId, fault), fault).1;
            var debits := w.sum <= Amount(row.current) && FitsBigint(w.userId) && FitsCell(c)
                          && (w.userId in t.balances ==> FitsCell(row.current - c) && FitsCell(row.withdrawn + c));
            && (outcome == Ok <==> fault.NoFault? && debits && FitsBigint(w.orderId) && w.orderId !in t.withdrawals)
            && (outcome == AlreadyExists <==>
                  (fault.NoFault? || fault.AtCommit?) && debits && FitsBigint(w.orderId) && w.orderId in t.withdrawals)
    ensures CellsFit(t) && 0.0 <= w.sum <= Amount(Bal(t, w.userId).current) ==>
              FitsCell(Cents(w.sum)) && FitsCell(Bal(t, w.userId).current - Cents(w.sum))
  {
    assert Cents(0.0) == 0 && Amount(0) == 0.0;
    if 0.0 <= w.sum <= Amount(Bal(t, w.userId).current) {
      CentsMonotone(0.0, w.sum);
      GuardCoversRounding(w.sum, Bal(t, w.userId).current);
    }
  }

  /** Nothing in the code refuses a negative amount: for a user without a row it is accepted
      and leaves a balance of minus one cent, withdrawn included, with no accrual behind it. */
  lemma {:induction false} NegativeWithdrawalBreaksAgreement()
    ensures var w := Withdraw(0, 7, -0.01);
            var (t', outcome) := FinishWithdraw(EMPTY, w, SeenBalance(EMPTY, 7, NoFault), NoFault);
            && outcome == Ok && Agrees(EMPTY) && !Agrees(t')
            && t'.balances[7] == BalanceRow(-1, -1)
  {
    EmptyAgrees();
    assert Cents(-0.01) == -1;
    WithdrawAgreementExact(EMPTY, Withdraw(0, 7, -0.01), 0, NoFault);
  }

  // ---------------------------------------------------------------- batch

  /** What posting an entry moves the drift of a user by: the accrual it overwrites. */
  ghost function Overwritten(t: Db, e: Order, user: nat): int {
    if e.orderId in t.orders && e.userId == user then t.orders[e.orderId].accrual else 0
  }

  ghost function OverwrittenBy(t: Db, es: seq<Order>, user: nat): int {
    if es == [] then 0 else Overwritten(t, es[0], user) + OverwrittenBy(t, es[1..], user)
  }

  /** Every entry names an order of the table and its registered owner. */
  predicate OwnRows(t: Db, es: seq<Order>) {
    forall i :: 0 <= i < |es| ==> es[i].orderId in t.orders && t.orders[es[i].orderId].owner == es[i].userId
  }

  lemma {:induction false} PostDrift(t: Db, e: Order, user: nat)
    requires e.orderId in t.orders && t.orders[e.orderId].owner == e.userId
    requires Post(t, e).Some?
    ensures AccrualDrift(Post(t, e).value, user) == AccrualDrift(t, user) + Overwritten(t, e, user)
    ensures WithdrawnDrift(Post(t, e).value, user) == WithdrawnDrift(t, user)
  {
    WriteOrderDrift(t, e.orderId, t.orders[e.orderId].(status := e.status, accrual := Cents(e.accrual)), user);
  }

  lemma {:induction false} OverwrittenFrame(t: Db, t': Db, es: seq<Order>, user: nat)
    requires forall i :: 0 <= i < |es| ==>
               && (es[i].orderId in t.orders <==> es[i].orderId in t'.orders)
               && (es[i].orderId in t.orders ==> t.orders[es[i].orderId] == t'.orders[es[i].orderId])
    ensures OverwrittenBy(t, es, user) == OverwrittenBy(t', es, user)
  {
    if es == [] {
    } else {
      OverwrittenFrame(t, t', es[1..], user);
    }
  }

  /** A batch of distinct orders moves each user's accrual drift by exactly the accruals it
      overwrites: the status of a row is no guard, and every credit is unconditional. */
  lemma {:induction false} BatchDrift(t: Db, es: seq<Order>, user: nat)
    requires DistinctIds(es) && OwnRows(t, es) && PostAll(t, es).Some?
    ensures AccrualDrift(PostAll(t, es).value, user) == AccrualDrift(t, user) + OverwrittenBy(t, es, user)
    ensures WithdrawnDrift(PostAll(t, es).value, user) == WithdrawnDrift(t, user)
    decreases |es|
  {
    if es == [] {
    } else {
      var t' := Post(t, es[0]).value;
      PostDrift(t, es[0], user);
      BatchDrift(t', es[1..], user);
      OverwrittenFrame(t, t', es[1..], user);
    }
  }

  /** A batch keeps cache and history in agreement exactly when, for every user, the accruals
      it overwrites add up to zero. */
  lemma {:induction false} BatchAgreementExact(t: Db, es: seq<Order>)
    requires Agrees(t) && DistinctIds(es) && OwnRows(t, es) && PostAll(t, es).Some?
    ensures Agrees(PostAll(t, es).value) <==> forall user: nat :: OverwrittenBy(t, es, user) == 0
  {
    var t' := PostAll(t, es).value;
    forall user: nat
      ensures AccrualDrift(t', user) == OverwrittenBy(t, es, user) && WithdrawnDrift(t', user) == 0
    {
      BatchDrift(t, es, user);
      assert AccrualDrift(t, user) == 0;
    }
    if Agrees(t') {
      forall user: nat
        ensures OverwrittenBy(t, es, user) == 0
      {
        assert AccrualDrift(t', user) == 0;
      }
    } else {
      var user: nat :| !(AccrualDrift(t', user) == 0 && WithdrawnDrift(t', user) == 0);
      assert OverwrittenBy(t, es, user) != 0;
    }
  }

  lemma {:induction false} PostOne(t: Db, e: Order)
    ensures PostAll(t, [e]) == Post(t, e)
  {
    if Post(t, e).Some? {
      assert PostAll(Post(t, e).value, []) == Post(t, e);
    }
  }

  /** Two pollers that both read an order before either posts it credit it twice. */
  lemma {:induction false} TwoPollersCreditTwice()
    ensures var t := Db(map[0 := OrderRow(7, NEW, 0)], map[], map[]);
            var es := [Order(0, 7, PROCESSED, 5.0)];
            && PostAll(t, es).Some? && PostAll(PostAll(t, es).value, es).Some?
            && var t2 := PostAll(PostAll(t, es).value, es).value;
            t2.orders[0].accrual == 500 && t2.balances[7].current == 1000
  {
    assert Cents(5.0) == 500;
    var t := Db(map[0 := OrderRow(7, NEW, 0)], map[], map[]);
    var e := Order(0, 7, PROCESSED, 5.0);
    PostOne(t, e);
    PostOne(Post(t, e).value, e);
  }
}
