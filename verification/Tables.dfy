/**
  The three tables of the loyalty ledger and the meaning of each SQL statement that
  internal/common/store/pg/pg.go runs against them.

  A statement is a function from tables to new tables, or to `None` when the database
  raises an error. A transaction works on its own copy and publishes it when it commits.
 */
module Tables {
  import opened Money
  import opened Wrappers

  /** The labels of the enum column; `Garbled` is any other text, which the column refuses. */
  datatype Status = NEW | REGISTERED | PROCESSING | INVALID | PROCESSED | Garbled(text: string)

  predicate Pending(s: Status) {
    s.NEW? || s.REGISTERED? || s.PROCESSING?
  }

  predicate Terminal(s: Status) {
    s.INVALID? || s.PROCESSED?
  }

  /** The service's own order record. */
  datatype Order = Order(orderId: nat, userId: nat, status: Status, accrual: real)

  predicate DistinctIds(es: seq<Order>) {
    forall i, j :: 0 <= i < j < |es| ==> es[i].orderId != es[j].orderId
  }

  datatype Withdraw = Withdraw(orderId: nat, userId: nat, sum: real)

  datatype OrderRow = OrderRow(owner: nat, status: Status, accrual: int)

  datatype BalanceRow = BalanceRow(current: int, withdrawn: int)

  datatype WithdrawalRow = WithdrawalRow(owner: nat, sum: int)

  datatype Db = Db(orders: map<nat, OrderRow>,
                   balances: map<nat, BalanceRow>,
                   withdrawals: map<nat, WithdrawalRow>)

  const EMPTY := Db(map[], map[], map[])

  /** What the writers report. `Failed` is any error without a name of its own. */
  datatype Outcome = Ok | NotEnough | AlreadyExists | RowNotFound | Failed

  const BIGINT_LIMIT: nat := 0x8000_0000_0000_0000

  predicate FitsBigint(id: nat) {
    id < BIGINT_LIMIT
  }

  /** Eight bytes, one bit of them the sign. */
  lemma {:induction false} BigintExact(id: nat)
    ensures FitsBigint(id) <==> id <= 9_223_372_036_854_775_807
  {
  }

  /** An order record every column accepts. */
  predicate Storable(o: Order) {
    FitsBigint(o.orderId) && FitsBigint(o.userId) && !o.status.Garbled? && FitsCell(Cents(o.accrual))
  }

  /** A user's balance row, a missing one counting as zero. */
  function Bal(t: Db, user: nat): BalanceRow {
    if user in t.balances then t.balances[user] else BalanceRow(0, 0)
  }

  /** INSERT INTO orders: refused for a key already there. */
  function InsertOrderRow(t: Db, o: Order): (Db, Outcome) {
    if !Storable(o) then
      (t, Failed)
    else if o.orderId in t.orders then
      (t, AlreadyExists)
    else
      (t.(orders := t.orders[o.orderId := OrderRow(o.userId, o.status, Cents(o.accrual))]), Ok)
  }

  /** UPDATE orders SET status, accrual: whatever the row's status was; no row, no effect. */
  function UpdateOrderRow(t: Db, e: Order): Option<Db> {
    if !FitsBigint(e.orderId) || e.status.Garbled? || !FitsCell(Cents(e.accrual)) then
      None
    else if e.orderId in t.orders then
      var row := t.orders[e.orderId].(status := e.status, accrual := Cents(e.accrual));
      Some(t.(orders := t.orders[e.orderId := row]))
    else
      Some(t)
  }

  function PutBalance(t: Db, user: nat, row: BalanceRow): Option<Db> {
    if FitsBigint(user) && FitsCell(row.current) && FitsCell(row.withdrawn) then
      Some(t.(balances := t.balances[user := row]))
    else
      None
  }

  /** The crediting upsert, for an amount already rounded to its cell. */
  function CreditCents(t: Db, user: nat, c: int): Option<Db> {
    if !FitsCell(c) then None
    else if user in t.balances then
      PutBalance(t, user, BalanceRow(t.balances[user].current + c, t.balances[user].withdrawn))
    else
      PutBalance(t, user, BalanceRow(c, 0))
  }

  /** The debiting upsert. Its INSERT branch stores +sum in both columns; only its UPDATE
      branch subtracts. */
  function DebitCents(t: Db, user: nat, c: int): Option<Db> {
    if !FitsCell(c) then None
    else if user in t.balances then
      PutBalance(t, user, BalanceRow(t.balances[user].current - c, t.balances[user].withdrawn + c))
    else
      PutBalance(t, user, BalanceRow(c, c))
  }

  /** INSERT INTO withdrawals, whose key is the order number alone. */
  function InsertWithdrawalRow(t: Db, w: Withdraw): (Db, Outcome) {
    if !FitsBigint(w.orderId) || !FitsBigint(w.userId) || !FitsCell(Cents(w.sum)) then
      (t, Failed)
    else if w.orderId in t.withdrawals then
      (t, AlreadyExists)
    else
      (t.(withdrawals := t.withdrawals[w.orderId := WithdrawalRow(w.userId, Cents(w.sum))]), Ok)
  }

  // ---------------------------------------------------------------- withdrawal

  /** The statement at which the database or the connection fails a withdrawal, if any. */
  datatype Fault = NoFault | AtBegin | AtSelect | AtDebit | AtInsert | AtCommit

  /** The balance the guard sees: a failed or empty read counts as zero. */
  function SeenBalance(t: Db, user: nat, fault: Fault): int {
    if fault.AtSelect? then 0 else Bal(t, user).current
  }

  /** The statements after the read. `seen` is the balance read earlier; the tables may have
      changed since. A failed read has also poisoned the transaction. */
  function FinishWithdraw(t: Db, w: Withdraw, seen: int, fault: Fault): (Db, Outcome) {
    if fault.AtBegin? then (t, Failed)
    else if Amount(seen) < w.sum then (t, NotEnough)
    else if fault.AtSelect? || fault.AtDebit? then (t, Failed)
    else
      match DebitCents(t, w.userId, Cents(w.sum))
      case None => (t, Failed)
      case Some(debited) =>
        if fault.AtInsert? then (t, Failed)
        else
          var (inserted, outcome) := InsertWithdrawalRow(debited, w);
          if outcome != Ok then (t, outcome)
          else if fault.AtCommit? then (t, Failed)
          else (inserted, Ok)
  }

  // ---------------------------------------------------------------- batch

  datatype Statement = SetOrder(order: Order) | Credit(order: Order)

  function RunStatement(t: Db, s: Statement): Option<Db> {
    match s
    case SetOrder(e) => UpdateOrderRow(t, e)
    case Credit(e) => CreditCents(t, e.userId, Cents(e.accrual))
  }

  /** A queued batch, run in order up to the first error. */
  function RunBatch(t: Db, batch: seq<Statement>): Option<Db>
    decreases |batch|
  {
    if batch == [] then Some(t)
    else
      match RunStatement(t, batch[0])
      case None => None
      case Some(t') => RunBatch(t', batch[1..])
  }

  /** One order posted on its own: its row, then its owner's balance. */
  function Post(t: Db, e: Order): Option<Db> {
    match UpdateOrderRow(t, e)
    case None => None
    case Some(t') => CreditCents(t', e.userId, Cents(e.accrual))
  }

  /** The simple form of the batch: order by order. */
  function PostAll(t: Db, es: seq<Order>): Option<Db>
    decreases |es|
  {
    if es == [] then Some(t)
    else
      match Post(t, es[0])
      case None => None
      case Some(t') => PostAll(t', es[1..])
  }

  // ---------------------------------------------------------------- reads

  function ReadOrder(id: nat, row: OrderRow): Order {
    Order(id, row.owner, row.status, Amount(row.accrual))
  }

  /** es lists every row still to be processed, once each, in some order. */
  ghost predicate PendingRows(t: Db, es: seq<Order>) {
    && (forall i :: 0 <= i < |es| ==>
          && es[i].orderId in t.orders
          && Pending(t.orders[es[i].orderId].status)
          && es[i] == ReadOrder(es[i].orderId, t.orders[es[i].orderId]))
    && DistinctIds(es)
    && (forall id :: id in t.orders && Pending(t.orders[id].status) ==> ReadOrder(id, t.orders[id]) in es)
  }
}
