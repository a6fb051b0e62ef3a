/**
  The running system: user requests of internal/gophermart/service/service.go interleaved
  with one poller, internal/gophermart/accrual/accrual.go, over the tables of
  internal/common/store/pg/pg.go.

  An event is one step that the database or a channel makes atomic. A withdrawal reads the
  balance in one step and writes in another; a poll cycle reads the pending orders, gets its
  answers and commits its batch in three; a duplicate registration looks up the owner later.
  Anything may happen in between.
 */
module Ledger {
  import opened Accounting
  import opened Luhn
  import opened Money
  import opened Tables

  datatype Verdict = Accepted | AlreadyLoaded | OtherUser | InternalError

  /** What a user was told about an order number. */
  datatype Answer = Answer(orderId: nat, userId: nat, verdict: Verdict)

  /** An amount a batch added to a user's balance on behalf of an order. */
  datatype Payment = Payment(orderId: nat, userId: nat, cents: int)

  /** A withdrawal between its read and its write. */
  datatype Request = Request(w: Withdraw, seen: int, fault: Fault)

  datatype Lookup = Lookup(orderId: nat, userId: nat)

  datatype Cycle = Idle | Polled(orders: seq<Order>) | Ready(updOrders: seq<Order>)

  /** `answers` and `payments` only record what has happened. */
  datatype State = State(
    db: Db,
    cycle: Cycle,
    requests: map<nat, Request>,
    lookups: map<nat, Lookup>,
    answers: seq<Answer>,
    payments: seq<Payment>)

  const INIT := State(EMPTY, Idle, map[], map[], [], [])

  datatype Event =
    | Register(ticket: nat, userId: nat, orderId: nat, fails: bool)
    | LookupOwner(ticket: nat, fails: bool)
    | BeginWithdraw(ticket: nat, w: Withdraw, fault: Fault)
    | EndWithdraw(ticket: nat)
    | Poll(orders: seq<Order>)
    | Reply(resOrders: map<nat, Order>)
    | CommitBatch(fails: bool)
    | AbandonCycle

  /** The answer about an order, if there is one and its status is new. */
  function Kept(o: Order, resOrders: map<nat, Order>): seq<Order> {
    if o.orderId in resOrders && o.status != resOrders[o.orderId].status then [resOrders[o.orderId]] else []
  }

  /** The changed-status filter of a poll cycle. */
  function Changed(orders: seq<Order>, resOrders: map<nat, Order>): seq<Order> {
    if orders == [] then [] else Kept(orders[0], resOrders) + Changed(orders[1..], resOrders)
  }

  /** The answers concern polled orders, under their own number and owner. */
  ghost predicate AnswersFor(orders: seq<Order>, resOrders: map<nat, Order>) {
    forall id :: id in resOrders ==>
      exists i :: 0 <= i < |orders| && orders[i].orderId == id
                  && resOrders[id].orderId == id && resOrders[id].userId == orders[i].userId
  }

  ghost predicate Enabled(s: State, e: Event) {
    match e
    case Register(ticket, _, orderId, _) => ticket !in s.lookups && ValidNumber(orderId)
    case LookupOwner(ticket, _) => ticket in s.lookups
    case BeginWithdraw(ticket, w, _) => ticket !in s.requests && ValidNumber(w.orderId)
    case EndWithdraw(ticket) => ticket in s.requests
    case Poll(orders) => s.cycle.Idle? && PendingRows(s.db, orders)
    case Reply(resOrders) => s.cycle.Polled? && AnswersFor(s.cycle.orders, resOrders)
    case CommitBatch(_) => s.cycle.Ready?
    case AbandonCycle => true
  }

  function PaymentsOf(es: seq<Order>): seq<Payment> {
    seq(|es|, i requires 0 <= i < |es| => Payment(es[i].orderId, es[i].userId, Cents(es[i].accrual)))
  }

  /** The verdict of the owner lookup that follows a duplicate key. */
  function OwnerVerdict(t: Db, orderId: nat, userId: nat, fails: bool): Verdict {
    if fails || orderId !in t.orders then InternalError
    else if t.orders[orderId].owner != userId then OtherUser
    else AlreadyLoaded
  }

  function NewOrder(orderId: nat, userId: nat): Order {
    Order(orderId, userId, NEW, 0.0)
  }

  function Step(s: State, e: Event): State
    requires Enabled(s, e)
  {
    match e
    case Register(ticket, userId, orderId, fails) =>
      var (db, outcome) := if fails then (s.db, Failed) else InsertOrderRow(s.db, NewOrder(orderId, userId));
      if outcome == AlreadyExists then
        s.(db := db, lookups := s.lookups[ticket := Lookup(orderId, userId)])
      else
        var verdict := if outcome == Ok then Accepted else InternalError;
        s.(db := db, answers := s.answers + [Answer(orderId, userId, verdict)])
    case LookupOwner(ticket, fails) =>
      var l := s.lookups[ticket];
      s.(lookups := s.lookups - {ticket},
         answers := s.answers + [Answer(l.orderId, l.userId, OwnerVerdict(s.db, l.orderId, l.userId, fails))])
    case BeginWithdraw(ticket, w, fault) =>
      s.(requests := s.requests[ticket := Request(w, SeenBalance(s.db, w.userId, fault), fault)])
    case EndWithdraw(ticket) =>
      var r := s.requests[ticket];
      s.(db := FinishWithdraw(s.db, r.w, r.seen, r.fault).0, requests := s.requests - {ticket})
    case Poll(orders) =>
      s.(cycle := Polled(orders))
    case Reply(resOrders) =>
      s.(cycle := Ready(Changed(s.cycle.orders, resOrders)))
    case CommitBatch(fails) =>
      var posted := PostAll(s.db, s.cycle.updOrders);
      if fails || posted.None? then s.(cycle := Idle)
      else s.(db := posted.value, cycle := Idle, payments := s.payments + PaymentsOf(s.cycle.updOrders))
    case AbandonCycle =>
      s.(cycle := Idle)
  }

  ghost predicate Run(states: seq<State>, events: seq<Event>) {
    && |states| == |events| + 1
    && states[0] == INIT
    && forall i :: 0 <= i < |events| ==> Enabled(states[i], events[i]) && states[i + 1] == Step(states[i], events[i])
  }

  // ---------------------------------------------------------------- who waits for what

  ghost function Largest(xs: set<nat>): (m: nat)
    ensures forall x :: x in xs ==> x <= m
    ensures if xs == {} then m == 0 else m in xs
  {
    if xs == {} then 0
    else
      var x :| x in xs;
      var rest := Largest(xs - {x});
      assert xs == {x} + (xs - {x});
      if x < rest then rest else x
  }

  /** Requests wait for nobody: in any state any user may register any Luhn-valid number and
      start any withdrawal for one, and whatever is open may go on. */
  lemma {:induction false} RequestsNeverWait(s: State, userId: nat, orderId: nat, w: Withdraw) returns (ticket: nat)
    requires ValidNumber(orderId) && ValidNumber(w.orderId)
    ensures ticket !in s.requests && ticket !in s.lookups
    ensures forall fails :: Enabled(s, Register(ticket, userId, orderId, fails))
    ensures forall fault :: Enabled(s, BeginWithdraw(ticket, w, fault))
    ensures forall open :: open in s.requests ==> Enabled(s, EndWithdraw(open))
    ensures forall open, fails :: open in s.lookups ==> Enabled(s, LookupOwner(open, fails))
  {
    ticket := Largest(s.requests.Keys + s.lookups.Keys) + 1;
    assert forall open :: open in s.requests || open in s.lookups ==> open in s.requests.Keys + s.lookups.Keys;
  }

  lemma {:induction false} ListPending(t: Db) returns (orders: seq<Order>)
    ensures PendingRows(t, orders)
  {
    orders := [];
    var left := t.orders.Keys;
    while left != {}
      invariant left <= t.orders.Keys
      invariant forall i :: 0 <= i < |orders| ==>
                  && orders[i].orderId in t.orders && orders[i].orderId !in left
                  && Pending(t.orders[orders[i].orderId].status)
                  && orders[i] == ReadOrder(orders[i].orderId, t.orders[orders[i].orderId])
      invariant DistinctIds(orders)
      invariant forall id :: id in t.orders && id !in left && Pending(t.orders[id].status) ==>
                  ReadOrder(id, t.orders[id]) in orders
      decreases left
    {
      var id :| id in left;
      left := left - {id};
      if Pending(t.orders[id].status) {
        orders := orders + [ReadOrder(id, t.orders[id])];
      }
    }
  }

  /** Nor does the poller: from any point of its cycle it can go on, or give the cycle up and
      start the next. */
  lemma {:induction false} PollerNeverWaits(s: State)
    ensures s.cycle.Idle? ==> exists orders :: Enabled(s, Poll(orders))
    ensures s.cycle.Polled? ==> Enabled(s, Reply(map[]))
    ensures s.cycle.Ready? ==>
              forall fails :: Enabled(s, CommitBatch(fails)) && Step(s, CommitBatch(fails)).cycle.Idle?
    ensures Enabled(s, AbandonCycle) && Step(s, AbandonCycle) == s.(cycle := Idle)
  {
    if s.cycle.Idle? {
      var orders := ListPending(s.db);
      assert Enabled(s, Poll(orders));
    }
  }

  /** Every run starts from empty tables. */
  lemma {:induction false} RunsStartEmpty(states: seq<State>, events: seq<Event>)
    requires Run(states, events)
    ensures states[0] == State(Db(map[], map[], map[]), Idle, map[], map[], [], [])
  {
  }

  // ---------------------------------------------------------------- requests left alone

  function Fresh(t: Db): State {
    INIT.(db := t)
  }

  /** One registration with nothing in between: the insert and, after a duplicate, the lookup. */
  ghost function RegisterAlone(t: Db, userId: nat, orderId: nat, insertFails: bool, lookupFails: bool): State
    requires ValidNumber(orderId)
  {
    var s := Step(Fresh(t), Register(0, userId, orderId, insertFails));
    if 0 in s.lookups then Step(s, LookupOwner(0, lookupFails)) else s
  }

  lemma {:induction false} RegisterAloneAnswers(t: Db, userId: nat, orderId: nat, insertFails: bool, lookupFails: bool)
    requires ValidNumber(orderId)
    ensures var alone := RegisterAlone(t, userId, orderId, insertFails, lookupFails);
            var (db, outcome) := if insertFails then (t, Failed) else InsertOrderRow(t, NewOrder(orderId, userId));
            && alone.db == db
            && alone.answers == [Answer(orderId, userId,
                                        if outcome == Ok then Accepted
                                        else if outcome == AlreadyExists then
                                          OwnerVerdict(db, orderId, userId, lookupFails)
                                        else InternalError)]
  {
    var s := Step(Fresh(t), Register(0, userId, orderId, insertFails));
    assert 0 in s.lookups ==> s.lookups[0] == Lookup(orderId, userId);
  }

  /** One withdrawal with nothing in between its read and its write. */
  ghost function WithdrawAlone(t: Db, w: Withdraw, fault: Fault): State
    requires ValidNumber(w.orderId)
  {
    Step(Step(Fresh(t), BeginWithdraw(0, w, fault)), EndWithdraw(0))
  }

  lemma {:induction false} WithdrawAloneFinishes(t: Db, w: Withdraw, fault: Fault)
    requires ValidNumber(w.orderId)
    ensures WithdrawAlone(t, w, fault).db == FinishWithdraw(t, w, SeenBalance(t, w.userId, fault), fault).0
  {
  }

  /** One poll cycle with nothing in between. */
  ghost function CycleAlone(t: Db, orders: seq<Order>, resOrders: map<nat, Order>): State
    requires PendingRows(t, orders) && AnswersFor(orders, resOrders)
  {
    Step(Step(Step(Fresh(t), Poll(orders)), Reply(resOrders)), CommitBatch(false))
  }

  lemma {:induction false} CycleAlonePosts(t: Db, orders: seq<Order>, resOrders: map<nat, Order>)
    requires PendingRows(t, orders) && AnswersFor(orders, resOrders)
    ensures var posted := PostAll(t, Changed(orders, resOrders));
            CycleAlone(t, orders, resOrders).db == if posted.None? then t else posted.value
  {
  }

  // ---------------------------------------------------------------- assumptions

  /** What the accrual service promises about a well-formed reply: it never says NEW, and only
      PROCESSED comes with an accrual, which is not negative. */
  predicate Honest(o: Order) {
    !o.status.Garbled? ==> !o.status.NEW? && o.accrual >= 0.0 && (o.accrual != 0.0 ==> o.status.PROCESSED?)
  }

  /** The accrual service keeps its promise. */
  ghost predicate Truthful(e: Event) {
    e.Reply? ==> forall id :: id in e.resOrders ==> Honest(e.resOrders[id])
  }

  /** A user without a balance row asks for no negative amount. */
  predicate Permitted(s: State, e: Event) {
    e.BeginWithdraw? ==> Cents(e.w.sum) >= 0 || e.w.userId in s.db.balances
  }

  /** What the service's documentation shows: no accrual while an order is under way or after it
      was turned down, and an accrual that is not negative with PROCESSED. */
  lemma {:induction false} DocumentedRepliesHonest(o: Order)
    requires || (o.status == PROCESSED && o.accrual >= 0.0)
             || (o.accrual == 0.0 && (o.status == REGISTERED || o.status == PROCESSING || o.status == INVALID))
             || o.status.Garbled?
    ensures Honest(o)
  {
  }

  /** Withdrawing an amount that is not negative is always permitted. */
  lemma {:induction false} UsualWithdrawalPermitted(s: State, ticket: nat, w: Withdraw, fault: Fault)
    requires w.sum >= 0.0
    ensures Permitted(s, BeginWithdraw(ticket, w, fault))
  {
    CentsMonotone(0.0, w.sum);
    assert Cents(0.0) == 0;
  }

  ghost predicate TruthfulRun(states: seq<State>, events: seq<Event>) {
    Run(states, events) && forall i :: 0 <= i < |events| ==> Truthful(events[i])
  }

  ghost predicate PermittedRun(states: seq<State>, events: seq<Event>) {
    Run(states, events) && forall i :: 0 <= i < |events| ==> Permitted(states[i], events[i])
  }

  ghost predicate LawfulRun(states: seq<State>, events: seq<Event>) {
    TruthfulRun(states, events) && PermittedRun(states, events)
  }

  /** What an open withdrawal may still take. It takes nothing when the balance it saw does not
      cover it, when a fault strikes it, when a column refuses it or when its order number has
      been used. */
  function Claim(t: Db, r: Request): nat {
    if Amount(r.seen) < r.w.sum || Cents(r.w.sum) < 0 || !r.fault.NoFault? then 0
    else if !FitsBigint(r.w.orderId) || !FitsBigint(r.w.userId) || !FitsCell(Cents(r.w.sum)) then 0
    else if r.w.orderId in t.withdrawals then 0
    else Cents(r.w.sum)
  }

  /** The order numbers a user has open withdrawals for. */
  ghost function Numbers(s: State, user: nat): set<nat> {
    set ticket | ticket in s.requests && s.requests[ticket].w.userId == user :: s.requests[ticket].w.orderId
  }

  ghost function ClaimsOn(s: State, user: nat, number: nat): set<nat> {
    set ticket | ticket in s.requests && s.requests[ticket].w.userId == user && s.requests[ticket].w.orderId == number
      :: Claim(s.db, s.requests[ticket])
  }

  /** Of the open withdrawals for one order number only one can succeed, at worst the largest. */
  ghost function Dues(s: State, user: nat): map<nat, Entry> {
    map number | number in Numbers(s, user) :: Entry(user, Largest(ClaimsOn(s, user, number)))
  }

  /** What the open withdrawals of a user may still take together. */
  ghost function Exposure(s: State, user: nat): int {
    SumFor(Dues(s, user), user)
  }

  /** A user starts a withdrawal only when their balance covers it along with all their open ones. */
  ghost predicate Covered(s: State, e: Event)
    requires Enabled(s, e)
  {
    e.BeginWithdraw? ==> Exposure(Step(s, e), e.w.userId) <= Bal(s.db, e.w.userId).current
  }

  ghost predicate CoveredRun(states: seq<State>, events: seq<Event>) {
    LawfulRun(states, events) && forall i :: 0 <= i < |events| ==> Covered(states[i], events[i])
  }

  /** A user starts a withdrawal only when none of theirs is open. */
  ghost predicate Serial(s: State, e: Event) {
    e.BeginWithdraw? ==> forall ticket :: ticket in s.requests ==> s.requests[ticket].w.userId != e.w.userId
  }

  ghost predicate SerialRun(states: seq<State>, events: seq<Event>) {
    LawfulRun(states, events) && forall i :: 0 <= i < |events| ==> Serial(states[i], events[i])
  }
}
