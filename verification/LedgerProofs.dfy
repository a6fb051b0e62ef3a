/** What holds of every run of the system. */
module LedgerProofs {
  import opened Accounting
  import opened Batches
  import opened Ledger
  import opened Luhn
  import opened Money
  import opened Tables
  import opened Wrappers

  // ---------------------------------------------------------------- the shape of a state

  /** The rows a cycle works on are still as it read them. */
  ghost predicate SnapshotHolds(t: Db, es: seq<Order>) {
    && DistinctIds(es) && OwnRows(t, es)
    && forall i :: 0 <= i < |es| ==>
         Pending(t.orders[es[i].orderId].status) && es[i].status == t.orders[es[i].orderId].status
  }

  /** The updates of a cycle are about distinct pending orders, under their owners, and each
      names another status than the row has. */
  ghost predicate UpdatesFit(t: Db, es: seq<Order>) {
    && DistinctIds(es) && OwnRows(t, es)
    && forall i :: 0 <= i < |es| ==>
         Pending(t.orders[es[i].orderId].status) && es[i].status != t.orders[es[i].orderId].status
  }

  ghost predicate CycleFits(s: State) {
    match s.cycle
    case Idle => true
    case Polled(orders) => SnapshotHolds(s.db, orders)
    case Ready(updOrders) => UpdatesFit(s.db, updOrders)
  }

  /** Every order number that got in is Luhn-valid, and every status one the column knows. */
  ghost predicate Numbered(s: State) {
    && (forall id :: id in s.db.orders ==> ValidNumber(id) && !s.db.orders[id].status.Garbled?)
    && (forall id :: id in s.db.withdrawals ==> ValidNumber(id))
    && (forall ticket :: ticket in s.requests ==> ValidNumber(s.requests[ticket].w.orderId))
  }

  /** The verdicts given so far are right about who owns what, and nobody was accepted twice. */
  ghost predicate VerdictsRight(s: State) {
    && (forall ticket :: ticket in s.lookups ==> s.lookups[ticket].orderId in s.db.orders)
    && (forall i :: 0 <= i < |s.answers| && !s.answers[i].verdict.InternalError? ==>
          && s.answers[i].orderId in s.db.orders
          && (s.db.orders[s.answers[i].orderId].owner == s.answers[i].userId <==> !s.answers[i].verdict.OtherUser?))
    && (forall i, j :: 0 <= i < j < |s.answers| && s.answers[i].verdict.Accepted? && s.answers[j].verdict.Accepted? ==>
          s.answers[i].orderId != s.answers[j].orderId)
  }

  ghost predicate AcceptedBefore(answers: seq<Answer>, n: nat, orderId: nat)
    requires n <= |answers|
  {
    exists i :: 0 <= i < n && answers[i].orderId == orderId && answers[i].verdict.Accepted?
  }

  /** Every stored order was accepted once, before anybody was told it is already loaded. */
  ghost predicate AcceptedFirst(s: State) {
    && (forall id :: id in s.db.orders ==> AcceptedBefore(s.answers, |s.answers|, id))
    && (forall j :: 0 <= j < |s.answers| && (s.answers[j].verdict.AlreadyLoaded? || s.answers[j].verdict.OtherUser?) ==>
          AcceptedBefore(s.answers, j, s.answers[j].orderId))
  }

  ghost predicate VerdictsFit(s: State) {
    VerdictsRight(s) && AcceptedFirst(s)
  }

  /** What holds whatever the users ask for and whatever the accrual service says. */
  ghost predicate Shape(s: State) {
    Numbered(s) && CycleFits(s) && VerdictsFit(s)
  }

  // ---------------------------------------------------------------- orders only grow

  /** How the order table moves: rows stay and keep their owner, and do not change at all once
      their status is terminal. */
  ghost predicate RowsKept(t: Db, u: Db) {
    forall id :: id in t.orders ==>
      && id in u.orders
      && u.orders[id].owner == t.orders[id].owner
      && (Terminal(t.orders[id].status) ==> u.orders[id] == t.orders[id])
  }

  /** No row goes back to NEW. */
  ghost predicate NoneRenewed(t: Db, u: Db) {
    forall id :: id in t.orders && id in u.orders && u.orders[id].status.NEW? ==> t.orders[id].status.NEW?
  }

  /** An order insert, which only adds a row. */
  ghost predicate OnlyAdds(t: Db, u: Db) {
    forall id :: id in t.orders ==> id in u.orders && u.orders[id] == t.orders[id]
  }

  // ---------------------------------------------------------------- registration

  lemma {:induction false} RegisterDb(s: State, e: Event)
    requires Enabled(s, e) && e.Register?
    ensures Step(s, e).db == s.db
         || (e.orderId !in s.db.orders
             && Step(s, e).db == s.db.(orders := s.db.orders[e.orderId := OrderRow(e.userId, NEW, 0)]))
  {
    assert Cents(0.0) == 0;
  }

  /** The new answer is right, new orders are the ones it accepts, and a lookup is only ever
      answered for an order already there. */
  ghost predicate RightAnswer(s: State, q: State, last: Answer) {
    && OnlyAdds(s.db, q.db) && q.answers == s.answers + [last]
    && (forall ticket :: ticket in q.lookups ==> ticket in s.lookups && q.lookups[ticket] == s.lookups[ticket])
    && (!last.verdict.InternalError? ==>
          && last.orderId in q.db.orders
          && (q.db.orders[last.orderId].owner == last.userId <==> !last.verdict.OtherUser?))
    && (last.verdict.Accepted? ==> last.orderId !in s.db.orders)
    && (last.verdict.AlreadyLoaded? || last.verdict.OtherUser? ==> last.orderId in s.db.orders)
    && (forall id :: id in q.db.orders && id !in s.db.orders ==> last.verdict.Accepted? && last.orderId == id)
  }

  lemma {:induction false} AnswerRight(s: State, q: State, last: Answer)
    requires VerdictsRight(s) && RightAnswer(s, q, last)
    ensures VerdictsRight(q)
  {
    assert forall i :: 0 <= i < |s.answers| ==> q.answers[i] == s.answers[i];
  }

  lemma {:induction false} StillAccepted(s: State, last: Answer, j: nat, id: nat)
    requires j <= |s.answers| && AcceptedBefore(s.answers, j, id)
    ensures AcceptedBefore(s.answers + [last], j, id) && AcceptedBefore(s.answers + [last], |s.answers| + 1, id)
  {
    var i :| 0 <= i < j && s.answers[i].orderId == id && s.answers[i].verdict.Accepted?;
    assert (s.answers + [last])[i].orderId == id;
  }

  lemma {:induction false} AnswerLater(s: State, q: State, last: Answer)
    requires AcceptedFirst(s) && RightAnswer(s, q, last)
    ensures AcceptedFirst(q)
  {
    var n := |s.answers|;
    assert forall i :: 0 <= i < n ==> q.answers[i] == s.answers[i];
    forall id | id in q.db.orders
      ensures AcceptedBefore(q.answers, n + 1, id)
    {
      if id in s.db.orders {
        StillAccepted(s, last, n, id);
      } else {
        assert q.answers[n].orderId == id;
      }
    }
    forall j | 0 <= j < |q.answers| && (q.answers[j].verdict.AlreadyLoaded? || q.answers[j].verdict.OtherUser?)
      ensures AcceptedBefore(q.answers, j, q.answers[j].orderId)
    {
      StillAccepted(s, last, j, q.answers[j].orderId);
    }
  }

  /** Appending one right verdict keeps the verdicts right. */
  lemma {:induction false} AnswerAppended(s: State, q: State, last: Answer)
    requires VerdictsFit(s) && RightAnswer(s, q, last)
    ensures VerdictsFit(q)
  {
    AnswerRight(s, q, last);
    AnswerLater(s, q, last);
  }

  lemma {:induction false} RegisterVerdicts(s: State, e: Event)
    requires VerdictsFit(s) && Enabled(s, e) && e.Register?
    ensures VerdictsFit(Step(s, e))
  {
    var q := Step(s, e);
    if q.answers != s.answers {
      var last := q.answers[|s.answers|];
      assert q.answers == s.answers + [last];
      AnswerAppended(s, q, last);
    }
  }

  lemma {:induction false} RegisterRows(s: State, e: Event)
    requires Numbered(s) && Enabled(s, e) && e.Register?
    ensures Numbered(Step(s, e)) && OnlyAdds(s.db, Step(s, e).db)
  {
    RegisterDb(s, e);
  }

  lemma {:induction false} RegisterCycle(s: State, e: Event)
    requires CycleFits(s) && Enabled(s, e) && e.Register?
    ensures CycleFits(Step(s, e))
  {
    RegisterDb(s, e);
  }

  lemma {:induction false} RegisterShape(s: State, e: Event)
    requires Shape(s) && Enabled(s, e) && e.Register?
    ensures Shape(Step(s, e)) && OnlyAdds(s.db, Step(s, e).db)
  {
    RegisterRows(s, e);
    RegisterCycle(s, e);
    RegisterVerdicts(s, e);
  }

  lemma {:induction false} LookupShape(s: State, e: Event)
    requires Shape(s) && Enabled(s, e) && e.LookupOwner?
    ensures Shape(Step(s, e))
  {
    var q := Step(s, e);
    AnswerAppended(s, q, q.answers[|s.answers|]);
  }

  // ---------------------------------------------------------------- poll cycle

  /** What the filter picks: the answer about an order of the list whose status differs. */
  ghost predicate PickedFrom(o: Order, orders: seq<Order>, resOrders: map<nat, Order>) {
    exists i :: 0 <= i < |orders| && orders[i].orderId == o.orderId && orders[i].userId == o.userId
                && o.orderId in resOrders && resOrders[o.orderId] == o && orders[i].status != o.status
  }

  /** The answers carry the number and owner of the order they are about. */
  ghost predicate UnderOwnName(orders: seq<Order>, resOrders: map<nat, Order>) {
    forall i :: 0 <= i < |orders| && orders[i].orderId in resOrders ==>
      && resOrders[orders[i].orderId].orderId == orders[i].orderId
      && resOrders[orders[i].orderId].userId == orders[i].userId
  }

  lemma {:induction false} PickedSplit(o: Order, orders: seq<Order>, resOrders: map<nat, Order>)
    requires orders != [] && UnderOwnName(orders, resOrders)
    ensures PickedFrom(o, orders, resOrders) <==>
              || PickedFrom(o, orders[1..], resOrders)
              || (orders[0].orderId in resOrders && o == resOrders[orders[0].orderId] && orders[0].status != o.status)
  {
    if PickedFrom(o, orders[1..], resOrders) {
      var i :| 0 <= i < |orders[1..]| && orders[1..][i].orderId == o.orderId && orders[1..][i].userId == o.userId
               && o.orderId in resOrders && resOrders[o.orderId] == o && orders[1..][i].status != o.status;
      assert orders[i + 1] == orders[1..][i];
    }
    assert forall i :: 0 < i < |orders| ==> orders[1..][i - 1] == orders[i];
  }

  /** The filter picks exactly the answers whose status differs from the snapshot's. */
  lemma {:induction false} ChangedPicks(orders: seq<Order>, resOrders: map<nat, Order>)
    requires UnderOwnName(orders, resOrders)
    ensures forall o :: o in Changed(orders, resOrders) <==> PickedFrom(o, orders, resOrders)
  {
    if orders == [] {
    } else {
      var head, rest := orders[0], orders[1..];
      assert UnderOwnName(rest, resOrders) by {
        assert forall i :: 0 <= i < |rest| ==> rest[i] == orders[i + 1];
      }
      ChangedPicks(rest, resOrders);
      forall o
        ensures o in Changed(orders, resOrders) <==> PickedFrom(o, orders, resOrders)
      {
        PickedSplit(o, orders, resOrders);
      }
    }
  }

  lemma {:induction false} ChangedDistinct(orders: seq<Order>, resOrders: map<nat, Order>)
    requires DistinctIds(orders) && UnderOwnName(orders, resOrders)
    ensures DistinctIds(Changed(orders, resOrders))
  {
    if orders == [] {
    } else {
      var rest := orders[1..];
      assert UnderOwnName(rest, resOrders) by {
        assert forall i :: 0 <= i < |rest| ==> rest[i] == orders[i + 1];
      }
      ChangedDistinct(rest, resOrders);
      ChangedPicks(rest, resOrders);
      forall o | o in Changed(rest, resOrders)
        ensures o.orderId != orders[0].orderId
      {
        var i :| 0 <= i < |rest| && rest[i].orderId == o.orderId;
        assert orders[i + 1].orderId == o.orderId;
      }
    }
  }

  /** The filtered answers to a snapshot that still holds fit it. */
  lemma {:induction false} ChangedFits(t: Db, orders: seq<Order>, resOrders: map<nat, Order>)
    requires SnapshotHolds(t, orders) && UnderOwnName(orders, resOrders)
    ensures UpdatesFit(t, Changed(orders, resOrders))
  {
    ChangedDistinct(orders, resOrders);
    ChangedPicks(orders, resOrders);
    var es := Changed(orders, resOrders);
    forall i | 0 <= i < |es|
      ensures es[i].orderId in t.orders && t.orders[es[i].orderId].owner == es[i].userId
      ensures Pending(t.orders[es[i].orderId].status) && es[i].status != t.orders[es[i].orderId].status
    {
      assert PickedFrom(es[i], orders, resOrders);
    }
  }

  lemma {:induction false} AnswersOwnName(orders: seq<Order>, resOrders: map<nat, Order>)
    requires DistinctIds(orders) && AnswersFor(orders, resOrders)
    ensures UnderOwnName(orders, resOrders)
  {
    forall i | 0 <= i < |orders| && orders[i].orderId in resOrders
      ensures resOrders[orders[i].orderId].orderId == orders[i].orderId
      ensures resOrders[orders[i].orderId].userId == orders[i].userId
    {
      var id := orders[i].orderId;
      var k :| 0 <= k < |orders| && orders[k].orderId == id
               && resOrders[id].orderId == id && resOrders[id].userId == orders[k].userId;
      assert k == i;
    }
  }

  lemma {:induction false} ReplyShape(s: State, e: Event)
    requires Shape(s) && Enabled(s, e) && e.Reply?
    ensures Shape(Step(s, e))
  {
    AnswersOwnName(s.cycle.orders, e.resOrders);
    ChangedFits(s.db, s.cycle.orders, e.resOrders);
  }

  /** A commit that goes through. */
  predicate Commits(s: State, e: Event) {
    e.CommitBatch? && s.cycle.Ready? && !e.fails && PostAll(s.db, s.cycle.updOrders).Some?
  }

  predicate Names(es: seq<Order>, id: nat) {
    exists i :: 0 <= i < |es| && es[i].orderId == id
  }

  /** A commit that sets an order to NEW. */
  predicate Renews(s: State, e: Event, id: nat) {
    Commits(s, e) && exists i :: 0 <= i < |s.cycle.updOrders| && s.cycle.updOrders[i].orderId == id
                                 && s.cycle.updOrders[i].status.NEW?
  }

  /** One row after a batch of updates that fit. */
  lemma {:induction false} CommitRow(t: Db, es: seq<Order>, u: Db, id: nat)
    requires UpdatesFit(t, es) && PostAll(t, es) == Some(u) && id in t.orders
    ensures id in u.orders && u.orders[id].owner == t.orders[id].owner
    ensures Terminal(t.orders[id].status) ==> u.orders[id] == t.orders[id]
    ensures !t.orders[id].status.Garbled? ==> !u.orders[id].status.Garbled?
    ensures (exists i :: 0 <= i < |es| && es[i].orderId == id && es[i].status.NEW?)
       <==> u.orders[id].status.NEW? && !t.orders[id].status.NEW?
  {
    BatchEffect(t, es);
    if i: int :| 0 <= i < |es| && es[i].orderId == id {
      assert u.orders[id].status == es[i].status;
    }
  }

  lemma {:induction false} CommitRows(s: State, e: Event)
    requires CycleFits(s) && Enabled(s, e) && e.CommitBatch?
    ensures var q := Step(s, e);
            && RowsKept(s.db, q.db)
            && q.db.orders.Keys == s.db.orders.Keys
            && q.db.withdrawals == s.db.withdrawals
            && (forall user :: user in s.db.balances ==> user in q.db.balances)
            && (forall id :: id in s.db.orders && !s.db.orders[id].status.Garbled? ==>
                  !q.db.orders[id].status.Garbled?)
  {
    var q, es := Step(s, e), s.cycle.updOrders;
    if Commits(s, e) {
      BatchEffect(s.db, es);
      forall id | id in s.db.orders
        ensures q.db.orders[id].owner == s.db.orders[id].owner
        ensures Terminal(s.db.orders[id].status) ==> q.db.orders[id] == s.db.orders[id]
        ensures !s.db.orders[id].status.Garbled? ==> !q.db.orders[id].status.Garbled?
      {
        CommitRow(s.db, es, q.db, id);
      }
    }
  }

  lemma {:induction false} CommitVerdicts(s: State, q: State)
    requires VerdictsFit(s) && q.answers == s.answers && q.lookups == s.lookups
    requires q.db.orders.Keys == s.db.orders.Keys && RowsKept(s.db, q.db)
    ensures VerdictsFit(q)
  {
  }

  lemma {:induction false} CommitNumbered(s: State, e: Event)
    requires Numbered(s) && CycleFits(s) && Enabled(s, e) && e.CommitBatch?
    ensures Numbered(Step(s, e))
  {
    CommitRows(s, e);
  }

  lemma {:induction false} CommitShape(s: State, e: Event)
    requires Shape(s) && Enabled(s, e) && e.CommitBatch?
    ensures Shape(Step(s, e))
  {
    CommitRows(s, e);
    CommitNumbered(s, e);
    CommitVerdicts(s, Step(s, e));
  }

  // ---------------------------------------------------------------- every step

  lemma {:induction false} FrameVerdicts(s: State, q: State)
    requires VerdictsFit(s) && q.answers == s.answers && q.lookups == s.lookups && q.db.orders == s.db.orders
    ensures VerdictsFit(q)
  {
  }

  lemma {:induction false} FrameRest(s: State, e: Event)
    requires Numbered(s) && CycleFits(s) && Enabled(s, e)
    requires e.BeginWithdraw? || e.EndWithdraw? || e.Poll? || e.AbandonCycle?
    ensures Numbered(Step(s, e)) && CycleFits(Step(s, e))
  {
    if e.EndWithdraw? {
      assert Step(s, e).db.orders == s.db.orders;
    }
  }

  lemma {:induction false} FrameShape(s: State, e: Event)
    requires Shape(s) && Enabled(s, e) && (e.BeginWithdraw? || e.EndWithdraw? || e.Poll? || e.AbandonCycle?)
    ensures Shape(Step(s, e)) && Step(s, e).db.orders == s.db.orders && Step(s, e).payments == s.payments
  {
    FrameRest(s, e);
    FrameVerdicts(s, Step(s, e));
  }

  /** Every step keeps the shape, whatever was asked for and whatever the service said. */
  lemma {:induction false} StepShape(s: State, e: Event)
    requires Shape(s) && Enabled(s, e)
    ensures Shape(Step(s, e))
  {
    match e
    case Register(_, _, _, _) => RegisterShape(s, e);
    case LookupOwner(_, _) => LookupShape(s, e);
    case Reply(_) => ReplyShape(s, e);
    case CommitBatch(_) => CommitShape(s, e);
    case _ => FrameShape(s, e);
  }

  /** Every step keeps the rows, and brings an order back to NEW exactly when it commits that. */
  lemma {:induction false} StepAdvances(s: State, e: Event)
    requires Shape(s) && Enabled(s, e)
    ensures RowsKept(s.db, Step(s, e).db)
    ensures forall id :: id in s.db.orders ==>
              (Renews(s, e, id) <==> Step(s, e).db.orders[id].status.NEW? && !s.db.orders[id].status.NEW?)
  {
    match e
    case Register(_, _, _, _) => RegisterShape(s, e);
    case CommitBatch(_) =>
      CommitRows(s, e);
      if Commits(s, e) {
        forall id | id in s.db.orders
          ensures Renews(s, e, id) <==> Step(s, e).db.orders[id].status.NEW? && !s.db.orders[id].status.NEW?
        {
          CommitRow(s.db, s.cycle.updOrders, Step(s, e).db, id);
        }
      }
    case LookupOwner(_, _) =>
    case Reply(_) =>
    case _ => FrameShape(s, e);
  }

  lemma {:induction false} RunShape(states: seq<State>, events: seq<Event>, i: nat)
    requires Run(states, events) && i < |states|
    ensures Shape(states[i])
  {
    if i == 0 {
    } else {
      RunShape(states, events, i - 1);
      StepShape(states[i - 1], events[i - 1]);
    }
  }

  // ---------------------------------------------------------------- what orders have been paid

  ghost function PaidFor(ps: seq<Payment>, orderId: nat): int {
    if ps == [] then 0
    else (if ps[0].orderId == orderId then ps[0].cents else 0) + PaidFor(ps[1..], orderId)
  }

  ghost function PaidTo(ps: seq<Payment>, user: nat): int {
    if ps == [] then 0
    else (if ps[0].userId == user then ps[0].cents else 0) + PaidTo(ps[1..], user)
  }

  lemma {:induction false} PaidConcat(a: seq<Payment>, b: seq<Payment>, n: nat)
    ensures PaidFor(a + b, n) == PaidFor(a, n) + PaidFor(b, n)
    ensures PaidTo(a + b, n) == PaidTo(a, n) + PaidTo(b, n)
  {
    if a == [] {
      assert a + b == b;
    } else {
      PaidConcat(a[1..], b, n);
      assert (a + b)[1..] == a[1..] + b;
    }
  }

  lemma {:induction false} PaidByBatch(es: seq<Order>, n: nat)
    requires DistinctIds(es)
    ensures PaidTo(PaymentsOf(es), n) == CreditedBy(es, n)
    ensures forall i :: 0 <= i < |es| && es[i].orderId == n ==> PaidFor(PaymentsOf(es), n) == Cents(es[i].accrual)
    ensures (forall i :: 0 <= i < |es| ==> es[i].orderId != n) ==> PaidFor(PaymentsOf(es), n) == 0
    decreases |es|
  {
    if es == [] {
    } else {
      assert PaymentsOf(es)[1..] == PaymentsOf(es[1..]);
      PaidByBatch(es[1..], n);
      assert forall i :: 0 < i < |es| ==> es[i] == es[1..][i - 1];
    }
  }

  /** The accrual an order carries; an order that is not there carries none. */
  function Stored(t: Db, id: nat): int {
    if id in t.orders then t.orders[id].accrual else 0
  }

  /** Posting a batch leaves what an order was paid ahead of what it carries by the accrual it
      carried before. That takes one batch and its tables only, however many pollers there are. */
  lemma {:induction false} BatchOverwrites(t: Db, es: seq<Order>, ps: seq<Payment>, id: nat)
    requires DistinctIds(es) && OwnRows(t, es) && PostAll(t, es).Some?
    ensures PaidFor(ps + PaymentsOf(es), id) - Stored(PostAll(t, es).value, id)
         == PaidFor(ps, id) - Stored(t, id) + if Names(es, id) then Stored(t, id) else 0
  {
    BatchEffect(t, es);
    PaidConcat(ps, PaymentsOf(es), id);
    PaidByBatch(es, id);
  }

  /** The accrual a step pays for once more: that of an order a commit names. */
  function Overwrites(s: State, e: Event, id: nat): int {
    if Commits(s, e) && Names(s.cycle.updOrders, id) then Stored(s.db, id) else 0
  }

  lemma {:induction false} PaidStep(s: State, e: Event, id: nat)
    requires Shape(s) && Enabled(s, e)
    ensures var q := Step(s, e);
            PaidFor(q.payments, id) - Stored(q.db, id)
            == PaidFor(s.payments, id) - Stored(s.db, id) + Overwrites(s, e, id)
  {
    match e
    case Register(_, _, _, _) => RegisterDb(s, e);
    case CommitBatch(_) =>
      if Commits(s, e) {
        BatchOverwrites(s.db, s.cycle.updOrders, s.payments, id);
      }
    case LookupOwner(_, _) =>
    case Reply(_) =>
    case _ => FrameShape(s, e);
  }

  ghost function OverwrittenSoFar(states: seq<State>, events: seq<Event>, n: nat, id: nat): int
    requires n <= |events| < |states|
  {
    if n == 0 then 0 else OverwrittenSoFar(states, events, n - 1, id) + Overwrites(states[n - 1], events[n - 1], id)
  }

  // ---------------------------------------------------------------- every run: orders

  /** Whatever users ask for and the service says, an order has been credited what it carries
      and every accrual that was ever overwritten on it. */
  lemma {:induction false} CreditedAndOverwritten(states: seq<State>, events: seq<Event>, n: nat, id: nat)
    requires Run(states, events) && n < |states|
    ensures PaidFor(states[n].payments, id) == Stored(states[n].db, id) + OverwrittenSoFar(states, events, n, id)
  {
    if n == 0 {
    } else {
      CreditedAndOverwritten(states, events, n - 1, id);
      RunShape(states, events, n - 1);
      PaidStep(states[n - 1], events[n - 1], id);
    }
  }

  /** The order has been credited what it carries. */
  ghost predicate PaidOnce(s: State, id: nat) {
    PaidFor(s.payments, id) == Stored(s.db, id)
  }

  /** What starts at zero stays there exactly when every change is zero. */
  lemma {:induction false} StaysZero(gaps: seq<int>, changes: seq<int>)
    requires |gaps| == |changes| + 1 && gaps[0] == 0
    requires forall k :: 0 <= k < |changes| ==> gaps[k + 1] == gaps[k] + changes[k]
    ensures (forall k :: 0 <= k < |gaps| ==> gaps[k] == 0) <==> (forall k :: 0 <= k < |changes| ==> changes[k] == 0)
  {
    if forall k :: 0 <= k < |changes| ==> changes[k] == 0 {
      for k := 0 to |changes|
        invariant forall j :: 0 <= j <= k ==> gaps[j] == 0
      {
        assert gaps[k + 1] == gaps[k] + changes[k];
      }
    } else if forall k :: 0 <= k < |gaps| ==> gaps[k] == 0 {
      forall k | 0 <= k < |changes|
        ensures changes[k] == 0
      {
        assert gaps[k + 1] == gaps[k] + changes[k];
      }
    }
  }

  /** Exactly when an order is credited exactly once all along a run: when no commit names it
      while it carries an accrual. */
  lemma {:induction false} CreditedOnceExact(states: seq<State>, events: seq<Event>, id: nat)
    requires Run(states, events)
    ensures (forall i :: 0 <= i < |states| ==> PaidOnce(states[i], id))
       <==> (forall i :: 0 <= i < |events| ==> Overwrites(states[i], events[i], id) == 0)
  {
    var gaps := seq(|states|, i requires 0 <= i < |states| =>
      PaidFor(states[i].payments, id) - Stored(states[i].db, id));
    var changes := seq(|events|, i requires 0 <= i < |events| => Overwrites(states[i], events[i], id));
    forall i | 0 <= i < |events|
      ensures gaps[i + 1] == gaps[i] + changes[i]
    {
      RunShape(states, events, i);
      PaidStep(states[i], events[i], id);
    }
    StaysZero(gaps, changes);
    assert forall i :: 0 <= i < |states| ==> (gaps[i] == 0 <==> PaidOnce(states[i], id));
    assert forall i :: 0 <= i < |events| ==> changes[i] == Overwrites(states[i], events[i], id);
  }

  /** The amounts an order has been paid, one for each payment. */
  ghost function Parts(ps: seq<Payment>, id: nat): seq<int> {
    if ps == [] then [] else (if ps[0].orderId == id then [ps[0].cents] else []) + Parts(ps[1..], id)
  }

  lemma {:induction false} ConcatAssociates(x: seq<int>, y: seq<int>, z: seq<int>)
    ensures x + (y + z) == (x + y) + z
  {
  }

  lemma {:induction false} PartsConcat(a: seq<Payment>, b: seq<Payment>, id: nat)
    ensures Parts(a + b, id) == Parts(a, id) + Parts(b, id)
  {
    if a == [] {
      assert a + b == b;
    } else {
      PartsConcat(a[1..], b, id);
      assert (a + b)[0] == a[0] && (a + b)[1..] == a[1..] + b;
      ConcatAssociates(if a[0].orderId == id then [a[0].cents] else [], Parts(a[1..], id), Parts(b, id));
    }
  }

  lemma {:induction false} PartsOfBatch(es: seq<Order>, id: nat)
    requires DistinctIds(es)
    ensures !Names(es, id) ==> Parts(PaymentsOf(es), id) == []
    ensures forall i :: 0 <= i < |es| && es[i].orderId == id ==> Parts(PaymentsOf(es), id) == [Cents(es[i].accrual)]
    decreases |es|
  {
    if es == [] {
    } else {
      assert PaymentsOf(es)[1..] == PaymentsOf(es[1..]);
      assert forall i :: 0 < i < |es| ==> es[i] == es[1..][i - 1];
      PartsOfBatch(es[1..], id);
    }
  }

  function LastOf(parts: seq<int>): int {
    if parts == [] then 0 else parts[|parts| - 1]
  }

  predicate ZeroButLast(parts: seq<int>) {
    forall k :: 0 <= k < |parts| - 1 ==> parts[k] == 0
  }

  lemma {:induction false} OneMorePart(parts: seq<int>, part: int)
    ensures ZeroButLast(parts + [part]) <==> ZeroButLast(parts) && LastOf(parts) == 0
  {
    var after := parts + [part];
    if ZeroButLast(after) {
      assert forall k :: 0 <= k < |parts| ==> after[k] == parts[k];
    }
  }

  /** An order carries the last amount it was paid. */
  ghost predicate CarriesLast(s: State, id: nat) {
    Stored(s.db, id) == LastOf(Parts(s.payments, id))
  }

  /** All that an order was paid came in its last payment. */
  ghost predicate InOnePart(s: State, id: nat) {
    ZeroButLast(Parts(s.payments, id))
  }

  lemma {:induction false} BatchParts(t: Db, es: seq<Order>, ps: seq<Payment>, id: nat)
    requires DistinctIds(es) && OwnRows(t, es) && PostAll(t, es).Some?
    ensures var u := PostAll(t, es).value;
            if Names(es, id) then Parts(ps + PaymentsOf(es), id) == Parts(ps, id) + [Stored(u, id)]
            else Parts(ps + PaymentsOf(es), id) == Parts(ps, id) && Stored(u, id) == Stored(t, id)
  {
    BatchEffect(t, es);
    PartsConcat(ps, PaymentsOf(es), id);
    PartsOfBatch(es, id);
    assert Parts(ps, id) + [] == Parts(ps, id);
  }

  lemma {:induction false} CommitParts(s: State, e: Event, id: nat)
    requires Shape(s) && CarriesLast(s, id) && Enabled(s, e) && Commits(s, e)
    ensures CarriesLast(Step(s, e), id)
    ensures InOnePart(Step(s, e), id) <==> InOnePart(s, id) && Overwrites(s, e, id) == 0
  {
    BatchParts(s.db, s.cycle.updOrders, s.payments, id);
    OneMorePart(Parts(s.payments, id), Stored(Step(s, e).db, id));
  }

  lemma {:induction false} PartsStep(s: State, e: Event, id: nat)
    requires Shape(s) && CarriesLast(s, id) && Enabled(s, e)
    ensures CarriesLast(Step(s, e), id)
    ensures InOnePart(Step(s, e), id) <==> InOnePart(s, id) && Overwrites(s, e, id) == 0
  {
    match e
    case Register(_, _, _, _) => RegisterDb(s, e);
    case CommitBatch(_) =>
      if Commits(s, e) {
        CommitParts(s, e, id);
      }
    case LookupOwner(_, _) =>
    case Reply(_) =>
    case _ => FrameShape(s, e);
  }

  /** The same condition decides whether an order is ever paid in two parts. */
  lemma {:induction false} OnePartExact(states: seq<State>, events: seq<Event>, n: nat, id: nat)
    requires Run(states, events) && n < |states|
    ensures CarriesLast(states[n], id)
    ensures InOnePart(states[n], id) <==> (forall i :: 0 <= i < n ==> Overwrites(states[i], events[i], id) == 0)
  {
    if n == 0 {
    } else {
      OnePartExact(states, events, n - 1, id);
      RunShape(states, events, n - 1);
      PartsStep(states[n - 1], events[n - 1], id);
    }
  }

  /** Every payment went to the owner of an order that is there. */
  ghost predicate PaymentsOwned(s: State) {
    forall k :: 0 <= k < |s.payments| ==>
      && s.payments[k].orderId in s.db.orders
      && s.payments[k].userId == s.db.orders[s.payments[k].orderId].owner
  }

  lemma {:induction false} OwnedStep(s: State, e: Event)
    requires Shape(s) && PaymentsOwned(s) && Enabled(s, e)
    ensures PaymentsOwned(Step(s, e))
  {
    StepAdvances(s, e);
  }

  lemma {:induction false} RunOwned(states: seq<State>, events: seq<Event>, n: nat)
    requires Run(states, events) && n < |states|
    ensures PaymentsOwned(states[n])
  {
    if n == 0 {
    } else {
      RunOwned(states, events, n - 1);
      RunShape(states, events, n - 1);
      OwnedStep(states[n - 1], events[n - 1]);
    }
  }

  // ---------------------------------------------------------------- every run: rows and verdicts

  lemma {:induction false} KeptTransitive(t: Db, u: Db, v: Db)
    requires RowsKept(t, u) && RowsKept(u, v)
    ensures RowsKept(t, v)
  {
    forall id | id in t.orders
      ensures id in v.orders && v.orders[id].owner == t.orders[id].owner
      ensures Terminal(t.orders[id].status) ==> v.orders[id] == t.orders[id]
    {
      assert id in u.orders;
    }
  }

  lemma {:induction false} OneStepAdvances(states: seq<State>, events: seq<Event>, k: nat)
    requires Run(states, events) && k < |events|
    ensures RowsKept(states[k].db, states[k + 1].db)
    ensures (forall id :: !Renews(states[k], events[k], id)) ==> NoneRenewed(states[k].db, states[k + 1].db)
  {
    RunShape(states, events, k);
    StepAdvances(states[k], events[k]);
  }

  lemma {:induction false} ChainAdvances(ts: seq<Db>, i: nat, j: nat)
    requires i <= j < |ts| && forall k :: i <= k < j ==> RowsKept(ts[k], ts[k + 1])
    ensures RowsKept(ts[i], ts[j])
    ensures (forall k :: i <= k < j ==> NoneRenewed(ts[k], ts[k + 1])) ==> NoneRenewed(ts[i], ts[j])
    decreases j
  {
    if i == j {
    } else {
      ChainAdvances(ts, i, j - 1);
      assert RowsKept(ts[j - 1], ts[j - 1 + 1]);
      KeptTransitive(ts[i], ts[j - 1], ts[j]);
      if forall k :: i <= k < j ==> NoneRenewed(ts[k], ts[k + 1]) {
        assert NoneRenewed(ts[j - 1], ts[j - 1 + 1]);
      }
    }
  }

  /** Between any two moments of a run, whatever was asked for and answered, no order disappears
      or changes owner, and a processed or invalid one does not change at all. None goes back to
      NEW unless a commit in between sets it to NEW. */
  lemma {:induction false} OrdersOnlyAdvance(states: seq<State>, events: seq<Event>, i: nat, j: nat)
    requires Run(states, events) && i <= j < |states|
    ensures forall id :: id in states[i].db.orders ==>
              var before := states[i].db.orders[id];
              && id in states[j].db.orders
              && states[j].db.orders[id].owner == before.owner
              && (before.status == PROCESSED || before.status == INVALID ==> states[j].db.orders[id] == before)
    ensures (forall k, id :: i <= k < j ==> !Renews(states[k], events[k], id)) ==>
              NoneRenewed(states[i].db, states[j].db)
  {
    var ts := seq(|states|, k requires 0 <= k < |states| => states[k].db);
    forall k | i <= k < j
      ensures RowsKept(ts[k], ts[k + 1])
      ensures (forall id :: !Renews(states[k], events[k], id)) ==> NoneRenewed(ts[k], ts[k + 1])
    {
      OneStepAdvances(states, events, k);
    }
    ChainAdvances(ts, i, j);
  }

  /** Exactly when a step brings an order back to NEW: when it commits that. */
  lemma {:induction false} BackToNewExact(states: seq<State>, events: seq<Event>, i: nat, id: nat)
    requires Run(states, events) && i < |events|
    ensures Renews(states[i], events[i], id) <==>
              && id in states[i].db.orders && id in states[i + 1].db.orders
              && states[i].db.orders[id].status != NEW && states[i + 1].db.orders[id].status == NEW
  {
    RunShape(states, events, i);
    StepAdvances(states[i], events[i]);
  }

  /** An order number is accepted at most once, and every other definite verdict about it
      comes later and tells its submitter truly whether they were the one accepted. */
  lemma {:induction false} OneOwnerForever(states: seq<State>, events: seq<Event>, i: nat, k: nat, m: nat)
    requires Run(states, events) && i < |states|
    requires k < |states[i].answers| && m < |states[i].answers| && k != m
    requires states[i].answers[k].verdict.Accepted? && !states[i].answers[m].verdict.InternalError?
    requires states[i].answers[k].orderId == states[i].answers[m].orderId
    ensures var first, other := states[i].answers[k], states[i].answers[m];
            && k < m
            && other.verdict == (if other.userId == first.userId then AlreadyLoaded else OtherUser)
            && first.orderId in states[i].db.orders
            && states[i].db.orders[first.orderId].owner == first.userId
            && ValidNumber(first.orderId)
  {
    RunShape(states, events, i);
    var answers := states[i].answers;
    assert VerdictsRight(states[i]) && AcceptedFirst(states[i]);
    var first :| 0 <= first < m && answers[first].orderId == answers[m].orderId && answers[first].verdict.Accepted?;
    assert first == k;
  }

  function Registrations(events: seq<Event>): nat {
    if events == [] then 0
    else Registrations(events[..|events| - 1]) + if events[|events| - 1].Register? then 1 else 0
  }

  function WithdrawalsBegun(events: seq<Event>): nat {
    if events == [] then 0
    else WithdrawalsBegun(events[..|events| - 1]) + if events[|events| - 1].BeginWithdraw? then 1 else 0
  }

  function WithdrawalsEnded(events: seq<Event>): nat {
    if events == [] then 0
    else WithdrawalsEnded(events[..|events| - 1]) + if events[|events| - 1].EndWithdraw? then 1 else 0
  }

  lemma {:induction false} TicketUsed<T>(m: map<nat, T>, ticket: nat, x: T)
    ensures ticket !in m ==> |m[ticket := x]| == |m| + 1
    ensures ticket in m ==> |m - {ticket}| == |m| - 1
  {
    if ticket in m {
      assert m == (m - {ticket})[ticket := m[ticket]];
    }
  }

  lemma {:induction false} AnswerCountStep(s: State, e: Event)
    requires Enabled(s, e)
    ensures |Step(s, e).answers| + |Step(s, e).lookups|
         == |s.answers| + |s.lookups| + if e.Register? then 1 else 0
  {
    match e
    case Register(ticket, userId, orderId, _) => TicketUsed(s.lookups, ticket, Lookup(orderId, userId));
    case LookupOwner(ticket, _) => TicketUsed(s.lookups, ticket, s.lookups[ticket]);
    case _ =>
  }

  lemma {:induction false} RequestCountStep(s: State, e: Event)
    requires Enabled(s, e)
    ensures |Step(s, e).requests| + (if e.EndWithdraw? then 1 else 0)
         == |s.requests| + if e.BeginWithdraw? then 1 else 0
  {
    match e
    case BeginWithdraw(ticket, w, fault) => TicketUsed(s.requests, ticket, Step(s, e).requests[ticket]);
    case EndWithdraw(ticket) => TicketUsed(s.requests, ticket, s.requests[ticket]);
    case _ =>
  }

  /** Every registration is answered once, at once or by one lookup, and every withdrawal that
      began ends at most once. */
  lemma {:induction false} EveryRequestEndsOnce(states: seq<State>, events: seq<Event>, n: nat)
    requires Run(states, events) && n < |states|
    ensures |states[n].answers| + |states[n].lookups| == Registrations(events[..n])
    ensures |states[n].requests| + WithdrawalsEnded(events[..n]) == WithdrawalsBegun(events[..n])
  {
    if n == 0 {
    } else {
      EveryRequestEndsOnce(states, events, n - 1);
      AnswerCountStep(states[n - 1], events[n - 1]);
      RequestCountStep(states[n - 1], events[n - 1]);
      assert events[..n][..n - 1] == events[..n - 1];
    }
  }

  // ---------------------------------------------------------------- every run: the books

  /** What a withdrawal adds to cache over history by creating a balance row: its amount twice. */
  function RowCreated(s: State, e: Event, user: nat): int {
    if e.EndWithdraw? && e.ticket in s.requests then
      var r := s.requests[e.ticket];
      if r.w.userId == user && user !in s.db.balances && FinishWithdraw(s.db, r.w, r.seen, r.fault).1 == Ok then
        2 * Cents(r.w.sum)
      else 0
    else 0
  }

  /** What a step moves a user's cache away from the history by. */
  ghost function Shift(s: State, e: Event, user: nat): int {
    (if Commits(s, e) then OverwrittenBy(s.db, s.cycle.updOrders, user) else 0) + RowCreated(s, e, user)
  }

  lemma {:induction false} WithdrawShift(s: State, e: Event, user: nat)
    requires Enabled(s, e) && e.EndWithdraw?
    ensures var q := Step(s, e);
            && AccrualDrift(q.db, user) == AccrualDrift(s.db, user) + RowCreated(s, e, user)
            && WithdrawnDrift(q.db, user) == WithdrawnDrift(s.db, user)
            && Bal(q.db, user).current + Bal(q.db, user).withdrawn
            == Bal(s.db, user).current + Bal(s.db, user).withdrawn + RowCreated(s, e, user)
  {
    var r := s.requests[e.ticket];
    if FinishWithdraw(s.db, r.w, r.seen, r.fault).1 == Ok {
      WithdrawDrift(s.db, r.w, r.seen, r.fault, user);
    }
  }

  lemma {:induction false} DriftStep(s: State, e: Event, user: nat)
    requires Shape(s) && Enabled(s, e)
    ensures AccrualDrift(Step(s, e).db, user) == AccrualDrift(s.db, user) + Shift(s, e, user)
    ensures WithdrawnDrift(Step(s, e).db, user) == WithdrawnDrift(s.db, user)
  {
    match e
    case Register(_, _, _, _) =>
      RegisterDb(s, e);
      WriteOrderDrift(s.db, e.orderId, OrderRow(e.userId, NEW, 0), user);
    case EndWithdraw(_) => WithdrawShift(s, e, user);
    case CommitBatch(_) =>
      if Commits(s, e) {
        BatchDrift(s.db, s.cycle.updOrders, user);
      }
    case _ =>
  }

  /** What a user has or has withdrawn, less everything ever credited to them. */
  ghost function Uncredited(s: State, user: nat): int {
    Bal(s.db, user).current + Bal(s.db, user).withdrawn - PaidTo(s.payments, user)
  }

  lemma {:induction false} CreditStep(s: State, e: Event, user: nat)
    requires Shape(s) && Enabled(s, e)
    ensures Uncredited(Step(s, e), user) == Uncredited(s, user) + RowCreated(s, e, user)
  {
    match e
    case Register(_, _, _, _) => RegisterDb(s, e);
    case EndWithdraw(_) => WithdrawShift(s, e, user);
    case CommitBatch(_) =>
      if Commits(s, e) {
        var es := s.cycle.updOrders;
        BatchBalances(s.db, es);
        PaidConcat(s.payments, PaymentsOf(es), user);
        PaidByBatch(es, user);
      }
    case _ =>
  }

  lemma {:induction false} WithdrawnAgrees(states: seq<State>, events: seq<Event>, n: nat, user: nat)
    requires Run(states, events) && n < |states|
    ensures WithdrawnDrift(states[n].db, user) == 0
  {
    if n == 0 {
      EmptyAgrees();
      assert WithdrawnDrift(EMPTY, user) == 0;
    } else {
      WithdrawnAgrees(states, events, n - 1, user);
      RunShape(states, events, n - 1);
      DriftStep(states[n - 1], events[n - 1], user);
    }
  }

  /** Exactly when cache and history agree for a user all along a run: when no step shifts them
      apart, by crediting over an accrual or by creating the row of a balance with an amount.
      What was withdrawn agrees in any case. */
  lemma {:induction false} AgreementExact(states: seq<State>, events: seq<Event>, user: nat)
    requires Run(states, events)
    ensures forall i :: 0 <= i < |states| ==> WithdrawnDrift(states[i].db, user) == 0
    ensures (forall i :: 0 <= i < |states| ==> AccrualDrift(states[i].db, user) == 0)
       <==> (forall i :: 0 <= i < |events| ==> Shift(states[i], events[i], user) == 0)
  {
    var drifts := seq(|states|, i requires 0 <= i < |states| => AccrualDrift(states[i].db, user));
    var shifts := seq(|events|, i requires 0 <= i < |events| => Shift(states[i], events[i], user));
    EmptyAgrees();
    assert AccrualDrift(EMPTY, user) == 0;
    forall i | 0 <= i < |events|
      ensures drifts[i + 1] == drifts[i] + shifts[i]
    {
      RunShape(states, events, i);
      DriftStep(states[i], events[i], user);
    }
    StaysZero(drifts, shifts);
    forall i | 0 <= i < |states|
      ensures WithdrawnDrift(states[i].db, user) == 0
    {
      WithdrawnAgrees(states, events, i, user);
    }
    assert forall i :: 0 <= i < |states| ==> drifts[i] == AccrualDrift(states[i].db, user);
    assert forall i :: 0 <= i < |events| ==> shifts[i] == Shift(states[i], events[i], user);
  }

  // ---------------------------------------------------------------- lawful runs

  /** Only processed orders carry an accrual. */
  ghost predicate Rows(t: Db) {
    forall id :: id in t.orders ==>
      t.orders[id].accrual >= 0 && (t.orders[id].accrual != 0 ==> t.orders[id].status.PROCESSED?)
  }

  /** What the accrual service's promise makes of the tables and of a cycle's updates. */
  ghost predicate HonestState(s: State) {
    Rows(s.db) && (s.cycle.Ready? ==> forall i :: 0 <= i < |s.cycle.updOrders| ==> Honest(s.cycle.updOrders[i]))
  }

  lemma {:induction false} HonestBatch(t: Db, es: seq<Order>)
    requires UpdatesFit(t, es) && Rows(t) && PostAll(t, es).Some?
    requires forall i :: 0 <= i < |es| ==> Honest(es[i])
    ensures Rows(PostAll(t, es).value)
  {
    var u := PostAll(t, es).value;
    BatchEffect(t, es);
    assert Cents(0.0) == 0;
    forall id | id in u.orders
      ensures u.orders[id].accrual >= 0 && (u.orders[id].accrual != 0 ==> u.orders[id].status.PROCESSED?)
    {
      if i: int :| 0 <= i < |es| && es[i].orderId == id {
        CentsMonotone(0.0, es[i].accrual);
      }
    }
  }

  lemma {:induction false} HonestStep(s: State, e: Event)
    requires Shape(s) && HonestState(s) && Enabled(s, e) && Truthful(e)
    ensures HonestState(Step(s, e))
  {
    match e
    case Register(_, _, _, _) => RegisterDb(s, e);
    case CommitBatch(_) =>
      if Commits(s, e) {
        HonestBatch(s.db, s.cycle.updOrders);
      }
    case Reply(resOrders) =>
      AnswersOwnName(s.cycle.orders, resOrders);
      ChangedPicks(s.cycle.orders, resOrders);
      var es := Changed(s.cycle.orders, resOrders);
      forall i | 0 <= i < |es|
        ensures Honest(es[i])
      {
        assert PickedFrom(es[i], s.cycle.orders, resOrders);
      }
    case LookupOwner(_, _) =>
    case _ => FrameShape(s, e);
  }

  lemma {:induction false} RunHonest(states: seq<State>, events: seq<Event>, i: nat)
    requires TruthfulRun(states, events) && i < |states|
    ensures HonestState(states[i])
  {
    if i == 0 {
    } else {
      RunHonest(states, events, i - 1);
      RunShape(states, events, i - 1);
      HonestStep(states[i - 1], events[i - 1]);
    }
  }

  lemma {:induction false} PendingOverwritesNothing(t: Db, es: seq<Order>, user: nat)
    requires Rows(t) && UpdatesFit(t, es)
    ensures OverwrittenBy(t, es, user) == 0
  {
    if es == [] {
    } else {
      assert t.orders[es[0].orderId].accrual == 0;
      PendingOverwritesNothing(t, es[1..], user);
    }
  }

  /** Open requests saw no balance where there is none, and a negative amount is asked for only
      where there is one. */
  ghost predicate RequestsFit(s: State) {
    forall ticket :: ticket in s.requests ==>
      && (Cents(s.requests[ticket].w.sum) >= 0 || s.requests[ticket].w.userId in s.db.balances)
      && (s.requests[ticket].seen != 0 ==> s.requests[ticket].w.userId in s.db.balances)
  }

  /** A user without a row gets past the guard with nothing but an amount that rounds to zero. */
  lemma {:induction false} RowlessTakesNothing(t: Db, w: Withdraw, seen: int, fault: Fault)
    requires Cents(w.sum) >= 0 || w.userId in t.balances
    requires seen != 0 ==> w.userId in t.balances
    requires FinishWithdraw(t, w, seen, fault).1 == Ok
    ensures w.userId in t.balances || (seen == 0 && Cents(w.sum) == 0)
  {
    if w.userId !in t.balances {
      assert Amount(0) == 0.0 && Cents(0.0) == 0;
      CentsMonotone(w.sum, 0.0);
    }
  }

  lemma {:induction false} RequestsStep(s: State, e: Event)
    requires CycleFits(s) && RequestsFit(s) && Enabled(s, e) && Permitted(s, e)
    ensures RequestsFit(Step(s, e))
  {
    match e
    case Register(_, _, _, _) => RegisterDb(s, e);
    case CommitBatch(_) => CommitRows(s, e);
    case _ =>
  }

  lemma {:induction false} RunRequests(states: seq<State>, events: seq<Event>, i: nat)
    requires PermittedRun(states, events) && i < |states|
    ensures RequestsFit(states[i])
  {
    if i == 0 {
    } else {
      RunRequests(states, events, i - 1);
      RunShape(states, events, i - 1);
      RequestsStep(states[i - 1], events[i - 1]);
    }
  }

  lemma {:induction false} NoRowCreated(s: State, e: Event, user: nat)
    requires RequestsFit(s) && Enabled(s, e)
    ensures RowCreated(s, e, user) == 0
  {
    if e.EndWithdraw? {
      var r := s.requests[e.ticket];
      if FinishWithdraw(s.db, r.w, r.seen, r.fault).1 == Ok {
        RowlessTakesNothing(s.db, r.w, r.seen, r.fault);
      }
    }
  }

  lemma {:induction false} AllCredited(states: seq<State>, events: seq<Event>, n: nat, user: nat)
    requires PermittedRun(states, events) && n < |states|
    ensures Uncredited(states[n], user) == 0
  {
    if n == 0 {
    } else {
      AllCredited(states, events, n - 1, user);
      RunShape(states, events, n - 1);
      RunRequests(states, events, n - 1);
      CreditStep(states[n - 1], events[n - 1], user);
      NoRowCreated(states[n - 1], events[n - 1], user);
    }
  }

  /** Cache and history agree in every reachable state: what a user has withdrawn is the sum
      of their withdrawals, and what they have or had is the sum of their orders' accruals,
      which is also the sum of everything ever credited to them. */
  lemma {:induction false} LedgerAgrees(states: seq<State>, events: seq<Event>, i: nat, user: nat)
    requires LawfulRun(states, events) && i < |states|
    ensures var t := states[i].db;
            && Bal(t, user).withdrawn == SumFor(Withdrawals(t.withdrawals), user)
            && Bal(t, user).current + Bal(t, user).withdrawn == SumFor(Accruals(t.orders), user)
            && Bal(t, user).current + Bal(t, user).withdrawn == PaidTo(states[i].payments, user)
  {
    forall k | 0 <= k < |events|
      ensures Shift(states[k], events[k], user) == 0
    {
      RunShape(states, events, k);
      RunHonest(states, events, k);
      RunRequests(states, events, k);
      NoRowCreated(states[k], events[k], user);
      if Commits(states[k], events[k]) {
        PendingOverwritesNothing(states[k].db, states[k].cycle.updOrders, user);
      }
    }
    AgreementExact(states, events, user);
    AllCredited(states, events, i, user);
    assert AccrualDrift(states[i].db, user) == 0 && WithdrawnDrift(states[i].db, user) == 0;
  }

  /** Whatever interleaves with the poll cycles and whatever users ask for, a truthful service
      has every order credited exactly its stored accrual, nothing before it is processed, only
      to its owner, and never in two parts. */
  lemma {:induction false} CreditedExactlyOnce(states: seq<State>, events: seq<Event>, i: nat, id: nat)
    requires TruthfulRun(states, events) && i < |states|
    ensures var s := states[i];
            && (id !in s.db.orders ==> PaidFor(s.payments, id) == 0)
            && (id in s.db.orders ==> PaidFor(s.payments, id) == s.db.orders[id].accrual)
            && (id in s.db.orders && !s.db.orders[id].status.PROCESSED? ==> PaidFor(s.payments, id) == 0)
    ensures forall k :: 0 <= k < |states[i].payments| && states[i].payments[k].orderId == id ==>
              id in states[i].db.orders && states[i].payments[k].userId == states[i].db.orders[id].owner
    ensures InOnePart(states[i], id)
  {
    forall k | 0 <= k < |events|
      ensures Overwrites(states[k], events[k], id) == 0
    {
      RunShape(states, events, k);
      RunHonest(states, events, k);
    }
    CreditedOnceExact(states, events, id);
    OnePartExact(states, events, i, id);
    RunOwned(states, events, i);
    RunHonest(states, events, i);
    assert PaidOnce(states[i], id);
  }

  /** A truthful service never brings an order back to NEW. */
  lemma {:induction false} NeverNewAgain(states: seq<State>, events: seq<Event>, i: nat, j: nat)
    requires TruthfulRun(states, events) && i <= j < |states|
    ensures forall id :: id in states[i].db.orders && id in states[j].db.orders ==>
              states[i].db.orders[id].status != NEW ==> states[j].db.orders[id].status != NEW
  {
    forall k, id | i <= k < j
      ensures !Renews(states[k], events[k], id)
    {
      RunHonest(states, events, k);
    }
    OrdersOnlyAdvance(states, events, i, j);
  }
}
