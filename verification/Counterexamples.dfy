/**
  Why the assumptions are there: runs from empty tables, lawful but for the one thing each is
  about, and a batch that hides what it does.
 */
module Counterexamples {
  import opened Accounting
  import opened Ledger
  import opened LedgerProofs
  import opened Luhn
  import opened Money
  import opened Overdraft
  import opened Tables
  import opened Wrappers

  // ---------------------------------------------------------------- building runs

  lemma {:induction false} OneMoreStep(states: seq<State>, events: seq<Event>, e: Event)
    requires Run(states, events) && Enabled(states[|events|], e)
    ensures Run(states + [Step(states[|events|], e)], events + [e])
    ensures LawfulRun(states, events) && Truthful(e) && Permitted(states[|events|], e) ==>
              LawfulRun(states + [Step(states[|events|], e)], events + [e])
  {
  }

  /** User 7 has registered order 0, and nothing else has happened since. */
  ghost predicate OneOrder(s: State, status: Status, cents: int) {
    && s.db.orders == map[0 := OrderRow(7, status, cents)]
    && s.db.withdrawals == map[] && s.requests == map[] && s.cycle.Idle?
  }

  lemma {:induction false} OneRegistered() returns (states: seq<State>, events: seq<Event>)
    ensures LawfulRun(states, events)
    ensures OneOrder(states[|events|], NEW, 0)
    ensures states[|events|].db.balances == map[] && states[|events|].payments == []
  {
    var e := Register(0, 7, 0, false);
    assert ValidNumber(0) && Cents(0.0) == 0;
    states, events := [INIT, Step(INIT, e)], [e];
    assert Step(INIT, e).db == Db(map[0 := OrderRow(7, NEW, 0)], map[], map[]);
  }

  lemma {:induction false} OneAnswerPosted(s: State, status: Status, cents: int, answer: Order)
    requires OneOrder(s, status, cents)
    requires answer.orderId == 0 && answer.userId == 7 && Storable(answer) && CellsFit(s.db)
    requires FitsCell(Bal(s.db, 7).current + Cents(answer.accrual))
    ensures PostAll(s.db, [answer])
         == Some(Db(map[0 := OrderRow(7, answer.status, Cents(answer.accrual))],
                    s.db.balances[7 := BalanceRow(Bal(s.db, 7).current + Cents(answer.accrual),
                                                  Bal(s.db, 7).withdrawn)],
                    map[]))
  {
    var row := OrderRow(7, answer.status, Cents(answer.accrual));
    PostOne(s.db, answer);
    assert s.db.orders[0 := row] == map[0 := row];
  }

  /** One undisturbed poll cycle in which the service gives this answer about the order. */
  ghost function CycleEvents(s: State, answer: Order): seq<Event>
    requires 0 in s.db.orders
  {
    [Poll([ReadOrder(0, s.db.orders[0])]), Reply(map[0 := answer]), CommitBatch(false)]
  }

  lemma {:induction false} CycleStates(s: State, status: Status, cents: int, answer: Order)
    returns (s1: State, s2: State, s3: State)
    requires OneOrder(s, status, cents) && CellsFit(s.db) && Pending(status) && answer.status != status
    requires answer.orderId == 0 && answer.userId == 7 && Storable(answer)
    requires FitsCell(Bal(s.db, 7).current + Cents(answer.accrual))
    ensures var es := CycleEvents(s, answer);
            && Enabled(s, es[0]) && s1 == Step(s, es[0])
            && Enabled(s1, es[1]) && s2 == Step(s1, es[1])
            && Enabled(s2, es[2]) && s3 == Step(s2, es[2])
    ensures OneOrder(s3, answer.status, Cents(answer.accrual))
    ensures s3.payments == s.payments + [Payment(0, 7, Cents(answer.accrual))]
    ensures s3.db.balances == s.db.balances[7 := BalanceRow(Bal(s.db, 7).current + Cents(answer.accrual),
                                                            Bal(s.db, 7).withdrawn)]
  {
    var found, answers := ReadOrder(0, s.db.orders[0]), map[0 := answer];
    assert [found][0] == found;
    s1 := Step(s, Poll([found]));
    s2 := Step(s1, Reply(answers));
    assert Changed([found], answers) == Kept(found, answers) + Changed([], answers);
    OneAnswerPosted(s, status, cents, answer);
    s3 := Step(s2, CommitBatch(false));
  }

  lemma {:induction false} OneCycle(states: seq<State>, events: seq<Event>, status: Status, cents: int, answer: Order)
    returns (ss: seq<State>, es: seq<Event>)
    requires Run(states, events) && OneOrder(states[|events|], status, cents)
    requires Pending(status) && answer.status != status
    requires answer.orderId == 0 && answer.userId == 7 && Storable(answer)
    requires FitsCell(Bal(states[|events|].db, 7).current + Cents(answer.accrual))
    ensures |events| < |es| && |ss| > |events| && ss[|events|] == states[|events|]
    ensures Run(ss, es) && OneOrder(ss[|es|], answer.status, Cents(answer.accrual))
    ensures LawfulRun(states, events) && Honest(answer) ==> LawfulRun(ss, es)
    ensures var s, u := states[|events|], ss[|es|];
            && u.payments == s.payments + [Payment(0, 7, Cents(answer.accrual))]
            && u.db.balances == s.db.balances[7 := BalanceRow(Bal(s.db, 7).current + Cents(answer.accrual),
                                                              Bal(s.db, 7).withdrawn)]
  {
    var s := states[|events|];
    var more := CycleEvents(s, answer);
    CellsAlwaysFit(states, events, |events|);
    var s1, s2, s3 := CycleStates(s, status, cents, answer);
    OneMoreStep(states, events, more[0]);
    OneMoreStep(states + [s1], events + [more[0]], more[1]);
    OneMoreStep(states + [s1] + [s2], events + [more[0]] + [more[1]], more[2]);
    ss, es := states + [s1] + [s2] + [s3], events + [more[0]] + [more[1]] + [more[2]];
  }

  // ---------------------------------------------------------------- crediting

  /** A service that names an accrual before it is done: the order is paid twice over. */
  lemma {:induction false} EarlyAccrualCreditsTwice() returns (states: seq<State>, events: seq<Event>)
    ensures Run(states, events)
    ensures var s := states[|events|];
            Stored(s.db, 0) == 500 && PaidFor(s.payments, 0) == 1000 && Bal(s.db, 7).current == 1000
  {
    assert Cents(5.0) == 500;
    states, events := OneRegistered();
    states, events := OneCycle(states, events, NEW, 0, Order(0, 7, PROCESSING, 5.0));
    states, events := OneCycle(states, events, PROCESSING, 500, Order(0, 7, PROCESSED, 5.0));
    var ps := states[|events|].payments;
    assert ps == [Payment(0, 7, 500), Payment(0, 7, 500)];
    assert PaidFor(ps, 0) == 500 + PaidFor(ps[1..], 0);
    assert PaidFor(ps[1..], 0) == 500 + PaidFor(ps[1..][1..], 0);
  }

  /** A service that says NEW again: so does the order. */
  lemma {:induction false} NewAgainRun() returns (states: seq<State>, events: seq<Event>, i: nat)
    ensures Run(states, events) && i < |events|
    ensures states[i].db.orders == map[0 := OrderRow(7, REGISTERED, 0)]
    ensures states[|events|].db.orders == map[0 := OrderRow(7, NEW, 0)]
  {
    assert Cents(0.0) == 0;
    states, events := OneRegistered();
    states, events := OneCycle(states, events, NEW, 0, Order(0, 7, REGISTERED, 0.0));
    i := |events|;
    states, events := OneCycle(states, events, REGISTERED, 0, Order(0, 7, NEW, 0.0));
  }

  /** Agreement of cache and history is not enough: two stored accruals that cancel out are
      both paid once more, and no user's sums show it. */
  lemma {:induction false} AgreementHidesOverwriting()
    ensures var t := Db(map[0 := OrderRow(7, PROCESSING, 500), 18 := OrderRow(7, PROCESSING, -500)],
                        map[7 := BalanceRow(0, 0)], map[]);
            var es := [Order(0, 7, PROCESSED, 5.0), Order(18, 7, PROCESSED, -5.0)];
            && PostAll(t, es).Some?
            && (forall user: nat :: OverwrittenBy(t, es, user) == 0)
            && Stored(t, 0) == 500 && Stored(t, 18) == -500
  {
    assert Cents(5.0) == 500 && Cents(-5.0) == -500;
    var t := Db(map[0 := OrderRow(7, PROCESSING, 500), 18 := OrderRow(7, PROCESSING, -500)],
                map[7 := BalanceRow(0, 0)], map[]);
    var first, second := Order(0, 7, PROCESSED, 5.0), Order(18, 7, PROCESSED, -5.0);
    assert [first, second][1..] == [second];
    PostOne(Post(t, first).value, second);
    forall user: nat
      ensures OverwrittenBy(t, [first, second], user) == 0
    {
      assert OverwrittenBy(t, [second], user) == Overwritten(t, second, user) + OverwrittenBy(t, [], user);
    }
  }

  // ---------------------------------------------------------------- overdrawing

  lemma {:induction false} TwoDigits(n: nat, tens: Digit, ones: Digit)
    requires n % 10 == ones && n / 10 == tens && tens > 0
    ensures LoopSum(n, false) == Weight(ones, false) + Weight(tens, true)
  {
    assert tens % 10 == tens && tens / 10 == 0;
    assert LoopSum(tens, true) == Weight(tens, true) + LoopSum(0, false);
  }

  /** Two withdrawals of one point read a balance of one point, one after the other. */
  lemma {:induction false} BothHaveRead() returns (states: seq<State>, events: seq<Event>)
    ensures LawfulRun(states, events)
    ensures var s := states[|events|];
            && s.db == Db(map[0 := OrderRow(7, PROCESSED, 100)], map[7 := BalanceRow(100, 0)], map[])
            && s.requests == map[0 := Request(Withdraw(18, 7, 1.0), 100, NoFault),
                                 1 := Request(Withdraw(26, 7, 1.0), 100, NoFault)]
  {
    var e1, e2 := BeginWithdraw(0, Withdraw(18, 7, 1.0), NoFault), BeginWithdraw(1, Withdraw(26, 7, 1.0), NoFault);
    assert Cents(1.0) == 100;
    TwoDigits(18, 1, 8);
    TwoDigits(26, 2, 6);
    states, events := OneRegistered();
    states, events := OneCycle(states, events, NEW, 0, Order(0, 7, PROCESSED, 1.0));
    var s := states[|events|];
    assert s.db == Db(map[0 := OrderRow(7, PROCESSED, 100)], map[7 := BalanceRow(100, 0)], map[]);
    var s1 := Step(s, e1);
    var s2 := Step(s1, e2);
    OneMoreStep(states, events, e1);
    OneMoreStep(states + [s1], events + [e1], e2);
    states, events := states + [s1] + [s2], events + [e1] + [e2];
  }

  /** Then both write: the run is lawful but for the overlap, and the balance ends a point below
      zero. */
  lemma {:induction false} OverlappingWithdrawalsOverdraw() returns (states: seq<State>, events: seq<Event>)
    ensures LawfulRun(states, events)
    ensures states[|events|].db.balances == map[7 := BalanceRow(-100, 200)]
  {
    assert Cents(1.0) == 100;
    states, events := BothHaveRead();
    var s := states[|events|];
    DebitGoesThrough(s.db, Withdraw(18, 7, 1.0), 100);
    var s1 := Step(s, EndWithdraw(0));
    DebitGoesThrough(s1.db, Withdraw(26, 7, 1.0), 100);
    var s2 := Step(s1, EndWithdraw(1));
    OneMoreStep(states, events, EndWithdraw(0));
    OneMoreStep(states + [s1], events + [EndWithdraw(0)], EndWithdraw(1));
    states, events := states + [s1] + [s2], events + [EndWithdraw(0)] + [EndWithdraw(1)];
  }
}
