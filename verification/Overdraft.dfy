/**
  When balances stay non-negative. The guard of a withdrawal reads the balance without a lock
  and compares it with an unrounded amount, so withdrawals that overlap can overdraw it; what
  decides is how much the open ones may still take together.
 */
module Overdraft {
  import opened Accounting
  import opened Batches
  import opened Ledger
  import opened LedgerProofs
  import opened Money
  import opened Tables

  // ---------------------------------------------------------------- sums

  lemma {:induction false} SumNotNegative(m: map<nat, Entry>, user: nat)
    requires forall k :: k in m ==> m[k].cents >= 0
    ensures SumFor(m, user) >= 0
    decreases |m|
  {
    if m == map[] {
    } else {
      var k :| k in m && SumFor(m, user) == EntryFor(m[k], user) + SumFor(m - {k}, user);
      assert EntryFor(m[k], user) >= 0;
      SumNotNegative(m - {k}, user);
    }
  }

  lemma {:induction false} SumOfZeros(m: map<nat, Entry>, user: nat)
    requires forall k :: k in m && m[k].owner == user ==> m[k].cents == 0
    ensures SumFor(m, user) == 0
    decreases |m|
  {
    if m == map[] {
    } else {
      var k :| k in m && SumFor(m, user) == EntryFor(m[k], user) + SumFor(m - {k}, user);
      assert EntryFor(m[k], user) == 0;
      SumOfZeros(m - {k}, user);
    }
  }

  lemma {:induction false} SumMonotone(m: map<nat, Entry>, n: map<nat, Entry>, user: nat)
    requires m.Keys <= n.Keys
    requires forall k :: k in m ==> m[k].owner == n[k].owner && m[k].cents <= n[k].cents
    requires forall k :: k in n ==> n[k].cents >= 0
    ensures SumFor(m, user) <= SumFor(n, user)
    decreases |n|
  {
    if n == map[] {
      assert m == map[];
    } else {
      var k :| k in n;
      SumWithout(n, k, user);
      if k in m {
        SumWithout(m, k, user);
        SumMonotone(m - {k}, n - {k}, user);
      } else {
        assert EntryFor(n[k], user) >= 0;
        SumMonotone(m, n - {k}, user);
      }
    }
  }

  /** Zeroing or dropping one line takes its amount off the sum. */
  lemma {:induction false} SumZeroed(m: map<nat, Entry>, n: map<nat, Entry>, k: nat, user: nat)
    requires k in m && (k in n ==> n[k].cents == 0)
    requires forall j :: j != k ==> (j in n <==> j in m)
    requires forall j :: j != k && j in n ==> n[j] == m[j]
    ensures SumFor(n, user) == SumFor(m, user) - EntryFor(m[k], user)
  {
    SumWithout(m, k, user);
    if k in n {
      SumWithout(n, k, user);
      assert n - {k} == m - {k};
    } else {
      assert n == m - {k};
    }
  }

  // ---------------------------------------------------------------- exposure

  lemma {:induction false} ExposureNotNegative(s: State, user: nat)
    ensures Exposure(s, user) >= 0
  {
    SumNotNegative(Dues(s, user), user);
  }

  lemma {:induction false} ExposureFrame(s: State, q: State, user: nat)
    requires q.db.withdrawals == s.db.withdrawals
    requires forall ticket :: ticket in q.requests && q.requests[ticket].w.userId == user ==>
               ticket in s.requests && s.requests[ticket] == q.requests[ticket]
    requires forall ticket :: ticket in s.requests && s.requests[ticket].w.userId == user ==>
               ticket in q.requests && s.requests[ticket] == q.requests[ticket]
    ensures Exposure(q, user) == Exposure(s, user)
  {
    assert Numbers(q, user) == Numbers(s, user);
    forall number | number in Numbers(s, user)
      ensures ClaimsOn(q, user, number) == ClaimsOn(s, user, number)
    {
    }
    assert Dues(q, user) == Dues(s, user);
  }

  lemma {:induction false} DueAfterBegin(s: State, e: Event, number: nat)
    requires Enabled(s, e) && e.BeginWithdraw? && number in Numbers(Step(s, e), e.w.userId)
    ensures number == e.w.orderId || number in Numbers(s, e.w.userId)
    ensures var q, user := Step(s, e), e.w.userId;
            var added := if number == e.w.orderId then Claim(s.db, q.requests[e.ticket]) else 0;
            && (number in Numbers(s, user) ==>
                  Largest(ClaimsOn(q, user, number)) <= Largest(ClaimsOn(s, user, number)) + added)
            && (number !in Numbers(s, user) ==> Largest(ClaimsOn(q, user, number)) <= added)
  {
    var q, user := Step(s, e), e.w.userId;
    forall ticket | ticket in q.requests && q.requests[ticket].w.userId == user && ticket != e.ticket
      ensures ticket in s.requests && q.requests[ticket] == s.requests[ticket]
    {
    }
    var most := Largest(ClaimsOn(q, user, number));
    if most > 0 {
      var ticket :| ticket in q.requests && q.requests[ticket].w.userId == user
                    && q.requests[ticket].w.orderId == number && Claim(q.db, q.requests[ticket]) == most;
      if ticket != e.ticket {
        assert Claim(s.db, s.requests[ticket]) in ClaimsOn(s, user, number);
      }
    }
  }

  /** Starting a withdrawal adds at most its claim to its user's exposure, nothing to others'. */
  lemma {:induction false} BeginExposure(s: State, e: Event, user: nat)
    requires Enabled(s, e) && e.BeginWithdraw?
    ensures var q := Step(s, e);
            if user == e.w.userId then Exposure(q, user) <= Exposure(s, user) + Claim(s.db, q.requests[e.ticket])
            else Exposure(q, user) == Exposure(s, user)
  {
    var q := Step(s, e);
    if user == e.w.userId {
      var n := e.w.orderId;
      var before := if n in Dues(s, user) then Dues(s, user)[n].cents else 0;
      var entry := Entry(user, before + Claim(s.db, q.requests[e.ticket]));
      forall number | number in Numbers(q, user)
        ensures number in Dues(s, user)[n := entry]
        ensures Largest(ClaimsOn(q, user, number)) <= Dues(s, user)[n := entry][number].cents
      {
        DueAfterBegin(s, e, number);
      }
      SumMonotone(Dues(q, user), Dues(s, user)[n := entry], user);
      SumWrite(Dues(s, user), n, entry, user);
    } else {
      ExposureFrame(s, q, user);
    }
  }

  /** What a step makes of one due: it does not grow, and is gone once its number is used. */
  lemma {:induction false} DueAfterEnd(s: State, e: Event, user: nat, number: nat)
    requires Enabled(s, e) && e.EndWithdraw? && number in Numbers(Step(s, e), user)
    ensures number in Numbers(s, user)
    ensures Largest(ClaimsOn(Step(s, e), user, number)) <= Largest(ClaimsOn(s, user, number))
    ensures number in Step(s, e).db.withdrawals ==> Largest(ClaimsOn(Step(s, e), user, number)) == 0
  {
    var q := Step(s, e);
    var most := Largest(ClaimsOn(q, user, number));
    if most > 0 {
      var ticket :| ticket in q.requests && q.requests[ticket].w.userId == user
                    && q.requests[ticket].w.orderId == number && Claim(q.db, q.requests[ticket]) == most;
      assert Claim(s.db, s.requests[ticket]) in ClaimsOn(s, user, number);
    }
  }

  lemma {:induction false} EndShrinksExposure(s: State, e: Event, user: nat)
    requires Enabled(s, e) && e.EndWithdraw?
    ensures Exposure(Step(s, e), user) <= Exposure(s, user)
  {
    forall number | number in Numbers(Step(s, e), user)
      ensures number in Numbers(s, user)
      ensures Largest(ClaimsOn(Step(s, e), user, number)) <= Largest(ClaimsOn(s, user, number))
    {
      DueAfterEnd(s, e, user, number);
    }
    SumMonotone(Dues(Step(s, e), user), Dues(s, user), user);
  }

  /** A withdrawal that succeeds uses up the due of its number, which is at least what it took. */
  lemma {:induction false} SuccessUsesDue(s: State, e: Event)
    requires Enabled(s, e) && e.EndWithdraw?
    requires var r := s.requests[e.ticket]; FinishWithdraw(s.db, r.w, r.seen, r.fault).1 == Ok && Cents(r.w.sum) >= 0
    ensures var r := s.requests[e.ticket];
            Exposure(Step(s, e), r.w.userId) <= Exposure(s, r.w.userId) - Cents(r.w.sum)
  {
    var q, r := Step(s, e), s.requests[e.ticket];
    var user, n := r.w.userId, r.w.orderId;
    assert Claim(s.db, r) in ClaimsOn(s, user, n);
    assert n in q.db.withdrawals && n in Dues(s, user);
    var used := Dues(s, user)[n := Entry(user, 0)];
    forall number | number in Numbers(q, user)
      ensures number in used && Largest(ClaimsOn(q, user, number)) <= used[number].cents
    {
      DueAfterEnd(s, e, user, number);
    }
    SumMonotone(Dues(q, user), used, user);
    SumWrite(Dues(s, user), n, Entry(user, 0), user);
  }

  /** What a withdrawal that succeeds takes is at most what it takes off the exposure. */
  lemma {:induction false} SuccessKeepsSlack(s: State, e: Event)
    requires RequestsFit(s) && Enabled(s, e) && e.EndWithdraw?
    requires var r := s.requests[e.ticket]; FinishWithdraw(s.db, r.w, r.seen, r.fault).1 == Ok
    ensures var user := s.requests[e.ticket].w.userId;
            Bal(Step(s, e).db, user).current - Exposure(Step(s, e), user) >= Bal(s.db, user).current - Exposure(s, user)
  {
    var r := s.requests[e.ticket];
    RowlessTakesNothing(s.db, r.w, r.seen, r.fault);
    if Cents(r.w.sum) >= 0 {
      SuccessUsesDue(s, e);
    } else {
      EndShrinksExposure(s, e, r.w.userId);
    }
  }

  lemma {:induction false} EndKeepsSlack(s: State, e: Event, user: nat)
    requires RequestsFit(s) && Enabled(s, e) && e.EndWithdraw?
    ensures Bal(Step(s, e).db, user).current - Exposure(Step(s, e), user)
         >= Bal(s.db, user).current - Exposure(s, user)
  {
    var r := s.requests[e.ticket];
    if FinishWithdraw(s.db, r.w, r.seen, r.fault).1 == Ok && user == r.w.userId {
      SuccessKeepsSlack(s, e);
    } else {
      EndShrinksExposure(s, e, user);
    }
  }

  // ---------------------------------------------------------------- covered runs are safe

  /** Every balance covers what its open withdrawals may still take. */
  ghost predicate Solvent(s: State) {
    forall user: nat :: Exposure(s, user) <= Bal(s.db, user).current
  }

  lemma {:induction false} CommitCredits(s: State, e: Event, user: nat)
    requires Shape(s) && HonestState(s) && Enabled(s, e) && e.CommitBatch?
    ensures Bal(Step(s, e).db, user).current >= Bal(s.db, user).current
    ensures Exposure(Step(s, e), user) == Exposure(s, user)
  {
    CommitRows(s, e);
    ExposureFrame(s, Step(s, e), user);
    if Commits(s, e) {
      BatchEffect(s.db, s.cycle.updOrders);
      CreditedNotNegative(s.cycle.updOrders, user);
    }
  }

  lemma {:induction false} SolventStep(s: State, e: Event)
    requires Shape(s) && HonestState(s) && RequestsFit(s) && Solvent(s) && Enabled(s, e) && Covered(s, e)
    ensures Solvent(Step(s, e))
  {
    forall user: nat
      ensures Exposure(Step(s, e), user) <= Bal(Step(s, e).db, user).current
    {
      assert Exposure(s, user) <= Bal(s.db, user).current;
      match e
      case BeginWithdraw(_, _, _) => BeginExposure(s, e, user);
      case EndWithdraw(_) => EndKeepsSlack(s, e, user);
      case CommitBatch(_) => CommitCredits(s, e, user);
      case Register(_, _, _, _) =>
        RegisterDb(s, e);
        ExposureFrame(s, Step(s, e), user);
      case _ => ExposureFrame(s, Step(s, e), user);
    }
  }

  lemma {:induction false} RunSolvent(states: seq<State>, events: seq<Event>, i: nat)
    requires LawfulRun(states, events) && i < |states|
    requires forall k :: 0 <= k < i ==> Covered(states[k], events[k])
    ensures Solvent(states[i])
  {
    if i == 0 {
      forall user: nat
        ensures Exposure(INIT, user) == 0
      {
        assert Dues(INIT, user) == map[];
      }
    } else {
      RunSolvent(states, events, i - 1);
      RunShape(states, events, i - 1);
      RunHonest(states, events, i - 1);
      RunRequests(states, events, i - 1);
      SolventStep(states[i - 1], events[i - 1]);
    }
  }

  /** As long as every withdrawal is covered when it starts, along with its user's open ones,
      nobody is ever overdrawn, whatever the withdrawals overlap with. */
  lemma {:induction false} CoveredNeverOverdrawn(states: seq<State>, events: seq<Event>, i: nat, user: nat)
    requires CoveredRun(states, events) && i < |states|
    ensures Bal(states[i].db, user).current >= 0
  {
    RunSolvent(states, events, i);
    ExposureNotNegative(states[i], user);
    assert Exposure(states[i], user) <= Bal(states[i].db, user).current;
  }

  // ---------------------------------------------------------------- one withdrawal at a time

  /** With no withdrawal of its user open, the guard itself sees to it that a new one is covered. */
  lemma {:induction false} SerialIsCovered(s: State, e: Event)
    requires Solvent(s) && Enabled(s, e) && Serial(s, e)
    ensures Covered(s, e)
  {
    if e.BeginWithdraw? {
      var user := e.w.userId;
      var seen := SeenBalance(s.db, user, e.fault);
      BeginExposure(s, e, user);
      assert Dues(s, user) == map[];
      assert Exposure(s, user) <= Bal(s.db, user).current;
      if e.w.sum <= Amount(seen) {
        GuardCoversRounding(e.w.sum, seen);
      }
    }
  }

  lemma {:induction false} SerialRunCovered(states: seq<State>, events: seq<Event>, i: nat)
    requires SerialRun(states, events) && i <= |events|
    ensures forall k :: 0 <= k < i ==> Covered(states[k], events[k])
  {
    if i == 0 {
    } else {
      SerialRunCovered(states, events, i - 1);
      RunSolvent(states, events, i - 1);
      SerialIsCovered(states[i - 1], events[i - 1]);
    }
  }

  /** When each user's withdrawals are serialised, nobody is ever overdrawn, though the guard
      compares an unrounded amount and balances move between the read and the write. */
  lemma {:induction false} NeverOverdrawn(states: seq<State>, events: seq<Event>, i: nat, user: nat)
    requires LawfulRun(states, events) && i < |states|
    requires forall k, ticket :: 0 <= k < |events| && events[k].BeginWithdraw? && ticket in states[k].requests ==>
               states[k].requests[ticket].w.userId != events[k].w.userId
    ensures Bal(states[i].db, user).current >= 0
  {
    assert SerialRun(states, events);
    SerialRunCovered(states, events, |events|);
    CoveredNeverOverdrawn(states, events, i, user);
  }

  // ---------------------------------------------------------------- cells

  lemma {:induction false} StepCellsFit(s: State, e: Event)
    requires CellsFit(s.db) && Enabled(s, e)
    ensures CellsFit(Step(s, e).db)
  {
    if e.CommitBatch? {
      PassCellsFit(s.db, s.cycle.updOrders);
    }
  }

  /** Every reachable state keeps what its cells can hold. */
  lemma {:induction false} CellsAlwaysFit(states: seq<State>, events: seq<Event>, i: nat)
    requires Run(states, events) && i < |states|
    ensures CellsFit(states[i].db)
  {
    if i == 0 {
    } else {
      CellsAlwaysFit(states, events, i - 1);
      StepCellsFit(states[i - 1], events[i - 1]);
    }
  }

  // ---------------------------------------------------------------- uncovered ones overdraw

  /** The withdrawn cell of a user has room for everything their open withdrawals may take. */
  ghost predicate RoomToWithdraw(s: State, user: nat) {
    FitsCell(Bal(s.db, user).withdrawn + Exposure(s, user))
  }

  /** A debit nothing stands in the way of. */
  lemma {:induction false} DebitGoesThrough(t: Db, w: Withdraw, seen: int)
    requires w.userId in t.balances && w.orderId !in t.withdrawals && w.sum <= Amount(seen)
    requires FitsBigint(w.userId) && FitsBigint(w.orderId) && FitsCell(Cents(w.sum))
    requires FitsCell(t.balances[w.userId].current - Cents(w.sum))
    requires FitsCell(t.balances[w.userId].withdrawn + Cents(w.sum))
    ensures FinishWithdraw(t, w, seen, NoFault).0
         == Db(t.orders,
               t.balances[w.userId := BalanceRow(t.balances[w.userId].current - Cents(w.sum),
                                                 t.balances[w.userId].withdrawn + Cents(w.sum))],
               t.withdrawals[w.orderId := WithdrawalRow(w.userId, Cents(w.sum))])
  {
  }

  lemma {:induction false} ClaimHasRow(s: State, ticket: nat)
    requires RequestsFit(s) && ticket in s.requests && Claim(s.db, s.requests[ticket]) > 0
    ensures s.requests[ticket].w.userId in s.db.balances
  {
    var r := s.requests[ticket];
    if r.seen == 0 {
      assert Amount(0) == 0.0 && Cents(0.0) == 0;
      CentsMonotone(r.w.sum, 0.0);
    }
  }

  /** An open withdrawal that may take all that is due on its number. */
  ghost predicate Best(s: State, user: nat, ticket: nat) {
    && ticket in s.requests && s.requests[ticket].w.userId == user
    && Claim(s.db, s.requests[ticket]) > 0
    && Claim(s.db, s.requests[ticket]) == Largest(ClaimsOn(s, user, s.requests[ticket].w.orderId))
  }

  lemma {:induction false} FindBest(s: State, user: nat) returns (ticket: nat)
    requires Exposure(s, user) > 0
    ensures Best(s, user, ticket)
  {
    if forall number :: number in Dues(s, user) ==> Dues(s, user)[number].cents == 0 {
      SumOfZeros(Dues(s, user), user);
    }
    var number :| number in Dues(s, user) && Dues(s, user)[number].cents > 0;
    assert Dues(s, user)[number].cents in ClaimsOn(s, user, number);
    ticket :| ticket in s.requests && s.requests[ticket].w.userId == user
              && s.requests[ticket].w.orderId == number
              && Claim(s.db, s.requests[ticket]) == Dues(s, user)[number].cents;
  }

  lemma {:induction false} DueUntouched(s: State, e: Event, user: nat, number: nat)
    requires Enabled(s, e) && e.EndWithdraw? && number != s.requests[e.ticket].w.orderId
    ensures number in Numbers(Step(s, e), user) <==> number in Numbers(s, user)
    ensures ClaimsOn(Step(s, e), user, number) == ClaimsOn(s, user, number)
  {
    var q := Step(s, e);
    assert number in q.db.withdrawals <==> number in s.db.withdrawals;
    forall ticket | ticket in s.requests && s.requests[ticket].w.orderId == number
      ensures ticket in q.requests && q.requests[ticket] == s.requests[ticket]
      ensures Claim(q.db, q.requests[ticket]) == Claim(s.db, s.requests[ticket])
    {
    }
    forall claim | claim in ClaimsOn(s, user, number)
      ensures claim in ClaimsOn(q, user, number)
    {
      var ticket :| ticket in s.requests && s.requests[ticket].w.userId == user
                    && s.requests[ticket].w.orderId == number && Claim(s.db, s.requests[ticket]) == claim;
      assert ticket in q.requests;
    }
  }

  /** Ending the best withdrawal for a number takes exactly its claim off the exposure. */
  lemma {:induction false} BestUsesDue(s: State, user: nat, ticket: nat)
    requires Best(s, user, ticket) && s.requests[ticket].w.orderId in Step(s, EndWithdraw(ticket)).db.withdrawals
    ensures Exposure(Step(s, EndWithdraw(ticket)), user) == Exposure(s, user) - Claim(s.db, s.requests[ticket])
  {
    var e := EndWithdraw(ticket);
    var q, n := Step(s, e), s.requests[ticket].w.orderId;
    assert n in Dues(s, user);
    forall number | number != n
      ensures number in Dues(q, user) <==> number in Dues(s, user)
      ensures number in Dues(q, user) ==> Dues(q, user)[number] == Dues(s, user)[number]
    {
      DueUntouched(s, e, user, number);
    }
    if n in Dues(q, user) {
      DueAfterEnd(s, e, user, n);
    }
    SumZeroed(Dues(s, user), Dues(q, user), n, user);
  }

  lemma {:induction false} EndRequests(s: State, e: Event)
    requires RequestsFit(s) && Enabled(s, e) && e.EndWithdraw?
    ensures RequestsFit(Step(s, e))
  {
  }

  /** One best withdrawal ends: it goes through when the balance cell has room for it. */
  lemma {:induction false} EndBest(s: State, user: nat, ticket: nat)
    requires RequestsFit(s) && CellsFit(s.db) && RoomToWithdraw(s, user) && Best(s, user, ticket)
    requires FitsCell(Bal(s.db, user).current - Claim(s.db, s.requests[ticket]))
    ensures var q, c := Step(s, EndWithdraw(ticket)), Claim(s.db, s.requests[ticket]);
            && Bal(q.db, user) == BalanceRow(Bal(s.db, user).current - c, Bal(s.db, user).withdrawn + c)
            && Exposure(q, user) == Exposure(s, user) - c
            && RequestsFit(q) && CellsFit(q.db) && RoomToWithdraw(q, user)
  {
    var q, r := Step(s, EndWithdraw(ticket)), s.requests[ticket];
    var n := r.w.orderId;
    ClaimHasRow(s, ticket);
    assert n in Dues(s, user);
    SumWithout(Dues(s, user), n, user);
    SumNotNegative(Dues(s, user) - {n}, user);
    DebitGoesThrough(s.db, r.w, r.seen);
    BestUsesDue(s, user, ticket);
    EndRequests(s, EndWithdraw(ticket));
    StepCellsFit(s, EndWithdraw(ticket));
  }

  /** A run in which open withdrawals end and nothing else happens. */
  ghost predicate Settling(s: State, states: seq<State>, events: seq<Event>) {
    && |states| == |events| + 1
    && states[0] == s
    && forall i :: 0 <= i < |events| ==>
         events[i].EndWithdraw? && Enabled(states[i], events[i]) && states[i + 1] == Step(states[i], events[i])
  }

  /** Some way of ending open withdrawals leaves the user a negative balance. */
  ghost predicate CanOverdraw(s: State, user: nat) {
    exists states: seq<State>, events: seq<Event> ::
      Settling(s, states, events) && Bal(states[|events|].db, user).current < 0
  }

  /** Whatever ends and in whatever order, no more is taken than the exposure shrinks. */
  lemma {:induction false} SettlingKeepsSlack(s: State, states: seq<State>, events: seq<Event>, i: nat, user: nat)
    requires RequestsFit(s) && Settling(s, states, events) && i < |states|
    ensures RequestsFit(states[i])
    ensures Bal(states[i].db, user).current - Exposure(states[i], user) >= Bal(s.db, user).current - Exposure(s, user)
  {
    if i == 0 {
    } else {
      SettlingKeepsSlack(s, states, events, i - 1, user);
      EndRequests(states[i - 1], events[i - 1]);
      EndKeepsSlack(states[i - 1], events[i - 1], user);
    }
  }

  /** Ending one more withdrawal first. */
  lemma {:induction false} SettlingFirst(s: State, ticket: nat, states: seq<State>, events: seq<Event>)
    requires ticket in s.requests && Settling(Step(s, EndWithdraw(ticket)), states, events)
    ensures Settling(s, [s] + states, [EndWithdraw(ticket)] + events)
    ensures ([s] + states)[|events| + 1] == states[|events|]
  {
    var ss, es := [s] + states, [EndWithdraw(ticket)] + events;
    forall i | 0 <= i < |es|
      ensures es[i].EndWithdraw? && Enabled(ss[i], es[i]) && ss[i + 1] == Step(ss[i], es[i])
    {
      if i == 0 {
        assert ss[1] == states[0];
      } else {
        assert ss[i] == states[i - 1] && es[i] == events[i - 1] && ss[i + 1] == states[i - 1 + 1];
      }
    }
  }

  lemma {:induction false} ClaimWithinExposure(s: State, user: nat, ticket: nat)
    requires Best(s, user, ticket)
    ensures 0 < Claim(s.db, s.requests[ticket]) <= Exposure(s, user)
  {
    var n := s.requests[ticket].w.orderId;
    assert n in Dues(s, user);
    SumWithout(Dues(s, user), n, user);
    SumNotNegative(Dues(s, user) - {n}, user);
  }

  /** The whole exposure of a user can be taken from their balance, when the cell has room. */
  lemma {:induction false} ExposureTaken(s: State, user: nat) returns (states: seq<State>, events: seq<Event>)
    requires RequestsFit(s) && CellsFit(s.db) && RoomToWithdraw(s, user)
    requires FitsCell(Bal(s.db, user).current - Exposure(s, user))
    ensures Settling(s, states, events)
    ensures Bal(states[|events|].db, user).current == Bal(s.db, user).current - Exposure(s, user)
    decreases |s.requests|
  {
    ExposureNotNegative(s, user);
    if Exposure(s, user) == 0 {
      states, events := [s], [];
    } else {
      var ticket := FindBest(s, user);
      ClaimWithinExposure(s, user, ticket);
      EndBest(s, user, ticket);
      states, events := ExposureTaken(Step(s, EndWithdraw(ticket)), user);
      SettlingFirst(s, ticket, states, events);
      states, events := [s] + states, [EndWithdraw(ticket)] + events;
    }
  }

  /** An exposure above the balance can be brought to overdraw it. */
  lemma {:induction false} OverdraftReached(s: State, user: nat) returns (states: seq<State>, events: seq<Event>)
    requires RequestsFit(s) && CellsFit(s.db) && RoomToWithdraw(s, user)
    requires Exposure(s, user) > Bal(s.db, user).current
    ensures Settling(s, states, events) && Bal(states[|events|].db, user).current < 0
    decreases |s.requests|
  {
    if Bal(s.db, user).current < 0 {
      states, events := [s], [];
    } else {
      var ticket := FindBest(s, user);
      EndBest(s, user, ticket);
      states, events := OverdraftReached(Step(s, EndWithdraw(ticket)), user);
      SettlingFirst(s, ticket, states, events);
      states, events := [s] + states, [EndWithdraw(ticket)] + events;
    }
  }

  /** Exactly when the open withdrawals of a user can overdraw their balance, wherever a run has
      got to and whatever else is open: when together they may take more than there is. */
  lemma {:induction false} OverdraftExact(states: seq<State>, events: seq<Event>, i: nat, user: nat)
    requires PermittedRun(states, events) && i < |states|
    requires FitsCell(Bal(states[i].db, user).withdrawn + Exposure(states[i], user))
    ensures CanOverdraw(states[i], user) <==> Exposure(states[i], user) > Bal(states[i].db, user).current
  {
    var s := states[i];
    RunRequests(states, events, i);
    CellsAlwaysFit(states, events, i);
    if Exposure(s, user) > Bal(s.db, user).current {
      var endStates, endEvents := OverdraftReached(s, user);
    } else if ss: seq<State>, es: seq<Event> :| Settling(s, ss, es) && Bal(ss[|es|].db, user).current < 0 {
      SettlingKeepsSlack(s, ss, es, |es|, user);
      ExposureNotNegative(ss[|es|], user);
    }
  }

  /** The same before the call: starting a withdrawal makes an overdraft of its user possible
      exactly when the balance does not cover it along with the open ones. */
  lemma {:induction false} CoverExact(states: seq<State>, events: seq<Event>, i: nat)
    requires PermittedRun(states, events) && i < |events| && events[i].BeginWithdraw?
    requires var s, user := states[i + 1], events[i].w.userId; FitsCell(Bal(s.db, user).withdrawn + Exposure(s, user))
    ensures CanOverdraw(states[i + 1], events[i].w.userId) <==> !Covered(states[i], events[i])
  {
    OverdraftExact(states, events, i + 1, events[i].w.userId);
  }

  /** Along a lawful run nobody can ever be overdrawn exactly when every withdrawal is covered
      when it starts. */
  lemma {:induction false} NeverOverdrawnExact(states: seq<State>, events: seq<Event>)
    requires LawfulRun(states, events)
    requires forall i, user: nat :: 0 <= i < |states| ==>
               FitsCell(Bal(states[i].db, user).withdrawn + Exposure(states[i], user))
    ensures (forall i, user: nat :: 0 <= i < |states| ==> !CanOverdraw(states[i], user)) <==> CoveredRun(states, events)
  {
    if CoveredRun(states, events) {
      forall i, user: nat | 0 <= i < |states|
        ensures !CanOverdraw(states[i], user)
      {
        RunSolvent(states, events, i);
        OverdraftExact(states, events, i, user);
        assert Exposure(states[i], user) <= Bal(states[i].db, user).current;
      }
    } else {
      var i :| 0 <= i < |events| && !Covered(states[i], events[i]);
      assert RoomToWithdraw(states[i + 1], events[i].w.userId);
      CoverExact(states, events, i);
    }
  }
}
