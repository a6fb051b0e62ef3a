/**
  The chunked batch of internal/common/store/pg/pg.go against its simple form, posting order
  by order: chunking and the order of the entries do not matter, and what a batch leaves
  behind and when it goes through is stated exactly.
 */
module Batches {
  import opened Accounting
  import opened Money
  import opened Tables
  import opened Wrappers

  // ---------------------------------------------------------------- chunking

  function Sets(es: seq<Order>): seq<Statement> {
    seq(|es|, i requires 0 <= i < |es| => SetOrder(es[i]))
  }

  function Credits(es: seq<Order>): seq<Statement> {
    seq(|es|, i requires 0 <= i < |es| => Credit(es[i]))
  }

  lemma {:induction false} RunConcat(t: Db, a: seq<Statement>, b: seq<Statement>)
    ensures RunBatch(t, a + b) == if RunBatch(t, a).None? then None else RunBatch(RunBatch(t, a).value, b)
    decreases |a|
  {
    if a == [] {
      assert a + b == b;
    } else {
      assert (a + b)[1..] == a[1..] + b;
      if RunStatement(t, a[0]).Some? {
        RunConcat(RunStatement(t, a[0]).value, a[1..], b);
      }
    }
  }

  lemma {:induction false} RunOne(t: Db, a: Statement)
    ensures RunBatch(t, [a]) == RunStatement(t, a)
  {
    if RunStatement(t, a).Some? {
      assert RunBatch(RunStatement(t, a).value, []) == RunStatement(t, a);
    }
  }

  lemma {:induction false} RunTwo(t: Db, a: Statement, b: Statement)
    ensures RunBatch(t, [a, b]) == if RunStatement(t, a).None? then None else RunStatement(RunStatement(t, a).value, b)
  {
    assert [a, b][1..] == [b];
    if RunStatement(t, a).Some? {
      RunOne(RunStatement(t, a).value, b);
    }
  }

  /** An order update and a balance credit touch different tables. */
  lemma {:induction false} UpdateCommutesWithCredit(t: Db, e: Order, c: Order)
    ensures RunBatch(t, [SetOrder(e), Credit(c)]) == RunBatch(t, [Credit(c), SetOrder(e)])
  {
    RunTwo(t, SetOrder(e), Credit(c));
    RunTwo(t, Credit(c), SetOrder(e));
  }

  /** One credit may move ahead of any run of order updates. */
  lemma {:induction false} CreditPastUpdates(t: Db, es: seq<Order>, c: Order)
    ensures RunBatch(t, Sets(es) + [Credit(c)]) == RunBatch(t, [Credit(c)] + Sets(es))
    decreases |es|
  {
    if es == [] {
      assert Sets(es) + [Credit(c)] == [Credit(c)] + Sets(es);
    } else {
      var first, rest := [SetOrder(es[0])], Sets(es[1..]);
      assert Sets(es) == first + rest;
      assert Sets(es) + [Credit(c)] == first + (rest + [Credit(c)]);
      assert [Credit(c)] + Sets(es) == [Credit(c), SetOrder(es[0])] + rest;
      assert first + ([Credit(c)] + rest) == [SetOrder(es[0]), Credit(c)] + rest;
      RunConcat(t, first, rest + [Credit(c)]);
      RunConcat(t, first, [Credit(c)] + rest);
      RunConcat(t, [Credit(c), SetOrder(es[0])], rest);
      RunConcat(t, [SetOrder(es[0]), Credit(c)], rest);
      UpdateCommutesWithCredit(t, es[0], c);
      if RunBatch(t, first).Some? {
        CreditPastUpdates(RunBatch(t, first).value, es[1..], c);
      }
    }
  }

  lemma {:induction false} PostIsTwoStatements(t: Db, e: Order)
    ensures Post(t, e) == RunBatch(t, [SetOrder(e), Credit(e)])
  {
    RunTwo(t, SetOrder(e), Credit(e));
  }

  /** A chunk, all its updates and then all its credits, does what posting its orders one by
      one does, errors included. */
  lemma {:induction false} ChunkIsOneByOne(t: Db, es: seq<Order>)
    ensures RunBatch(t, Sets(es) + Credits(es)) == PostAll(t, es)
    decreases |es|
  {
    if es == [] {
      assert Sets(es) + Credits(es) == [];
    } else {
      var e, rest := es[0], es[1..];
      assert Sets(es) + Credits(es) == [SetOrder(e)] + (Sets(rest) + [Credit(e)] + Credits(rest));
      RunConcat(t, [SetOrder(e)], Sets(rest) + [Credit(e)] + Credits(rest));
      PostIsTwoStatements(t, e);
      if UpdateOrderRow(t, e).Some? {
        var t' := UpdateOrderRow(t, e).value;
        assert RunBatch(t', []) == Some(t');
        assert RunBatch(t, [SetOrder(e)]) == Some(t');
        RunConcat(t', Sets(rest) + [Credit(e)], Credits(rest));
        CreditPastUpdates(t', rest, e);
        RunConcat(t', [Credit(e)] + Sets(rest), Credits(rest));
        assert [Credit(e)] + Sets(rest) + Credits(rest) == [Credit(e)] + (Sets(rest) + Credits(rest));
        RunConcat(t', [Credit(e)], Sets(rest) + Credits(rest));
        if Post(t, e).Some? {
          assert RunBatch(Post(t, e).value, []) == Post(t, e);
          ChunkIsOneByOne(Post(t, e).value, rest);
        }
      }
    }
  }

  lemma {:induction false} PostConcat(t: Db, a: seq<Order>, b: seq<Order>)
    ensures PostAll(t, a + b) == if PostAll(t, a).None? then None else PostAll(PostAll(t, a).value, b)
    decreases |a|
  {
    if a == [] {
      assert a + b == b;
    } else {
      assert (a + b)[1..] == a[1..] + b;
      if Post(t, a[0]).Some? {
        PostConcat(Post(t, a[0]).value, a[1..], b);
      }
    }
  }

  /** Queueing one more credit of a chunk. */
  lemma {:induction false} QueueNext(chunk: seq<Order>, i: nat)
    requires i < |chunk|
    ensures Sets(chunk) + Credits(chunk)[..i] + [Credit(chunk[i])] == Sets(chunk) + Credits(chunk)[..i + 1]
  {
    assert Credits(chunk)[..i] + [Credit(chunk[i])] == Credits(chunk)[..i + 1];
  }

  /** Sending the next chunk continues the one-by-one pass, or shows that it fails. */
  lemma {:induction false} ChunkContinues(t: Db, es: seq<Order>, index: nat, n: nat, tx: Db)
    requires index + n <= |es| && PostAll(t, es[..index]) == Some(tx)
    ensures var chunk := es[index..index + n];
            var sent := RunBatch(tx, Sets(chunk) + Credits(chunk));
            sent == PostAll(t, es[..index + n]) && (sent.None? ==> PostAll(t, es).None?)
  {
    var chunk := es[index..index + n];
    ChunkIsOneByOne(tx, chunk);
    PostConcat(t, es[..index], chunk);
    assert es[..index] + chunk == es[..index + n];
    PostConcat(t, es[..index + n], es[index + n..]);
    assert es[..index + n] + es[index + n..] == es;
  }

  // ---------------------------------------------------------------- what a batch leaves behind

  /** The accruals a batch credits to a user. */
  ghost function CreditedBy(es: seq<Order>, user: nat): int {
    if es == [] then 0
    else EntryFor(Entry(es[0].userId, Cents(es[0].accrual)), user) + CreditedBy(es[1..], user)
  }

  /** Entries about the same order are the same entry. */
  ghost predicate OneEntryPerOrder(es: seq<Order>) {
    forall e, f :: e in es && f in es && e.orderId == f.orderId ==> e == f
  }

  /** Every existing row that is named takes its entry's status and accrual and keeps its
      owner; no other row changes, none appears or disappears. */
  lemma {:induction false} BatchOrders(t: Db, es: seq<Order>)
    requires OneEntryPerOrder(es) && PostAll(t, es).Some?
    ensures var u := PostAll(t, es).value;
            && u.orders.Keys == t.orders.Keys
            && u.withdrawals == t.withdrawals
            && (forall e :: e in es ==> !e.status.Garbled?)
            && (forall e :: e in es && e.orderId in t.orders ==>
                  u.orders[e.orderId] == t.orders[e.orderId].(status := e.status, accrual := Cents(e.accrual)))
            && (forall id :: id in t.orders && (forall e :: e in es ==> e.orderId != id) ==>
                  u.orders[id] == t.orders[id])
    decreases |es|
  {
    if es == [] {
    } else {
      var e, rest, t1 := es[0], es[1..], Post(t, es[0]).value;
      assert forall f :: f in es <==> f == e || f in rest;
      BatchOrders(t1, rest);
    }
  }

  lemma {:induction false} PostBalance(t: Db, e: Order)
    requires Post(t, e).Some?
    ensures forall user: nat :: Bal(Post(t, e).value, user).withdrawn == Bal(t, user).withdrawn
              && Bal(Post(t, e).value, user).current
                 == Bal(t, user).current + EntryFor(Entry(e.userId, Cents(e.accrual)), user)
    ensures Post(t, e).value.balances.Keys == t.balances.Keys + {e.userId}
  {
  }

  /** Every balance grows by what is credited to its user; nothing is withdrawn. */
  lemma {:induction false} BatchBalances(t: Db, es: seq<Order>)
    requires PostAll(t, es).Some?
    ensures var u := PostAll(t, es).value;
            && (forall user: nat :: Bal(u, user).withdrawn == Bal(t, user).withdrawn
                  && Bal(u, user).current == Bal(t, user).current + CreditedBy(es, user))
            && (forall user :: user in u.balances <==> user in t.balances || exists e :: e in es && e.userId == user)
    decreases |es|
  {
    if es == [] {
    } else {
      var e, rest, t1 := es[0], es[1..], Post(t, es[0]).value;
      assert forall f :: f in es <==> f == e || f in rest;
      PostBalance(t, e);
      BatchBalances(t1, rest);
    }
  }

  /** A batch of distinct orders under their own owners. */
  lemma {:induction false} BatchEffect(t: Db, es: seq<Order>)
    requires DistinctIds(es) && OwnRows(t, es) && PostAll(t, es).Some?
    ensures var u := PostAll(t, es).value;
            && u.orders.Keys == t.orders.Keys
            && u.withdrawals == t.withdrawals
            && (forall i :: 0 <= i < |es| ==> !es[i].status.Garbled?)
            && (forall i :: 0 <= i < |es| ==>
                  u.orders[es[i].orderId] == OrderRow(es[i].userId, es[i].status, Cents(es[i].accrual)))
            && (forall id :: id in t.orders && (forall i :: 0 <= i < |es| ==> es[i].orderId != id) ==>
                  u.orders[id] == t.orders[id])
            && (forall user: nat :: Bal(u, user).withdrawn == Bal(t, user).withdrawn
                  && Bal(u, user).current == Bal(t, user).current + CreditedBy(es, user))
            && (forall user :: user in t.balances ==> user in u.balances)
  {
    BatchOrders(t, es);
    BatchBalances(t, es);
    assert forall i :: 0 <= i < |es| ==> es[i] in es;
  }

  // ---------------------------------------------------------------- when a batch goes through

  ghost predicate NonNegative(es: seq<Order>) {
    forall e :: e in es ==> e.accrual >= 0.0
  }

  ghost predicate TotalsFit(t: Db, es: seq<Order>) {
    forall user: nat :: FitsCell(Bal(t, user).current + CreditedBy(es, user))
  }

  /** No balance leaves its cell at any point of the one-by-one pass. */
  ghost predicate PrefixesFit(t: Db, es: seq<Order>) {
    forall k: nat, user: nat :: k <= |es| ==> FitsCell(Bal(t, user).current + CreditedBy(es[..k], user))
  }

  lemma {:induction false} PostAccepted(t: Db, e: Order)
    requires CellsFit(t)
    ensures Post(t, e).Some? <==> Storable(e) && FitsCell(Bal(t, e.userId).current + Cents(e.accrual))
    ensures Post(t, e).Some? ==> CellsFit(Post(t, e).value)
  {
  }

  lemma {:induction false} PrefixesShift(t: Db, t': Db, es: seq<Order>)
    requires es != [] && CellsFit(t)
    requires forall user: nat :: Bal(t', user).current
               == Bal(t, user).current + EntryFor(Entry(es[0].userId, Cents(es[0].accrual)), user)
    ensures PrefixesFit(t, es) <==> PrefixesFit(t', es[1..])
  {
    var rest := es[1..];
    forall k: nat, user: nat | k <= |rest|
      ensures Bal(t', user).current + CreditedBy(rest[..k], user)
           == Bal(t, user).current + CreditedBy(es[..k + 1], user)
    {
      assert es[..k + 1][1..] == rest[..k];
    }
    if PrefixesFit(t, es) {
      forall k: nat, user: nat | k <= |rest|
        ensures FitsCell(Bal(t', user).current + CreditedBy(rest[..k], user))
      {
        assert FitsCell(Bal(t, user).current + CreditedBy(es[..k + 1], user));
      }
    }
    if PrefixesFit(t', rest) {
      forall k: nat, user: nat | k <= |es|
        ensures FitsCell(Bal(t, user).current + CreditedBy(es[..k], user))
      {
        if k > 0 {
          assert FitsCell(Bal(t', user).current + CreditedBy(rest[..k - 1], user));
        }
      }
    }
  }

  lemma {:induction false} PassCellsFit(t: Db, es: seq<Order>)
    requires CellsFit(t)
    ensures PostAll(t, es).Some? ==> CellsFit(PostAll(t, es).value)
    decreases |es|
  {
    if es == [] {
    } else {
      PostAccepted(t, es[0]);
      if Post(t, es[0]).Some? {
        PassCellsFit(Post(t, es[0]).value, es[1..]);
      }
    }
  }

  /** Whatever the signs, a batch goes through exactly when every entry is storable and no
      balance leaves its cell on the way: one garbled reply is enough to hold back all the
      other orders of its cycle. */
  lemma {:induction false} BatchAcceptedExact(t: Db, es: seq<Order>)
    requires CellsFit(t)
    ensures PostAll(t, es).Some? <==> (forall e :: e in es ==> Storable(e)) && PrefixesFit(t, es)
    decreases |es|
  {
    if es == [] {
      assert forall k: nat :: k <= |es| ==> es[..k] == [];
    } else {
      var e, rest := es[0], es[1..];
      assert forall f :: f in es <==> f == e || f in rest;
      PostAccepted(t, e);
      if Post(t, e).Some? {
        PostBalance(t, e);
        BatchAcceptedExact(Post(t, e).value, rest);
        PrefixesShift(t, Post(t, e).value, es);
      } else if Storable(e) {
        assert es[..1] == [e];
        assert CreditedBy([e], e.userId) == Cents(e.accrual) + CreditedBy([], e.userId);
        assert !FitsCell(Bal(t, e.userId).current + CreditedBy(es[..1], e.userId));
      }
    }
  }

  // ---------------------------------------------------------------- order of the entries

  lemma {:induction false} MultisetMiddle<T>(before: seq<T>, x: T, after: seq<T>)
    ensures multiset(before + [x] + after) - multiset{x} == multiset(before + after)
  {
  }

  lemma {:induction false} Extract<T>(es: seq<T>, fs: seq<T>) returns (before: seq<T>, after: seq<T>)
    requires es != [] && multiset(es) == multiset(fs)
    ensures fs == before + [es[0]] + after
    ensures multiset(es[1..]) == multiset(before + after)
  {
    assert es[0] in multiset(fs);
    var i :| 0 <= i < |fs| && fs[i] == es[0];
    before, after := fs[..i], fs[i + 1..];
    assert es == [es[0]] + es[1..] && fs == before + [es[0]] + after;
    MultisetMiddle(before, es[0], after);
    assert multiset(es[1..]) == multiset(es) - multiset{es[0]};
  }

  lemma {:induction false} CreditedConcat(a: seq<Order>, b: seq<Order>, user: nat)
    ensures CreditedBy(a + b, user) == CreditedBy(a, user) + CreditedBy(b, user)
  {
    if a == [] {
      assert a + b == b;
    } else {
      CreditedConcat(a[1..], b, user);
      assert (a + b)[0] == a[0] && (a + b)[1..] == a[1..] + b;
    }
  }

  lemma {:induction false} CreditedPermuted(es: seq<Order>, fs: seq<Order>, user: nat)
    requires multiset(es) == multiset(fs)
    ensures CreditedBy(es, user) == CreditedBy(fs, user)
    decreases |es|
  {
    if es == [] {
      assert |multiset(fs)| == 0;
    } else {
      var before, after := Extract(es, fs);
      CreditedPermuted(es[1..], before + after, user);
      CreditedConcat(before, after, user);
      CreditedConcat(before + [es[0]], after, user);
      CreditedConcat(before, [es[0]], user);
      assert CreditedBy([es[0]], user)
          == EntryFor(Entry(es[0].userId, Cents(es[0].accrual)), user) + CreditedBy([], user);
    }
  }

  lemma {:induction false} PermutedOrders(t: Db, es: seq<Order>, fs: seq<Order>)
    requires (forall e :: e in es <==> e in fs) && OneEntryPerOrder(es)
    requires PostAll(t, es).Some? && PostAll(t, fs).Some?
    ensures PostAll(t, es).value.orders == PostAll(t, fs).value.orders
    ensures PostAll(t, es).value.withdrawals == PostAll(t, fs).value.withdrawals
  {
    var u, v := PostAll(t, es).value, PostAll(t, fs).value;
    BatchOrders(t, es);
    BatchOrders(t, fs);
    forall id | id in u.orders
      ensures u.orders[id] == v.orders[id]
    {
      if e :| e in es && e.orderId == id {
        assert e in fs;
      }
    }
  }

  lemma {:induction false} SameMembers<T>(es: seq<T>, fs: seq<T>)
    requires multiset(es) == multiset(fs)
    ensures forall e :: e in es <==> e in fs
  {
    assert forall e :: e in es <==> e in multiset(es);
    assert forall e :: e in fs <==> e in multiset(fs);
  }

  lemma {:induction false} PermutedBalances(t: Db, es: seq<Order>, fs: seq<Order>)
    requires multiset(es) == multiset(fs) && PostAll(t, es).Some? && PostAll(t, fs).Some?
    ensures PostAll(t, es).value.balances == PostAll(t, fs).value.balances
  {
    var u, v := PostAll(t, es).value, PostAll(t, fs).value;
    SameMembers(es, fs);
    BatchBalances(t, es);
    BatchBalances(t, fs);
    forall user: nat
      ensures Bal(u, user) == Bal(v, user)
    {
      CreditedPermuted(es, fs, user);
    }
    assert forall user :: user in u.balances ==> u.balances[user] == Bal(u, user) && v.balances[user] == Bal(v, user);
  }

  /** Whatever the signs, two orders of the same entries that both go through end alike. */
  lemma {:induction false} PermutedResult(t: Db, es: seq<Order>, fs: seq<Order>)
    requires multiset(es) == multiset(fs) && OneEntryPerOrder(es)
    requires PostAll(t, es).Some? && PostAll(t, fs).Some?
    ensures PostAll(t, es) == PostAll(t, fs)
  {
    SameMembers(es, fs);
    PermutedOrders(t, es, fs);
    PermutedBalances(t, es, fs);
  }

  /** The entries that take nothing from a balance, and those that do. */
  function Gains(es: seq<Order>): seq<Order> {
    if es == [] then [] else (if Cents(es[0].accrual) >= 0 then [es[0]] else []) + Gains(es[1..])
  }

  function Losses(es: seq<Order>): seq<Order> {
    if es == [] then [] else (if Cents(es[0].accrual) < 0 then [es[0]] else []) + Losses(es[1..])
  }

  lemma {:induction false} GainsAndLosses(es: seq<Order>, e: Order)
    ensures multiset(Gains(es))[e] == if Cents(e.accrual) >= 0 then multiset(es)[e] else 0
    ensures multiset(Losses(es))[e] == if Cents(e.accrual) < 0 then multiset(es)[e] else 0
  {
    if es == [] {
    } else {
      GainsAndLosses(es[1..], e);
      assert es == [es[0]] + es[1..];
    }
  }

  /** Wherever a pass has got to, a user has been credited at least all the losses and at most
      all the gains. */
  lemma {:induction false} PrefixBetween(es: seq<Order>, k: nat, user: nat)
    requires k <= |es|
    ensures CreditedBy(Losses(es), user) <= CreditedBy(es[..k], user) <= CreditedBy(Gains(es), user)
  {
    if es == [] {
    } else {
      var first := [es[0]];
      PrefixBetween(es[1..], if k == 0 then 0 else k - 1, user);
      CreditedConcat(if Cents(es[0].accrual) >= 0 then first else [], Gains(es[1..]), user);
      CreditedConcat(if Cents(es[0].accrual) < 0 then first else [], Losses(es[1..]), user);
      assert CreditedBy(first, user)
          == EntryFor(Entry(es[0].userId, Cents(es[0].accrual)), user) + CreditedBy([], user);
      if k > 0 {
        assert es[..k][1..] == es[1..][..k - 1];
      }
    }
  }

  /** Every balance has room for all the gains of a batch, and for all its losses. */
  ghost predicate RoomBothWays(t: Db, es: seq<Order>) {
    forall user: nat ::
      && FitsCell(Bal(t, user).current + CreditedBy(Gains(es), user))
      && FitsCell(Bal(t, user).current + CreditedBy(Losses(es), user))
  }

  lemma {:induction false} RoomInAnyOrder(t: Db, es: seq<Order>, fs: seq<Order>)
    requires CellsFit(t) && multiset(fs) == multiset(es)
    requires (forall e :: e in es ==> Storable(e)) && RoomBothWays(t, es)
    ensures PostAll(t, fs).Some?
  {
    SameMembers(es, fs);
    forall e
      ensures multiset(Gains(es))[e] == multiset(Gains(fs))[e] && multiset(Losses(es))[e] == multiset(Losses(fs))[e]
    {
      GainsAndLosses(es, e);
      GainsAndLosses(fs, e);
    }
    assert multiset(Gains(es)) == multiset(Gains(fs)) && multiset(Losses(es)) == multiset(Losses(fs));
    forall k: nat, user: nat | k <= |fs|
      ensures FitsCell(Bal(t, user).current + CreditedBy(fs[..k], user))
    {
      PrefixBetween(fs, k, user);
      CreditedPermuted(Gains(es), Gains(fs), user);
      CreditedPermuted(Losses(es), Losses(fs), user);
    }
    BatchAcceptedExact(t, fs);
  }

  /** The two extreme orders: all gains first, and all losses first. */
  lemma {:induction false} ExtremeOrders(t: Db, es: seq<Order>)
    requires CellsFit(t)
    requires PostAll(t, Gains(es) + Losses(es)).Some? && PostAll(t, Losses(es) + Gains(es)).Some?
    ensures RoomBothWays(t, es)
  {
    var up, down := Gains(es), Losses(es);
    BatchAcceptedExact(t, up + down);
    BatchAcceptedExact(t, down + up);
    forall user: nat
      ensures FitsCell(Bal(t, user).current + CreditedBy(up, user))
      ensures FitsCell(Bal(t, user).current + CreditedBy(down, user))
    {
      assert (up + down)[..|up|] == up && (down + up)[..|down|] == down;
    }
  }

  ghost predicate AcceptedInAnyOrder(t: Db, es: seq<Order>) {
    forall fs :: multiset(fs) == multiset(es) ==> PostAll(t, fs).Some?
  }

  /** Exactly when the order of the entries cannot decide whether a batch goes through: every
      entry is storable, and every balance has room for all its gains and for all its losses. */
  lemma {:induction false} AnyOrderAcceptedExact(t: Db, es: seq<Order>)
    requires CellsFit(t)
    ensures AcceptedInAnyOrder(t, es) <==> (forall e :: e in es ==> Storable(e)) && RoomBothWays(t, es)
  {
    if AcceptedInAnyOrder(t, es) {
      forall e
        ensures multiset(Gains(es) + Losses(es))[e] == multiset(es)[e]
      {
        GainsAndLosses(es, e);
      }
      assert multiset(Gains(es) + Losses(es)) == multiset(es) == multiset(Losses(es) + Gains(es));
      ExtremeOrders(t, es);
      BatchAcceptedExact(t, es);
    } else if (forall e :: e in es ==> Storable(e)) && RoomBothWays(t, es) {
      var fs :| multiset(fs) == multiset(es) && PostAll(t, fs).None?;
      RoomInAnyOrder(t, es, fs);
    }
  }

  lemma {:induction false} OnlyGains(es: seq<Order>)
    requires NonNegative(es)
    ensures Gains(es) == es && Losses(es) == []
  {
    if es == [] {
    } else {
      CentsMonotone(0.0, es[0].accrual);
      assert Cents(0.0) == 0;
      OnlyGains(es[1..]);
      assert es == [es[0]] + es[1..];
    }
  }

  lemma {:induction false} CreditedNotNegative(es: seq<Order>, user: nat)
    requires NonNegative(es)
    ensures CreditedBy(es, user) >= 0
  {
    OnlyGains(es);
    PrefixBetween(es, |es|, user);
    assert es[..|es|] == es;
  }

  lemma {:induction false} RoomForTotals(t: Db, es: seq<Order>)
    requires CellsFit(t) && NonNegative(es)
    ensures RoomBothWays(t, es) <==> TotalsFit(t, es)
  {
    OnlyGains(es);
    forall user: nat
      ensures CreditedBy(Gains(es), user) == CreditedBy(es, user)
      ensures FitsCell(Bal(t, user).current + CreditedBy(Losses(es), user))
    {
    }
    if RoomBothWays(t, es) {
      forall user: nat
        ensures FitsCell(Bal(t, user).current + CreditedBy(es, user))
      {
        assert FitsCell(Bal(t, user).current + CreditedBy(Gains(es), user));
      }
    }
  }

  lemma {:induction false} PassFitsTotals(t: Db, es: seq<Order>)
    requires CellsFit(t) && PostAll(t, es).Some?
    ensures TotalsFit(t, es)
  {
    BatchAcceptedExact(t, es);
    forall user: nat
      ensures FitsCell(Bal(t, user).current + CreditedBy(es, user))
    {
      assert es[..|es|] == es;
      assert FitsCell(Bal(t, user).current + CreditedBy(es[..|es|], user));
    }
  }

  /** Without negative accruals, only the totals count. */
  lemma {:induction false} GrowingBatchAccepted(t: Db, es: seq<Order>)
    requires CellsFit(t) && NonNegative(es)
    ensures PostAll(t, es).Some? <==> (forall e :: e in es ==> Storable(e)) && TotalsFit(t, es)
    ensures PostAll(t, es).Some? <==> AcceptedInAnyOrder(t, es)
  {
    AnyOrderAcceptedExact(t, es);
    RoomForTotals(t, es);
    if PostAll(t, es).Some? {
      BatchAcceptedExact(t, es);
      PassFitsTotals(t, es);
    }
  }

  lemma {:induction false} CreditedOneWay(es: seq<Order>, user: nat)
    ensures (forall e :: e in es && e.userId == user ==> Cents(e.accrual) >= 0) ==> CreditedBy(es, user) >= 0
    ensures (forall e :: e in es && e.userId == user ==> Cents(e.accrual) < 0) ==> CreditedBy(es, user) <= 0
  {
    if es == [] {
    } else {
      CreditedOneWay(es[1..], user);
    }
  }

  /** Among entries whose totals fit there is always one that can be posted next: one that takes
      the balance of its user towards zero or, when there is none, any, since the total fits. */
  lemma {:induction false} OneCanBeNext(t: Db, es: seq<Order>) returns (i: nat)
    requires es != [] && CellsFit(t) && (forall e :: e in es ==> Storable(e)) && TotalsFit(t, es)
    ensures i < |es| && FitsCell(Bal(t, es[i].userId).current + Cents(es[i].accrual))
  {
    var user := es[0].userId;
    var current := Bal(t, user).current;
    if k: nat :| k < |es| && es[k].userId == user && (current >= 0 <==> Cents(es[k].accrual) < 0) {
      assert Storable(es[k]);
      i := k;
    } else {
      i := 0;
      assert forall e :: e in es[1..] ==> e in es;
      CreditedOneWay(es[1..], user);
      assert FitsCell(current + CreditedBy(es, user));
    }
  }

  lemma {:induction false} OneTakenOut(es: seq<Order>, i: nat, user: nat)
    requires i < |es|
    ensures CreditedBy(es, user)
         == EntryFor(Entry(es[i].userId, Cents(es[i].accrual)), user) + CreditedBy(es[..i] + es[i + 1..], user)
  {
    assert es == es[..i] + ([es[i]] + es[i + 1..]);
    CreditedConcat(es[..i], [es[i]] + es[i + 1..], user);
    CreditedConcat(es[..i], es[i + 1..], user);
    assert ([es[i]] + es[i + 1..])[1..] == es[i + 1..];
  }

  lemma {:induction false} TakenOutFirst<T>(es: seq<T>, i: nat, later: seq<T>)
    requires i < |es| && multiset(later) == multiset(es[..i] + es[i + 1..])
    ensures multiset([es[i]] + later) == multiset(es)
  {
    assert es == es[..i] + [es[i]] + es[i + 1..];
  }

  lemma {:induction false} ArrangeBatch(t: Db, es: seq<Order>) returns (fs: seq<Order>)
    requires CellsFit(t) && (forall e :: e in es ==> Storable(e)) && TotalsFit(t, es)
    ensures multiset(fs) == multiset(es) && PostAll(t, fs).Some?
    decreases |es|
  {
    if es == [] {
      fs := [];
    } else {
      var i := OneCanBeNext(t, es);
      var e, rest := es[i], es[..i] + es[i + 1..];
      PostAccepted(t, e);
      PostBalance(t, e);
      var t' := Post(t, e).value;
      forall user: nat
        ensures FitsCell(Bal(t', user).current + CreditedBy(rest, user))
      {
        OneTakenOut(es, i, user);
        assert FitsCell(Bal(t, user).current + CreditedBy(es, user));
      }
      var later := ArrangeBatch(t', rest);
      fs := [e] + later;
      assert fs[1..] == later;
      TakenOutFirst(es, i, later);
    }
  }

  ghost predicate AcceptedInSomeOrder(t: Db, es: seq<Order>) {
    exists fs :: multiset(fs) == multiset(es) && PostAll(t, fs).Some?
  }

  lemma {:induction false} AcceptedMeansFits(t: Db, es: seq<Order>, fs: seq<Order>)
    requires CellsFit(t) && multiset(fs) == multiset(es) && PostAll(t, fs).Some?
    ensures (forall e :: e in es ==> Storable(e)) && TotalsFit(t, es)
  {
    SameMembers(es, fs);
    BatchAcceptedExact(t, fs);
    PassFitsTotals(t, fs);
    forall user: nat
      ensures FitsCell(Bal(t, user).current + CreditedBy(es, user))
    {
      CreditedPermuted(es, fs, user);
      assert FitsCell(Bal(t, user).current + CreditedBy(fs, user));
    }
  }

  /** Exactly when some order of the entries goes through, whatever their signs: when every entry
      is storable and every user's total fits its cell. */
  lemma {:induction false} SomeOrderAcceptedExact(t: Db, es: seq<Order>)
    requires CellsFit(t)
    ensures AcceptedInSomeOrder(t, es) <==> (forall e :: e in es ==> Storable(e)) && TotalsFit(t, es)
  {
    if AcceptedInSomeOrder(t, es) {
      var fs :| multiset(fs) == multiset(es) && PostAll(t, fs).Some?;
      AcceptedMeansFits(t, es, fs);
    } else if (forall e :: e in es ==> Storable(e)) && TotalsFit(t, es) {
      var fs := ArrangeBatch(t, es);
    }
  }

  ghost predicate OrderIrrelevant(t: Db, es: seq<Order>) {
    forall fs :: multiset(fs) == multiset(es) ==> PostAll(t, fs) == PostAll(t, es)
  }

  /** Exactly when the order of the entries decides nothing at all: when no order goes through,
      or every balance has room for all its gains and for all its losses. */
  lemma {:induction false} OrderIrrelevantExact(t: Db, es: seq<Order>)
    requires CellsFit(t) && OneEntryPerOrder(es)
    ensures OrderIrrelevant(t, es)
       <==> !(forall e :: e in es ==> Storable(e)) || !TotalsFit(t, es) || RoomBothWays(t, es)
  {
    SomeOrderAcceptedExact(t, es);
    AnyOrderAcceptedExact(t, es);
    if OrderIrrelevant(t, es) {
      if AcceptedInSomeOrder(t, es) {
        var fs :| multiset(fs) == multiset(es) && PostAll(t, fs).Some?;
        assert PostAll(t, fs) == PostAll(t, es);
        forall gs | multiset(gs) == multiset(es)
          ensures PostAll(t, gs).Some?
        {
          assert PostAll(t, gs) == PostAll(t, es);
        }
      }
    } else {
      var fs :| multiset(fs) == multiset(es) && PostAll(t, fs) != PostAll(t, es);
      if AcceptedInAnyOrder(t, es) {
        PermutedResult(t, es, fs);
      }
      assert AcceptedInSomeOrder(t, es);
    }
  }

  /** Without negative accruals, or with room both ways, no order of the entries differs. */
  lemma {:induction false} PermutedBatch(t: Db, es: seq<Order>, fs: seq<Order>)
    requires CellsFit(t) && multiset(es) == multiset(fs) && OneEntryPerOrder(es)
    ensures (forall e :: e in es ==> e.accrual >= 0.0) || RoomBothWays(t, es) ==> PostAll(t, es) == PostAll(t, fs)
  {
    OrderIrrelevantExact(t, es);
    if NonNegative(es) {
      RoomForTotals(t, es);
    }
  }

  /** With a negative accrual the order can decide: at a full cell a cent may be taken and then
      given, but not given and then taken. */
  lemma {:induction false} OrderMattersAtTheLimit()
    ensures var t := Db(map[], map[7 := BalanceRow(CELL_LIMIT - 1, 0)], map[]);
            var give, take := Order(0, 7, PROCESSED, 0.01), Order(18, 7, PROCESSED, -0.01);
            PostAll(t, [give, take]).None? && PostAll(t, [take, give]).Some?
  {
    assert Cents(0.01) == 1 && Cents(-0.01) == -1;
    var t := Db(map[], map[7 := BalanceRow(CELL_LIMIT - 1, 0)], map[]);
    var give, take := Order(0, 7, PROCESSED, 0.01), Order(18, 7, PROCESSED, -0.01);
    assert Post(t, give).None?;
    assert [take, give][1..] == [give];
    PostOne(Post(t, take).value, give);
  }
}
