/**
  The request side of internal/gophermart/service/service.go, and the loop with which
  `SendOrdersToAccrual` drains the results channel.
 */
module Service {
  import Ledger
  import opened Luhn
  import opened Money
  import opened Pg
  import opened Pool
  import opened Tables
  import opened Wrappers

  // ---------------------------------------------------------------- number parsing

  predicate IsDigits(s: string) {
    s != "" && forall i :: 0 <= i < |s| ==> '0' <= s[i] <= '9'
  }

  function DigitsOf(s: string): seq<Digit>
    requires IsDigits(s)
  {
    seq(|s|, i requires 0 <= i < |s| => s[i] as int - '0' as int)
  }

  /** Base-10 parsing into 64 bits: digits only, leading zeros allowed, no overflow. */
  function ParseUint(s: string): Option<uint64> {
    if IsDigits(s) && Value(DigitsOf(s)) < 0x1_0000_0000_0000_0000 then Some(Value(DigitsOf(s)) as uint64) else None
  }

  /** The decimal text of a number. */
  function Text(n: nat): string {
    if n < 10 then ["0123456789"[n]] else Text(n / 10) + ["0123456789"[n % 10]]
  }

  lemma {:induction false} DigitChar(d: Digit)
    ensures "0123456789"[d] as int == '0' as int + d && '0' <= "0123456789"[d] <= '9'
  {
  }

  lemma {:induction false} DigitsAppend(s: string, c: char)
    requires IsDigits(s) && '0' <= c <= '9'
    ensures IsDigits(s + [c])
    ensures Value(DigitsOf(s + [c])) == 10 * Value(DigitsOf(s)) + (c as int - '0' as int)
  {
    var all := DigitsOf(s + [c]);
    assert all[..|all| - 1] == DigitsOf(s);
  }

  lemma {:induction false} TextReads(n: nat)
    ensures IsDigits(Text(n)) && Value(DigitsOf(Text(n))) == n
  {
    DigitChar(n % 10);
    if n < 10 {
      assert DigitsOf(Text(n)) == [n] && [n][..0] == [];
      assert Value([n]) == 10 * Value([]) + n;
    } else {
      TextReads(n / 10);
      DigitsAppend(Text(n / 10), "0123456789"[n % 10]);
    }
  }

  function Zeros(k: nat): string {
    if k == 0 then "" else Zeros(k - 1) + "0"
  }

  /** The decimal text of a number behind any number of zeros. */
  function Padded(zeros: nat, n: nat): string {
    Zeros(zeros) + Text(n)
  }

  lemma {:induction false} ZerosRead(zeros: nat)
    ensures zeros > 0 ==> IsDigits(Zeros(zeros)) && Value(DigitsOf(Zeros(zeros))) == 0
  {
    if zeros == 0 {
    } else if zeros == 1 {
      assert Zeros(1) == Text(0) by {
        assert Zeros(1) == Zeros(0) + "0" == "0";
      }
      TextReads(0);
    } else {
      ZerosRead(zeros - 1);
      DigitsAppend(Zeros(zeros - 1), '0');
    }
  }

  lemma {:induction false} PaddedReads(zeros: nat, n: nat)
    ensures IsDigits(Padded(zeros, n)) && Value(DigitsOf(Padded(zeros, n))) == n
  {
    if n < 10 {
      DigitChar(n);
      ZerosRead(zeros);
      assert Padded(zeros, n) == Zeros(zeros) + ["0123456789"[n]];
      if zeros == 0 {
        TextReads(n);
        assert Padded(0, n) == Text(n);
      } else {
        DigitsAppend(Zeros(zeros), "0123456789"[n]);
      }
    } else {
      DigitChar(n % 10);
      PaddedReads(zeros, n / 10);
      DigitsAppend(Padded(zeros, n / 10), "0123456789"[n % 10]);
      assert Padded(zeros, n) == Padded(zeros, n / 10) + ["0123456789"[n % 10]];
    }
  }

  lemma {:induction false} OneDigit(c: char)
    requires '0' <= c <= '9'
    ensures IsDigits([c]) && Value(DigitsOf([c])) == c as int - '0' as int && Text(c as int - '0' as int) == [c]
  {
    var d: Digit := c as int - '0' as int;
    DigitChar(d);
    TextReads(d);
    assert Text(d) == [c];
  }

  lemma {:induction false} OneMoreDigit(init: string, k: nat, m: nat, c: char) returns (zeros: nat)
    requires init == Padded(k, m) && '0' <= c <= '9'
    ensures init + [c] == Padded(zeros, 10 * m + (c as int - '0' as int))
  {
    OneDigit(c);
    var d: Digit := c as int - '0' as int;
    if m == 0 {
      assert Text(0) == "0";
      assert init == Zeros(k + 1);
      zeros := k + 1;
    } else {
      zeros := k;
      DigitChar(d);
      assert (10 * m + d) / 10 == m && (10 * m + d) % 10 == d;
      assert Text(10 * m + d) == Text(m) + [c];
      assert init + [c] == Zeros(k) + (Text(m) + [c]);
    }
  }

  lemma {:induction false} ReadsText(s: string) returns (zeros: nat)
    requires IsDigits(s)
    ensures s == Padded(zeros, Value(DigitsOf(s)))
    decreases |s|
  {
    var init, c := s[..|s| - 1], s[|s| - 1];
    assert s == init + [c];
    OneDigit(c);
    if |s| == 1 {
      assert s == [c];
      zeros := 0;
    } else {
      var k := ReadsText(init);
      DigitsAppend(init, c);
      zeros := OneMoreDigit(init, k, Value(DigitsOf(init)), c);
    }
  }

  /** Parsing reads decimal text: a text is accepted for n exactly when n has 64 bits and the
      text is its decimal form behind any number of zeros. */
  lemma {:induction false} ParseExact(s: string, n: nat)
    ensures ParseUint(s).Some? && ParseUint(s).value as nat == n
       <==> n <= 18_446_744_073_709_551_615 && exists zeros: nat :: s == Padded(zeros, n)
  {
    if ParseUint(s).Some? {
      var zeros := ReadsText(s);
    }
    if zeros: nat :| s == Padded(zeros, n) {
      PaddedReads(zeros, n);
    }
  }

  /** A text the service takes for an order number: digits that satisfy the Luhn formula of
      ISO/IEC 7812-1, Annex B, and denote a 64-bit number. */
  predicate OrderNumber(s: string) {
    IsDigits(s) && ValidDigits(DigitsOf(s)) && Value(DigitsOf(s)) < 0x1_0000_0000_0000_0000
  }

  lemma {:induction false} OrderNumberParses(s: string)
    ensures OrderNumber(s) <==> ParseUint(s).Some? && ValidNumber(ParseUint(s).value as int)
  {
    if IsDigits(s) {
      LoopMeetsStandard(DigitsOf(s));
    }
  }

  datatype Report = Succeeded | Loaded | LoadedByOther | BadUser | BadNumber | BalanceNotEnough | InternalFailure

  /** What the ledger's record says about a registration that reports r. */
  function VerdictOf(r: Report): Ledger.Verdict {
    match r
    case Succeeded => Ledger.Accepted
    case Loaded => Ledger.AlreadyLoaded
    case LoadedByOther => Ledger.OtherUser
    case _ => Ledger.InternalError
  }

  class HandleService {
    const store: PgStore

    constructor (store: PgStore)
      ensures this.store == store
    {
      this.store := store;
    }

    /** The number is checked before the user; every outcome but `Succeeded` leaves the tables alone. */
    method RegisterOrder(userIDStr: string, orderIDStr: string, insertFails: bool, lookupFails: bool)
      returns (r: Report)
      modifies store
      ensures r == BadNumber <==> !OrderNumber(orderIDStr)
      ensures r == BadUser <==> OrderNumber(orderIDStr) && ParseUint(userIDStr).None?
      ensures r == Succeeded ==>
                var id, user := Value(DigitsOf(orderIDStr)), Value(DigitsOf(userIDStr));
                && id !in old(store.orders)
                && store.Contents() == old(store.Contents()).(orders := old(store.orders)[id := OrderRow(user, NEW, 0)])
      ensures r != Succeeded ==> store.Contents() == old(store.Contents())
      ensures r == Loaded || r == LoadedByOther ==>
                var id, user := Value(DigitsOf(orderIDStr)), Value(DigitsOf(userIDStr));
                id in old(store.orders) && (r == Loaded <==> old(store.orders)[id].owner == user)
      ensures r == InternalFailure ==>
                insertFails || lookupFails
                || !FitsBigint(Value(DigitsOf(orderIDStr))) || !FitsBigint(Value(DigitsOf(userIDStr)))
      ensures r != BadNumber && r != BadUser ==>
                var id, user := Value(DigitsOf(orderIDStr)), Value(DigitsOf(userIDStr));
                ValidNumber(id)
                && var alone := Ledger.RegisterAlone(old(store.Contents()), user, id, insertFails, lookupFails);
                store.Contents() == alone.db && alone.answers == [Ledger.Answer(id, user, VerdictOf(r))]
    {
      OrderNumberParses(orderIDStr);
      var orderID := ParseUint(orderIDStr);
      if orderID.None? {
        return BadNumber;
      }
      var valid := ValidLuhn(orderID.value);
      if !valid {
        return BadNumber;
      }
      var userID := ParseUint(userIDStr);
      if userID.None? {
        return BadUser;
      }
      ghost var id, user := orderID.value as int, userID.value as int;
      assert Cents(0.0) == 0;
      Ledger.RegisterAloneAnswers(store.Contents(), user, id, insertFails, lookupFails);
      var outcome := store.InsertOrder(Order(orderID.value as int, userID.value as int, NEW, 0.0), insertFails);
      if outcome == AlreadyExists {
        var found, one := store.GetOneOrder(orderID.value as int, lookupFails);
        if found != Ok {
          return InternalFailure;
        }
        if one.userId != userID.value as int {
          return LoadedByOther;
        }
        return Loaded;
      }
      r := if outcome == Ok then Succeeded else InternalFailure;
    }

    /** The user is checked before the number. What succeeds was covered by the balance read,
        used a fresh order number and is recorded once. */
    method PostWithdraw(userIDStr: string, orderIDStr: string, sum: real, fault: Fault) returns (r: Report)
      modifies store
      ensures r == BadUser <==> ParseUint(userIDStr).None?
      ensures r == BadNumber <==> ParseUint(userIDStr).Some? && !OrderNumber(orderIDStr)
      ensures r == BalanceNotEnough <==>
                && ParseUint(userIDStr).Some? && OrderNumber(orderIDStr) && !fault.AtBegin?
                && var user := Value(DigitsOf(userIDStr));
                if fault.AtSelect? || user !in old(store.balances) then sum > 0.0
                else sum > old(store.balances)[user].current as real / 100.0
      ensures r == Succeeded ==>
                var id, user := Value(DigitsOf(orderIDStr)), Value(DigitsOf(userIDStr));
                && sum <= Amount(Bal(old(store.Contents()), user).current)
                && id !in old(store.withdrawals)
                && store.withdrawals == old(store.withdrawals)[id := WithdrawalRow(user, Cents(sum))]
                && store.orders == old(store.orders)
                && Bal(store.Contents(), user).withdrawn == Bal(old(store.Contents()), user).withdrawn + Cents(sum)
                && (user in old(store.balances) ==>
                      Bal(store.Contents(), user).current == old(store.balances)[user].current - Cents(sum))
      ensures r != Succeeded ==> store.Contents() == old(store.Contents())
      ensures r != BadNumber && r != BadUser ==>
                var id, user := Value(DigitsOf(orderIDStr)), Value(DigitsOf(userIDStr));
                ValidNumber(id)
                && store.Contents() == Ledger.WithdrawAlone(old(store.Contents()), Withdraw(id, user, sum), fault).db
    {
      OrderNumberParses(orderIDStr);
      var userID := ParseUint(userIDStr);
      if userID.None? {
        return BadUser;
      }
      var orderID := ParseUint(orderIDStr);
      if orderID.None? {
        return BadNumber;
      }
      var valid := ValidLuhn(orderID.value);
      if !valid {
        return BadNumber;
      }
      Ledger.WithdrawAloneFinishes(store.Contents(), Withdraw(orderID.value as int, userID.value as int, sum), fault);
      var outcome := store.InsertWithdraw(Withdraw(orderID.value as int, userID.value as int, sum), fault);
      if outcome == NotEnough {
        return BalanceNotEnough;
      }
      r := if outcome == Ok then Succeeded else InternalFailure;
    }

    /** A user without a balance row has zero of both. */
    method GetBalance(userIDStr: string, fails: bool) returns (r: Report, current: real, withdrawn: real)
      ensures r == BadNumber <==> ParseUint(userIDStr).None?
      ensures r == Succeeded <==> ParseUint(userIDStr).Some? && !fails
      ensures r == Succeeded ==>
                var user := Value(DigitsOf(userIDStr));
                if user in store.balances then
                  && current == store.balances[user].current as real / 100.0
                  && withdrawn == store.balances[user].withdrawn as real / 100.0
                else current == 0.0 && withdrawn == 0.0
    {
      r, current, withdrawn := BadNumber, 0.0, 0.0;
      var userID := ParseUint(userIDStr);
      if userID.Some? {
        var outcome, row := store.GetBalance(userID.value as int, fails);
        if outcome == RowNotFound {
          r := Succeeded;
        } else if outcome == Ok {
          r, current, withdrawn := Succeeded, Amount(row.current), Amount(row.withdrawn);
        } else {
          r := InternalFailure;
        }
      }
    }

    /** The consumer's loop over the results it receives, in the order it receives them; the
        context is cancelled from position `cancelledAt` on. */
    method DrainResults(received: seq<Result>, cancelledAt: nat)
      returns (ok: bool, resOrders: map<nat, Order>, waitSec: int)
      ensures ok <==> |received| <= cancelledAt
      ensures ok ==> Tally(resOrders, waitSec) == Fold(received)
      ensures !ok ==> resOrders == map[] && waitSec == 0
    {
      resOrders, waitSec := map[], 0;
      for k := 0 to |received|
        invariant k <= cancelledAt
        invariant Tally(resOrders, waitSec) == Fold(received[..k])
      {
        var res := received[k];
        if k >= cancelledAt {
          return false, map[], 0;
        }
        if !res.failed {
          if res.code == HTTP_SUCCESS {
            resOrders := resOrders[res.value.orderId := res.value];
          } else if res.code == HTTP_RETRY {
            if res.waitSec > waitSec {
              waitSec := res.waitSec;
            }
          }
        }
        assert received[..k + 1][..k] == received[..k];
      }
      assert received[..|received|] == received;
      ok := true;
    }
  }
}
