/**
  The order-number check of internal/common/utils/common.go.

  `ValidLuhn` and `ChecksumLuhn` are the two routines over machine integers.
  `DigitSum` is the Luhn formula of ISO/IEC 7812-1, Annex B, stated by position on a
  digit string; it does not mention division. The theorems connect the two and then
  give the error-detecting power of the check.
 */
module Luhn {

  newtype uint64 = x: int | 0 <= x < 0x1_0000_0000_0000_0000

  type Digit = d: int | 0 <= d <= 9

  // ---------------------------------------------------------------- the definition

  /** What one digit adds: the digit itself, or the digit sum of its double. */
  function Weight(d: Digit, doubled: bool): nat {
    if !doubled then d else if 2 * d > 9 then 2 * d - 9 else 2 * d
  }

  /** Whether position i of a string of n digits is doubled: every second digit, counted
      from the right, beginning with the one left of the check digit. */
  predicate Doubled(i: nat, n: nat)
    requires i < n
  {
    (n - 1 - i) % 2 == 1
  }

  /** The contributions of the first k digits of s. */
  function DigitSum(s: seq<Digit>, k: nat): nat
    requires k <= |s|
  {
    if k == 0 then 0 else DigitSum(s, k - 1) + Weight(s[k - 1], Doubled(k - 1, |s|))
  }

  predicate ValidDigits(s: seq<Digit>) {
    DigitSum(s, |s|) % 10 == 0
  }

  /** The number a digit string denotes. */
  function Value(s: seq<Digit>): nat {
    if s == [] then 0 else 10 * Value(s[..|s| - 1]) + s[|s| - 1]
  }

  // ---------------------------------------------------------------- the loop

  /** The sum the loop accumulates from n on, `doubled` telling what happens to n % 10. */
  function LoopSum(n: nat, doubled: bool): nat {
    if n == 0 then 0 else Weight(n % 10, doubled) + LoopSum(n / 10, !doubled)
  }

  predicate ValidNumber(n: nat) {
    LoopSum(n, false) % 10 == 0
  }

  function Pow10(k: nat): nat {
    if k == 0 then 1 else 10 * Pow10(k - 1)
  }

  lemma {:induction false} WordsHaveTwentyDigits()
    ensures Pow10(20) == 100000000000000000000
  {
    assert Pow10(5) == 100000;
    assert Pow10(10) == 10000000000;
    assert Pow10(15) == 1000000000000000;
  }

  lemma {:induction false} LoopStep(n: nat, even: bool, left: nat)
    requires 0 < n < Pow10(left)
    ensures left > 0 && n / 10 < Pow10(left - 1)
    ensures LoopSum(n, even) == Weight(n % 10, even) + LoopSum(n / 10, !even)
  {
  }

  lemma {:induction false} NextParity(i: nat)
    ensures (i + 1) % 2 == 1 - i % 2
  {
  }

  /** The digit sum of a doubled digit above 9. */
  lemma {:induction false} CrossSum(c: int)
    requires 10 <= c <= 18
    ensures c % 10 + c / 10 == c - 9
  {
  }

  /** Every operation below is on 64-bit words, so that it verifies says that nothing wraps. */
  method ChecksumLuhn(number0: uint64) returns (r: uint64)
    ensures r as int == LoopSum(number0 as int, true) % 10
  {
    var number, luhn: uint64, i: uint64 := number0, 0, 0;
    ghost var left: nat, even := 20, true;
    WordsHaveTwentyDigits();
    while number > 0
      invariant i as int + left == 20 && (number as int) < Pow10(left)
      invariant luhn <= 9 * i
      invariant (i as int) % 2 == if even then 0 else 1
      invariant LoopSum(number0 as int, true) == luhn as int + LoopSum(number as int, even)
      decreases number
    {
      ghost var n, before: int := number as int, luhn as int;
      LoopStep(n, even, left);
      var cur := number % 10;
      ghost var digit: Digit := n % 10;
      if i % 2 == 0 {
        cur := cur * 2;
        if cur > 9 {
          CrossSum(2 * digit);
          cur := cur % 10 + cur / 10;
        }
      }
      assert cur as int == Weight(digit, even);
      NextParity(i as int);
      luhn := luhn + cur;
      number := number / 10;
      i := i + 1;
      assert luhn as int + LoopSum(number as int, !even) == before + LoopSum(n, even);
      left, even := left - 1, !even;
    }
    r := luhn % 10;
  }

  // ---------------------------------------------------------------- loop against definition

  /** Both weights of each of the first k digits: what a string and its shift add up to. */
  ghost function PlainAndDoubled(s: seq<Digit>, k: nat): nat
    requires k <= |s|
  {
    if k == 0 then 0
    else PlainAndDoubled(s, k - 1) + Weight(s[k - 1], true) + Weight(s[k - 1], false)
  }

  /** Appending a digit moves every earlier digit one place away from the right end. */
  lemma {:induction false} FlipSum(s: seq<Digit>, t: seq<Digit>, k: nat)
    requires k <= |s| && |t| == |s| + 1 && t[..|s|] == s
    ensures DigitSum(t, k) + DigitSum(s, k) == PlainAndDoubled(s, k)
  {
    if k == 0 {
    } else {
      FlipSum(s, t, k - 1);
      assert t[k - 1] == t[..|s|][k - 1];
    }
  }

  lemma {:induction false} SamePrefix(s: seq<Digit>, t: seq<Digit>, k: nat)
    requires k <= |s| <= |t| && t[..|s|] == s
    ensures PlainAndDoubled(s, k) == PlainAndDoubled(t, k)
  {
    if k == 0 {
    } else {
      SamePrefix(s, t, k - 1);
      assert t[k - 1] == t[..|s|][k - 1];
    }
  }

  lemma {:induction false} SplitValue(p: nat, d: Digit, doubled: bool)
    ensures LoopSum(10 * p + d, doubled) == Weight(d, doubled) + LoopSum(p, !doubled)
  {
    assert (10 * p + d) % 10 == d && (10 * p + d) / 10 == p;
  }

  lemma {:induction false} SplitDigits(s: seq<Digit>, doubled: bool)
    requires s != []
    ensures LoopSum(Value(s), doubled) == Weight(s[|s| - 1], doubled) + LoopSum(Value(s[..|s| - 1]), !doubled)
  {
    SplitValue(Value(s[..|s| - 1]), s[|s| - 1], doubled);
  }

  lemma {:induction false} LoopIsDigitSum(s: seq<Digit>)
    ensures LoopSum(Value(s), false) == DigitSum(s, |s|)
    ensures LoopSum(Value(s), true) + DigitSum(s, |s|) == PlainAndDoubled(s, |s|)
  {
    if s == [] {
    } else {
      var init, last := s[..|s| - 1], s[|s| - 1];
      LoopIsDigitSum(init);
      FlipSum(init, s, |init|);
      SamePrefix(init, s, |init|);
      SplitDigits(s, false);
      SplitDigits(s, true);
      assert DigitSum(s, |s|) == DigitSum(s, |init|) + Weight(last, false);
    }
  }

  /** The routine accepts a number exactly when its digits, leading zeros or not, satisfy
      the standard's formula. */
  lemma {:induction false} LoopMeetsStandard(s: seq<Digit>)
    ensures ValidNumber(Value(s)) <==> ValidDigits(s)
  {
    LoopIsDigitSum(s);
  }

  /** The decimal digits of a number. */
  function Decimal(n: nat): (s: seq<Digit>)
    ensures Value(s) == n
  {
    if n == 0 then [] else Decimal(n / 10) + [n % 10]
  }

  lemma {:induction false} Complement(x: nat, d: Digit)
    ensures (d + x) % 10 == 0 <==> d == (10 - x % 10) % 10
  {
  }

  lemma {:induction false} CheckDigitAdded(n: nat, c: nat)
    requires c == LoopSum(n / 10, true) % 10
    ensures (n % 10 + c) % 10 == 0 <==> ValidNumber(n)
  {
    Complement(LoopSum(n / 10, true), n % 10);
    Complement(c, n % 10);
    assert LoopSum(n, false) == n % 10 + LoopSum(n / 10, true);
  }

  /** The routine applies the standard's formula to the decimal digits of its argument. */
  method ValidLuhn(number: uint64) returns (ok: bool)
    ensures ok == ValidNumber(number as int) == ValidDigits(Decimal(number as int))
  {
    var c := ChecksumLuhn(number / 10);
    CheckDigitAdded(number as int, c as int);
    LoopMeetsStandard(Decimal(number as int));
    ok := (number % 10 + c) % 10 == 0;
  }

  lemma {:induction false} ZerosValue(s: seq<Digit>, zeros: nat)
    ensures Value(seq(zeros, _ => 0) + s) == Value(s)
    decreases |s|, zeros
  {
    var t: seq<Digit> := seq(zeros, _ => 0) + s;
    if s != [] {
      assert t[..|t| - 1] == seq(zeros, _ => 0) + s[..|s| - 1];
      ZerosValue(s[..|s| - 1], zeros);
    } else if zeros > 0 {
      assert t[..|t| - 1] == seq(zeros - 1, _ => 0) + s;
      ZerosValue(s, zeros - 1);
    }
  }

  /** Leading zeros change neither the number nor the verdict. */
  lemma {:induction false} LeadingZeros(s: seq<Digit>, zeros: nat)
    ensures Value(seq(zeros, _ => 0) + s) == Value(s)
    ensures ValidDigits(seq(zeros, _ => 0) + s) <==> ValidDigits(s)
  {
    ZerosValue(s, zeros);
    LoopMeetsStandard(s);
    LoopMeetsStandard(seq(zeros, _ => 0) + s);
  }

  // ---------------------------------------------------------------- error detection

  /** Replacing one digit moves the sum by the difference of its two weights. */
  lemma {:induction false} ReplaceDigit(s: seq<Digit>, p: nat, d: Digit, k: nat)
    requires p < |s| && k <= |s|
    ensures DigitSum(s[p := d], k) - DigitSum(s, k)
         == if p < k then Weight(d, Doubled(p, |s|)) - Weight(s[p], Doubled(p, |s|)) else 0
  {
    if k == 0 {
    } else {
      ReplaceDigit(s, p, d, k - 1);
    }
  }

  /** Doubling permutes the digits, so distinct digits never weigh the same. */
  lemma {:induction false} WeightInjective(a: Digit, b: Digit, doubled: bool)
    requires Weight(a, doubled) == Weight(b, doubled)
    ensures a == b
  {
  }

  lemma {:induction false} CongruentSmall(x: int, y: int, delta: int)
    requires y == x + delta && -10 < delta < 10 && x % 10 == 0
    ensures y % 10 == 0 <==> delta == 0
  {
  }

  /** Any change of any single digit of a valid number is detected. */
  lemma {:induction false} SingleDigitDetected(s: seq<Digit>, p: nat, d: Digit)
    requires p < |s| && ValidNumber(Value(s)) && d != s[p]
    ensures !ValidNumber(Value(s[p := d]))
  {
    LoopMeetsStandard(s);
    LoopMeetsStandard(s[p := d]);
    ReplaceDigit(s, p, d, |s|);
    var w: int, v: int := Weight(s[p], Doubled(p, |s|)), Weight(d, Doubled(p, |s|));
    if w == v {
      WeightInjective(s[p], d, Doubled(p, |s|));
    }
    CongruentSmall(DigitSum(s, |s|), DigitSum(s[p := d], |s|), v - w);
  }

  function Swapped(s: seq<Digit>, p: nat): (t: seq<Digit>)
    requires p + 1 < |s|
  {
    s[p := s[p + 1]][p + 1 := s[p]]
  }

  /** How much doubling changes the weight of a digit. */
  function Excess(d: Digit): int {
    Weight(d, true) - Weight(d, false)
  }

  lemma {:induction false} SwapDelta(s: seq<Digit>, p: nat) returns (delta: int)
    requires p + 1 < |s|
    ensures DigitSum(Swapped(s, p), |s|) == DigitSum(s, |s|) + delta
    ensures -10 < delta < 10
    ensures delta == 0 <==> Excess(s[p]) == Excess(s[p + 1])
  {
    var n, a, b := |s|, s[p], s[p + 1];
    ReplaceDigit(s, p, b, n);
    ReplaceDigit(s[p := b], p + 1, a, n);
    assert Doubled(p, n) == !Doubled(p + 1, n);
    delta := if Doubled(p, n) then Excess(b) - Excess(a) else Excess(a) - Excess(b);
  }

  lemma {:induction false} ExcessTies(a: Digit, b: Digit)
    ensures Excess(a) == Excess(b) <==> a == b || {a, b} == {0, 9}
  {
    assert {a, b} == {0, 9} <==> (a == 0 && b == 9) || (a == 9 && b == 0) by {
      if {a, b} == {0, 9} {
        assert 0 in {a, b} && 9 in {a, b};
      }
    }
  }

  /** Exchanging two adjacent digits of a valid number goes unnoticed exactly when they
      are equal or are 0 and 9. */
  lemma {:induction false} TranspositionDetected(s: seq<Digit>, p: nat)
    requires p + 1 < |s| && ValidNumber(Value(s))
    ensures ValidNumber(Value(Swapped(s, p)))
       <==> s[p] == s[p + 1] || {s[p], s[p + 1]} == {0, 9}
  {
    LoopMeetsStandard(s);
    LoopMeetsStandard(Swapped(s, p));
    var delta := SwapDelta(s, p);
    CongruentSmall(DigitSum(s, |s|), DigitSum(Swapped(s, p), |s|), delta);
    ExcessTies(s[p], s[p + 1]);
  }

  // ---------------------------------------------------------------- counting

  /** The one digit that completes a prefix to a valid number. */
  function CheckDigit(prefix: nat): Digit {
    (10 - LoopSum(prefix, true) % 10) % 10
  }

  lemma {:induction false} OneCheckDigit(prefix: nat, d: Digit)
    ensures ValidNumber(10 * prefix + d) <==> d == CheckDigit(prefix)
  {
    SplitValue(prefix, d, false);
    Complement(LoopSum(prefix, true), d);
  }

  ghost function ValidBelow(n: nat): set<nat> {
    set k: nat | k < n && ValidNumber(k)
  }

  /** Exactly one number in ten is valid. */
  lemma {:induction false} OneInTen(n: nat)
    ensures |ValidBelow(10 * n)| == n
  {
    if n == 0 {
    } else {
      var p := n - 1;
      OneInTen(p);
      var check := 10 * p + CheckDigit(p);
      forall k: nat
        ensures k in ValidBelow(10 * n) <==> k in ValidBelow(10 * p) + {check}
      {
        if 10 * p <= k < 10 * n {
          OneCheckDigit(p, k - 10 * p);
        }
        OneCheckDigit(p, CheckDigit(p));
      }
      assert ValidBelow(10 * n) == ValidBelow(10 * p) + {check};
    }
  }
}
