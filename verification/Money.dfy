/**
  Decimal amounts and the `decimal(19,2)` cells they are stored in.

  An amount in a request or a reply is an exact decimal, modelled as a real. A cell holds
  whole cents; storing rounds to the nearest cent, halves away from zero, and is refused
  when the result needs more than nineteen digits.
 */
module Money {

  const CELL_LIMIT: int := 10000000000000000000

  predicate FitsCell(cents: int) {
    -CELL_LIMIT < cents < CELL_LIMIT
  }

  function Cents(x: real): int {
    if x >= 0.0 then (100.0 * x + 0.5).Floor else -((-100.0 * x + 0.5).Floor)
  }

  /** The amount a cell reads back as. */
  function Amount(cents: int): real {
    cents as real / 100.0
  }

  lemma {:induction false} CentsMonotone(x: real, y: real)
    requires x <= y
    ensures Cents(x) <= Cents(y)
  {
    if x < 0.0 && 0.0 <= y {
      assert (-100.0 * x + 0.5).Floor >= 0 && (100.0 * y + 0.5).Floor >= 0;
    }
  }

  lemma {:induction false} CentsOfCell(c: int)
    ensures Cents(Amount(c)) == c
  {
    if c >= 0 {
      assert (c as real + 0.5).Floor == c;
    } else {
      assert ((-c) as real + 0.5).Floor == -c;
      assert -100.0 * Amount(c) == (-c) as real;
    }
  }

  /** Rounding is to the nearest cent. */
  lemma {:induction false} CentsNearest(x: real)
    ensures -0.5 <= Cents(x) as real - 100.0 * x <= 0.5
  {
  }

  /** Exactly half a cent goes away from zero; with `CentsNearest` that leaves nothing open. */
  lemma {:induction false} CentsTies(c: int)
    ensures c >= 0 ==> Cents((c as real + 0.5) / 100.0) == c + 1
    ensures c <= 0 ==> Cents((c as real - 0.5) / 100.0) == c - 1
  {
    if c >= 0 {
      assert 100.0 * ((c as real + 0.5) / 100.0) + 0.5 == (c + 1) as real;
    }
    if c <= 0 {
      assert -100.0 * ((c as real - 0.5) / 100.0) + 0.5 == (1 - c) as real;
    }
  }

  /** A cell of c cents reads as c hundredths. */
  lemma {:induction false} AmountExact(c: int)
    ensures 100.0 * Amount(c) == c as real
  {
  }

  /** Nineteen digits, two of them behind the point. */
  lemma {:induction false} CellExact(c: int)
    ensures FitsCell(c) <==> -9_999_999_999_999_999_999 <= c <= 9_999_999_999_999_999_999
  {
  }

  /** A guard that compares an unrounded amount with a cell also covers the rounded one. */
  lemma {:induction false} GuardCoversRounding(sum: real, cell: int)
    requires sum <= Amount(cell)
    ensures Cents(sum) <= cell
  {
    CentsMonotone(sum, Amount(cell));
    CentsOfCell(cell);
  }
}
