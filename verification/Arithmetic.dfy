/** The 64-bit integers, powers of two, and division and multiplication facts the solver does not find by itself. */
module Arithmetic {

  const INT64_MIN := -0x8000_0000_0000_0000
  const INT64_MAX := 0x7FFF_FFFF_FFFF_FFFF

  type int64 = x: int | INT64_MIN <= x <= INT64_MAX

  function TwoTo(bits: nat): (p: int)
    ensures p > 0
  {
    if bits == 0 then 1 else 2 * TwoTo(bits - 1)
  }

  lemma MulMonotone(a: int, b: int, c: nat)
    requires a <= b
    ensures a * c <= b * c
  {
  }

  lemma MulSuccessor(a: int, c: int)
    ensures (a + 1) * c == a * c + c
  {
  }

  /** A number has one quotient and one remainder. */
  lemma DivisionUnique(divisor: nat, q1: int, r1: nat, q2: int, r2: nat)
    requires r1 < divisor && r2 < divisor
    requires q1 * divisor + r1 == q2 * divisor + r2
    ensures q1 == q2 && r1 == r2
  {
    if q1 < q2 {
      MulMonotone(q1 + 1, q2, divisor);
      MulSuccessor(q1, divisor);
    } else if q2 < q1 {
      MulMonotone(q2 + 1, q1, divisor);
      MulSuccessor(q2, divisor);
    }
  }

  lemma DivMod(value: int, divisor: nat)
    requires divisor > 0
    ensures value == value / divisor * divisor + value % divisor
    ensures 0 <= value % divisor < divisor
  {
  }

  lemma QuotientIs(value: int, divisor: nat, quotient: int, remainder: nat)
    requires remainder < divisor
    requires value == quotient * divisor + remainder
    ensures value / divisor == quotient && value % divisor == remainder
  {
    DivMod(value, divisor);
    DivisionUnique(divisor, value / divisor, value % divisor, quotient, remainder);
  }

  /** Dividing twice is dividing by the product. */
  lemma DivideTwice(value: nat, first: nat, second: nat)
    requires first > 0 && second > 0
    ensures value / first / second == value / (second * first)
  {
    var q := value / first;
    var h := q / second;
    DivMod(value, first);
    DivMod(q, second);
    var low := q % second * first + value % first;
    Regroup(h, second, first, q % second, value % first);
    MulMonotone(q % second, second - 1, first);
    MulSuccessor(second - 1, first);
    MulMonotone(0, q % second, first);
    QuotientIs(value, second * first, h, low);
  }

  lemma Regroup(h: int, s: int, f: int, m: int, r: int)
    ensures (h * s + m) * f + r == h * (s * f) + (m * f + r)
  {
    assert (h * s + m) * f == (h * s) * f + m * f;
    assert (h * s) * f == h * (s * f);
  }
}
