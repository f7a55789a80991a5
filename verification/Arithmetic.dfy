/** Products and quotients by a divisor that is not a constant. The longer proofs hide the definitions and
    use the laws below instead. */
module Arithmetic {

  function Times(a: nat, b: nat): nat {
    a * b
  }

  function Quotient(num: nat, place: nat): nat
    requires place > 0
  {
    num / place
  }

  function Remainder(num: nat, place: nat): nat
    requires place > 0
  {
    num % place
  }

  lemma Division(num: nat, place: nat)
    requires place > 0
    ensures num == Times(Quotient(num, place), place) + Remainder(num, place)
    ensures Remainder(num, place) < place
  {
  }

  lemma TimesMonotone(a: nat, b: nat, p: nat)
    requires a <= b
    ensures Times(a, p) <= Times(b, p)
  {
  }

  lemma TimesNext(a: nat, p: nat)
    ensures Times(a + 1, p) == Times(a, p) + p
  {
  }

  lemma TimesPositive(a: nat, p: nat)
    requires a > 0 && p > 0
    ensures Times(a, p) > 0
  {
  }

  lemma TimesSum(a: nat, b: nat, p: nat)
    ensures Times(a + b, p) == Times(a, p) + Times(b, p)
  {
  }

  /** A quotient is below a bound when the number is below that many times the divisor. */
  lemma QuotientBelow(n: nat, divisor: nat, bound: nat)
    requires divisor > 0 && n < Times(bound, divisor)
    ensures Quotient(n, divisor) < bound
  {
    hide Times, Quotient, Remainder;
    Division(n, divisor);
    if Quotient(n, divisor) >= bound {
      TimesMonotone(bound, Quotient(n, divisor), divisor);
    }
  }

  lemma TimesZero(p: nat)
    ensures Times(0, p) == 0
  {
  }

  lemma TimesOne(d: nat)
    ensures Times(d, 1) == d
  {
  }

  lemma QuotientExact(base: nat, p: nat)
    requires base > 0
    ensures Quotient(Times(p, base), base) == p
  {
    hide Times, Quotient, Remainder;
    var q := Quotient(Times(p, base), base);
    Division(Times(p, base), base);
    TimesNext(q, base);
    if q < p {
      TimesMonotone(q + 1, p, base);
    } else if q > p {
      TimesNext(p, base);
      TimesMonotone(p + 1, q, base);
    }
  }
}
