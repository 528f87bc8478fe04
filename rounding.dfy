/** Python's `round` applied to an exact quotient: the nearest integer,
    with a quotient exactly halfway between two integers going to the even one. */
module Rounding {

  /** `r` is a nearest integer to n / d, and an even one on a tie. */
  ghost predicate IsRoundHalfEven(n: int, d: int, r: int)
    requires d > 0
  {
    && -d <= 2 * (n - r * d) <= d
    && (2 * (n - r * d) == d || 2 * (n - r * d) == -d ==> r % 2 == 0)
  }

  /** Round-half-to-even of the exact quotient n / d. */
  function RoundHalfEven(n: int, d: int): (r: int)
    requires d > 0
    ensures IsRoundHalfEven(n, d, r)
  {
    var q, m := n / d, n % d;
    assert n == q * d + m;
    assert (q + 1) * d == q * d + d;
    if 2 * m < d then q
    else if 2 * m > d then q + 1
    else if q % 2 == 0 then q
    else q + 1
  }

  /** The nearest-integer, ties-to-even condition has exactly one solution,
      so RoundHalfEven is the rounding Python's `round` performs. */
  lemma RoundHalfEvenUnique(n: int, d: int, r': int)
    requires d > 0
    requires IsRoundHalfEven(n, d, r')
    ensures r' == RoundHalfEven(n, d)
  {
    var r := RoundHalfEven(n, d);
    var k := r' - r;
    assert r' * d == r * d + k * d;
    MultipleOf(k, d);
  }

  lemma MultipleOf(k: int, d: int)
    requires d > 0
    ensures k >= 2 ==> k * d >= 2 * d
    ensures k <= -2 ==> k * d <= -2 * d
    ensures k == 1 ==> k * d == d
    ensures k == -1 ==> k * d == -d
  {
    if k >= 2 {
      assert k * d == (k - 2) * d + 2 * d;
    } else if k <= -2 {
      assert k * d == (k + 2) * d - 2 * d;
    }
  }

  /** The availability percentage of a domain: round(100 * up / total). */
  function Percent(up: nat, total: nat): (p: int)
    requires total > 0
    ensures up <= total ==> 0 <= p <= 100
  {
    var p := RoundHalfEven(100 * up, total);
    if up <= total then PercentInRange(up, total, p); p else p
  }

  lemma PercentInRange(up: nat, total: nat, p: int)
    requires 0 < total && up <= total
    requires IsRoundHalfEven(100 * up, total, p)
    ensures 0 <= p <= 100
  {
    if p < 0 {
      MultipleOf(p, total);
      assert false;
    } else if p > 100 {
      MultipleOf(p - 100, total);
      assert false;
    }
  }

  /** A ratio that is an exact percentage is reported unrounded. */
  lemma PercentExact(up: nat, total: nat, k: int)
    requires total > 0 && 100 * up == k * total
    ensures Percent(up, total) == k
  {
    assert 2 * (100 * up - k * total) == 0;
    RoundHalfEvenUnique(100 * up, total, k);
  }

  /** Boundary ratios: 1/8 = 12.5% rounds down to the even 12, 3/8 = 37.5% rounds up to 38. */
  lemma PercentExamples()
    ensures Percent(1, 2) == 50 && Percent(0, 1) == 0 && Percent(1, 1) == 100
    ensures Percent(1, 8) == 12 && Percent(3, 8) == 38
    ensures Percent(1, 3) == 33 && Percent(2, 3) == 67
    ensures Percent(1, 200) == 0 && Percent(3, 200) == 2
  {
  }
}
