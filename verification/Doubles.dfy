// Python's float(n) for an integer n: the nearest IEEE 754 binary64 value, ties to even.
// Integers of this magnitude round to integers, so the result is modelled as an int.
module Doubles {
  const EXACT_LIMIT: int := 0x20_0000_0000_0000 // 2^53

  // The spacing of the binary64 values around n: n / Ulp(n) has at most 53 bits.
  function Ulp(n: nat): (u: nat)
    ensures u > 0
  {
    if n < EXACT_LIMIT then 1 else 2 * Ulp(n / 2)
  }

  function RoundToEven(n: nat, unit: nat): int
    requires unit > 0
  {
    var q, r := n / unit, n % unit;
    if 2 * r < unit || (2 * r == unit && q % 2 == 0) then q * unit else (q + 1) * unit
  }

  function FloatOf(n: int): int {
    if n < 0 then -RoundToEven(-n, Ulp(-n)) else RoundToEven(n, Ulp(n))
  }

  // A number float() leaves unchanged.
  predicate Representable(n: int) {
    (if n < 0 then -n else n) % Ulp(if n < 0 then -n else n) == 0
  }

  lemma RoundToEvenFixed(n: nat, unit: nat)
    requires unit > 0
    ensures RoundToEven(n, unit) == n <==> n % unit == 0
  {
    var q, r := n / unit, n % unit;
    assert n == q * unit + r;
    assert (q + 1) * unit == q * unit + unit;
  }

  /** float() is exact precisely on the multiples of the spacing at their magnitude. */
  lemma FloatIsExactWhenRepresentable(n: int)
    ensures FloatOf(n) == n <==> Representable(n)
  {
    var m := if n < 0 then -n else n;
    RoundToEvenFixed(m, Ulp(m));
  }

  lemma SmallIntegersAreExact(n: int)
    requires -EXACT_LIMIT <= n <= EXACT_LIMIT
    ensures FloatOf(n) == n
  {
    if n == EXACT_LIMIT || n == -EXACT_LIMIT {
      assert Ulp(EXACT_LIMIT) == 2 * Ulp(EXACT_LIMIT / 2) == 2;
    }
    FloatIsExactWhenRepresentable(n);
  }

  lemma FirstInexactInteger()
    ensures FloatOf(EXACT_LIMIT + 1) == EXACT_LIMIT
  {
    assert Ulp(EXACT_LIMIT + 1) == 2 * Ulp((EXACT_LIMIT + 1) / 2) == 2;
  }

  //////////////////////////////////////////////////////////////////////////////
  // Rounding
  //////////////////////////////////////////////////////////////////////////////

  function Distance(a: int, b: int): nat {
    if a < b then b - a else a - b
  }

  lemma OnOneSide(q: nat, unit: nat, k: int)
    requires unit > 0
    ensures k * unit <= q * unit || k * unit >= q * unit + unit
  {
    if k > q {
      assert k * unit >= (q + 1) * unit by {
        assert (k - q - 1) * unit >= 0;
        assert k * unit == (k - q - 1) * unit + (q + 1) * unit;
      }
      assert (q + 1) * unit == q * unit + unit;
    } else {
      assert (q - k) * unit >= 0;
      assert q * unit == (q - k) * unit + k * unit;
    }
  }

  /** Rounding gives the multiple of the spacing nearest to the number, and of two equally near ones
      the even one. */
  lemma RoundsToNearestEven(n: nat, unit: nat, k: int)
    requires unit > 0
    ensures RoundToEven(n, unit) % unit == 0
    ensures Distance(RoundToEven(n, unit), n) <= Distance(k * unit, n)
    ensures k * unit != RoundToEven(n, unit) && Distance(k * unit, n) == Distance(RoundToEven(n, unit), n)
      ==> RoundToEven(n, unit) / unit % 2 == 0
  {
    var q, r := n / unit, n % unit;
    assert n == q * unit + r && (q + 1) * unit == q * unit + unit;
    OnOneSide(q, unit, k);
    MultipleOfUnit(q, unit);
    MultipleOfUnit(q + 1, unit);
  }

  lemma MultiplesAreApart(d: int, unit: nat)
    ensures d >= 1 ==> d * unit >= unit
    ensures d <= -1 ==> d * unit <= 0 - unit
  {
    if d >= 1 {
      assert (d - 1) * unit >= 0;
    } else if d <= -1 {
      assert (-1 - d) * unit >= 0;
    }
  }

  lemma MultipleOfUnit(q: nat, unit: nat)
    requires unit > 0
    ensures (q * unit) % unit == 0 && (q * unit) / unit == q
  {
    var d, m := (q * unit) / unit, (q * unit) % unit;
    assert q * unit == d * unit + m;
    assert (q - d) * unit == m;
    MultiplesAreApart(q - d, unit);
  }

  /** The spacing leaves 53 significant bits: it is 1 up to 2^53, and from there on the number is between
      2^52 and 2^53 spacings. */
  lemma {:induction false} SpacingLeaves53Bits(n: nat)
    ensures n < 0x20_0000_0000_0000 ==> Ulp(n) == 1
    ensures n / Ulp(n) < 0x20_0000_0000_0000
    ensures n >= 0x20_0000_0000_0000 ==> n / Ulp(n) >= 0x10_0000_0000_0000
  {
    if n >= EXACT_LIMIT {
      var half, unit := n / 2, Ulp(n / 2);
      SpacingLeaves53Bits(half);
      HalvedQuotient(n, unit);
    }
  }

  lemma HalvedQuotient(n: nat, unit: nat)
    requires unit > 0
    ensures n / (2 * unit) == n / 2 / unit
  {
    var q, r := n / 2 / unit, n / 2 % unit;
    assert n == 2 * (n / 2) + n % 2 && n / 2 == q * unit + r;
    assert n == q * (2 * unit) + (2 * r + n % 2);
    var d, m := n / (2 * unit), n % (2 * unit);
    assert n == d * (2 * unit) + m;
    assert (q - d) * (2 * unit) == m - (2 * r + n % 2);
    MultiplesAreApart(q - d, 2 * unit);
  }
}
