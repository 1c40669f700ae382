// The native selector's 64-bit arithmetic: C++ division truncates toward zero and every
// intermediate value must stay inside the signed 64-bit range.
module Int64 {
  const INT64_MIN: int := -0x8000_0000_0000_0000
  const INT64_MAX: int := 0x7FFF_FFFF_FFFF_FFFF

  predicate InInt64(n: int) {
    INT64_MIN <= n <= INT64_MAX
  }

  // A value of this type is proved in range wherever it is assigned, so a model method that
  // only stores int64 values forms no overflowing intermediate.
  type int64 = n: int | InInt64(n)

  // A std::vector of 64-bit integers; no such vector has more elements than int64 can count.
  type Vec = v: seq<int64> | |v| <= INT64_MAX

  function Abs(n: int): nat {
    if n < 0 then -n else n
  }

  // The operands for which C++ `/` and `%` are defined.
  predicate Divisible(a: int, b: int) {
    InInt64(a) && InInt64(b) && b != 0 && !(a == INT64_MIN && b == -1)
  }

  // C++ `/`.
  function TruncDiv(a: int, b: int): int64
    requires Divisible(a, b)
  {
    QuotientBound(Abs(a), b);
    if a >= 0 then a / b else -(-a / b)
  }

  // C++ `%`: the remainder takes the sign of the dividend.
  function TruncMod(a: int, b: int): int64
    requires Divisible(a, b)
  {
    if a >= 0 then a % b else -(-a % b)
  }

  lemma MulMono(k: nat, x: int, y: int)
    requires x <= y
    ensures x * k <= y * k
  {
  }

  lemma NegatedDivisor(m: int, b: int)
    requires m >= 0 && b > 0
    ensures m / (-b) == -(m / b)
  {
    var q, q' := m / b, m / (-b);
    assert m == q * b + m % b;
    assert m == q' * (-b) + m % (-b);
    assert (q + q') * b == m % (-b) - m % b;
    if q + q' >= 1 { MulMono(b, 1, q + q'); } else if q + q' <= -1 { MulMono(b, q + q', -1); }
  }

  lemma PositiveQuotient(a: nat, b: nat)
    requires b > 0
    ensures 0 <= a / b <= a
    ensures b > 1 && a > 0 ==> a / b < a
  {
    var q := a / b;
    assert a == q * b + a % b;
    if b > 1 {
      MulMono(q, 2, b);
    }
  }

  lemma QuotientBound(a: int, b: int)
    requires a >= 0 && b != 0
    ensures -a <= a / b <= a
    ensures b != 1 && b != -1 && a != 0 ==> -a < a / b < a
  {
    if b > 0 {
      PositiveQuotient(a, b);
    } else {
      PositiveQuotient(a, -b);
      NegatedDivisor(a, -b);
    }
  }

  /** The two operators fit together as C++ requires: the quotient is rounded toward zero. */
  lemma TruncatedDivision(a: int, b: int)
    requires Divisible(a, b)
    ensures a == TruncDiv(a, b) * b + TruncMod(a, b)
    ensures Abs(TruncMod(a, b)) < Abs(b)
    ensures TruncMod(a, b) == 0 || (TruncMod(a, b) < 0 <==> a < 0)
  {
    if a < 0 {
      assert -a == (-a / b) * b + -a % b;
    }
  }

  lemma MultipleMod(b: int, k: int)
    requires b != 0
    ensures (b * k) % b == 0
  {
    var q, r := (b * k) / b, (b * k) % b;
    assert b * k == b * q + r && 0 <= r < Abs(b);
    assert b * (k - q) == r;
    if k - q >= 1 {
      MulMono(Abs(b), 1, k - q);
    } else if k - q <= -1 {
      MulMono(Abs(b), 1, q - k);
    }
  }

  lemma NegatedMultiple(a: int, b: int)
    requires b != 0 && a % b == 0
    ensures -a % b == 0
  {
    assert -a == b * (-(a / b));
    MultipleMod(b, -(a / b));
  }

  /** Divisibility does not depend on the rounding convention: C++ and Python agree on it. */
  lemma TruncModZero(a: int, b: int)
    requires Divisible(a, b)
    ensures TruncMod(a, b) == 0 <==> a % b == 0
  {
    if a < 0 {
      if a % b == 0 { NegatedMultiple(a, b); }
      if -a % b == 0 { NegatedMultiple(-a, b); }
    }
  }

  lemma ExceedsQuotient(a: nat, b: nat, m: nat)
    requires b > 0
    ensures a > m / b <==> a * b > m
  {
    var q := m / b;
    assert m == q * b + m % b;
    if a > q { MulMono(b, q + 1, a); } else { MulMono(b, a, q); }
  }

  // checked_multiply. `current` is the value behind the `result` reference on entry.
  method CheckedMultiply(lhs: int64, rhs: int64, current: int64) returns (ok: bool, result: int64)
    ensures ok <==> InInt64(lhs * rhs)
    ensures result == if ok then lhs * rhs else current
  {
    ghost var a, b: int := lhs, rhs;
    result := current;
    if lhs > 0 {
      if b > 0 {
        ExceedsQuotient(a, b, INT64_MAX);
      } else if b < 0 {
        ExceedsQuotient(-b, a, -INT64_MIN);
        assert a * b == -((-b) * a);
      }
      if (rhs > 0 && lhs > TruncDiv(INT64_MAX, rhs)) ||
         (rhs < 0 && rhs < TruncDiv(INT64_MIN, lhs)) {
        return false, result;
      }
    } else if lhs < 0 {
      if b > 0 {
        ExceedsQuotient(-a, b, -INT64_MIN);
        assert a * b == -((-a) * b);
      } else if b < 0 {
        ExceedsQuotient(-a, -b, INT64_MAX);
        assert a * b == (-a) * (-b);
        NegatedDivisor(INT64_MAX, -b);
      }
      if (rhs > 0 && lhs < TruncDiv(INT64_MIN, rhs)) ||
         (rhs < 0 && lhs < TruncDiv(INT64_MAX, rhs)) {
        return false, result;
      }
    }
    assert InInt64(a * b);
    ok := true;
    result := lhs * rhs;
  }
}
