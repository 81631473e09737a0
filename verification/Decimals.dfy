/**
 * Decimal numbers as (sign, digits, exponent), their exact value, and the
 * unique canonical form of a value: no leading and no trailing zero digits.
 */
module Decimals {

  datatype Dec = Dec(negative: bool, digits: seq<nat>, exponent: int)

  predicate IsDigits(digits: seq<nat>) {
    digits != [] && forall i :: 0 <= i < |digits| ==> digits[i] < 10
  }

  function Coefficient(digits: seq<nat>): nat {
    if digits == [] then 0 else Coefficient(digits[..|digits| - 1]) * 10 + digits[|digits| - 1]
  }

  function Signed(d: Dec): int {
    var c: int := Coefficient(d.digits);
    if d.negative then -c else c
  }

  function Pow10(n: nat): nat {
    if n == 0 then 1 else 10 * Pow10(n - 1)
  }

  /** Ten to an integer power. */
  function Scale(e: int): real
    decreases if e < 0 then -e else e
  {
    if e == 0 then 1.0 else if e > 0 then 10.0 * Scale(e - 1) else Scale(e + 1) / 10.0
  }

  /** An integer coefficient at an exponent. */
  function At(c: int, e: int): real {
    c as real * Scale(e)
  }

  function Value(d: Dec): real {
    At(Signed(d), d.exponent)
  }

  const Zero := Dec(false, [0], 0)

  predicate Canonical(d: Dec) {
    d == Zero || (IsDigits(d.digits) && d.digits[0] != 0 && d.digits[|d.digits| - 1] != 0)
  }

  // ---- Powers of ten -----------------------------------------------------------

  lemma ScaleSucc(e: int)
    ensures Scale(e + 1) == 10.0 * Scale(e)
    ensures Scale(e) > 0.0
    decreases if e < 0 then -e else e
  {
    if e > 0 { ScaleSucc(e - 1); } else if e < 0 { ScaleSucc(e + 1); }
  }

  lemma {:induction false} ScaleAdd(e: int, n: nat)
    ensures Scale(e + n) == Scale(e) * Pow10(n) as real
  {
    if n > 0 {
      ScaleAdd(e, n - 1);
      ScaleSucc(e + n - 1);
    }
  }

  /** The same value at two exponents: the coefficient at the lower one carries the power of ten. */
  lemma SameValueShift(c: int, e: int, c': int, e': int)
    requires e <= e' && At(c, e) == At(c', e')
    ensures c == c' * Pow10(e' - e)
  {
    ghost var p, k, l := Pow10(e' - e), Scale(e), Scale(e');
    assert k > 0.0 by { ScaleSucc(e); }
    assert l == k * p as real by { ScaleAdd(e, e' - e); }
    CancelScale(c, c', p, k, l);
  }

  lemma CancelScale(c: int, d: int, p: nat, k: real, l: real)
    requires k > 0.0 && l == k * p as real && c as real * k == d as real * l
    ensures c == d * p
  {
    assert d as real * l == (d as real * p as real) * k;
    assert (c as real - d as real * p as real) * k == 0.0;
    MulCast(d, p);
  }

  lemma MulCast(a: int, b: int)
    ensures (a * b) as real == a as real * b as real
  {
  }

  lemma TimesTen(x: nat, p: nat, c: nat, last: nat)
    ensures (x * p + c) * 10 + last == x * (10 * p) + (c * 10 + last)
  {
  }

  lemma MoveFactor(a: real, p: real, k: real)
    ensures a * (k * p) == (a * p) * k
  {
  }

  // ---- Digits ------------------------------------------------------------------

  lemma CoefficientBounds(digits: seq<nat>)
    requires IsDigits(digits)
    ensures Coefficient(digits) < Pow10(|digits|)
    ensures digits[0] != 0 ==> Pow10(|digits| - 1) <= Coefficient(digits)
  {
    if |digits| > 1 {
      CoefficientBounds(digits[..|digits| - 1]);
    }
  }

  lemma Pow10Monotone(m: nat, n: nat)
    requires m <= n
    ensures Pow10(m) <= Pow10(n)
  {
    if m < n { Pow10Monotone(m, n - 1); }
  }

  /** A digit string without leading zeros has at most n digits exactly when its number is below 10^n. */
  lemma DigitCount(digits: seq<nat>, n: nat)
    requires IsDigits(digits) && digits[0] != 0
    ensures |digits| <= n <==> Coefficient(digits) < Pow10(n)
  {
    CoefficientBounds(digits);
    if |digits| <= n { Pow10Monotone(|digits|, n); } else { Pow10Monotone(n, |digits| - 1); }
  }

  lemma DigitsUnique(a: seq<nat>, b: seq<nat>)
    requires IsDigits(a) && IsDigits(b) && a[0] != 0 && b[0] != 0
    requires Coefficient(a) == Coefficient(b)
    ensures a == b
  {
    CoefficientBounds(a);
    CoefficientBounds(b);
    DigitCount(a, |b|);
    DigitCount(b, |a|);
    var n := |a| - 1;
    assert a == a[..n] + [a[n]] && b == b[..n] + [b[n]];
    if n > 0 {
      DigitsUnique(a[..n], b[..n]);
    }
  }

  // ---- Uniqueness of the canonical form --------------------------------------------

  lemma CanonicalCoefficient(d: Dec)
    requires Canonical(d) && d != Zero
    ensures Coefficient(d.digits) % 10 != 0
    ensures Value(d) != 0.0
  {
    var n := |d.digits| - 1;
    assert Coefficient(d.digits) == Coefficient(d.digits[..n]) * 10 + d.digits[n];
    assert Coefficient(d.digits) != 0;
    ScaleSucc(d.exponent);
    NonzeroAt(Signed(d), d.exponent);
  }

  lemma NonzeroAt(c: int, e: int)
    requires c != 0 && Scale(e) > 0.0
    ensures At(c, e) != 0.0
  {
    CancelFactorNonzero(c as real, Scale(e));
  }

  lemma CancelFactorNonzero(a: real, k: real)
    requires a != 0.0 && k > 0.0
    ensures a * k != 0.0
  {
  }

  /** Two canonical decimals of one value are the same decimal. */
  lemma CanonicalUnique(a: Dec, b: Dec)
    requires Canonical(a) && Canonical(b) && Value(a) == Value(b)
    ensures a == b
  {
    if a == Zero || b == Zero {
      ZeroHasValueZero();
      if a != Zero { CanonicalCoefficient(a); }
      if b != Zero { CanonicalCoefficient(b); }
    } else {
      CanonicalCoefficient(a);
      CanonicalCoefficient(b);
      if a.exponent <= b.exponent { SameExponent(a, b); } else { SameExponent(b, a); }
      DigitsUnique(a.digits, b.digits);
    }
  }

  lemma ZeroHasValueZero()
    ensures Value(Zero) == 0.0
  {
    assert Coefficient([0]) == 0 by { assert [0][..0] == []; }
  }

  lemma SameExponent(a: Dec, b: Dec)
    requires Canonical(a) && a != Zero && Canonical(b) && b != Zero
    requires Value(a) == Value(b) && a.exponent <= b.exponent
    ensures a.exponent == b.exponent && a.negative == b.negative && Coefficient(a.digits) == Coefficient(b.digits)
  {
    assert Coefficient(a.digits) % 10 != 0 by { CanonicalCoefficient(a); }
    ghost var gap, x, y := b.exponent - a.exponent, Signed(a), Signed(b);
    assert x == y * Pow10(gap) by { SameValueShift(x, a.exponent, y, b.exponent); }
    NoGap(Coefficient(a.digits), x, y, gap);
  }

  lemma NoGap(c: nat, x: int, y: int, gap: nat)
    requires c % 10 != 0 && (x == c || c + x == 0) && x == y * Pow10(gap)
    ensures gap == 0 && x == y
  {
    if gap > 0 {
      assert x == y * (10 * Pow10(gap - 1));
      EndsInZero(c, x, y, Pow10(gap - 1));
    } else {
      assert Pow10(gap) == 1;
    }
  }

  lemma EndsInZero(c: nat, x: int, y: int, p: nat)
    requires x == y * (10 * p) && (x == c || c + x == 0)
    ensures c % 10 == 0
  {
    assert x == 10 * (y * p);
  }
}
