/** `exact_decimal_sum` of tx_trade/orders/live_reconciliation_contracts.py. */
module ExactSum {
  import opened Wrappers
  import opened Decimals
  import opened Sums
  import DecimalText

  const MAX_DECIMAL_DIGITS := 34
  const MIN_DECIMAL_EXPONENT := -6143
  const MAX_DECIMAL_EXPONENT := 6144

  predicate InBounds(d: Dec) {
    |d.digits| <= MAX_DECIMAL_DIGITS && MIN_DECIMAL_EXPONENT <= d.exponent <= MAX_DECIMAL_EXPONENT
  }

  ghost predicate AllDigits(values: seq<Dec>) {
    forall i :: 0 <= i < |values| ==> IsDigits(values[i].digits)
  }

  ghost predicate AllInBounds(values: seq<Dec>) {
    forall i :: 0 <= i < |values| ==> InBounds(values[i])
  }

  /** Some canonical decimal within the bounds has this value. */
  ghost predicate Representable(x: real) {
    exists d :: Canonical(d) && InBounds(d) && Value(d) == x
  }

  /**
   * What a call may answer: the canonical in-bounds decimal of the mathematical
   * sum, or a refusal when an input is out of bounds or no such decimal exists.
   */
  ghost predicate IsExactSum(values: seq<Dec>, result: Option<Dec>) {
    match result
    case Some(d) => AllInBounds(values) && Canonical(d) && InBounds(d) && Value(d) == Sum(Value, values)
    case None => AllInBounds(values) ==> !Representable(Sum(Value, values))
  }

  method ExactDecimalSum(values: seq<Dec>) returns (result: Option<Dec>)
    requires AllDigits(values)
    ensures IsExactSum(values, result)
  {
    var total := 0;
    var common: Option<int> := None;
    for i := 0 to |values|
      invariant forall j :: 0 <= j < i ==> InBounds(values[j])
      invariant common.None? ==> total == 0 && Sum(Value, values[..i]) == 0.0
      invariant common.Some? ==> At(total, common.value) == Sum(Value, values[..i])
    {
      var d := values[i];
      if !InBounds(d) {
        return None;
      }
      ghost var before := Sum(Value, values[..i]);
      assert Sum(Value, values[..i + 1]) == before + Value(d) by {
        SumAppend(Value, values[..i], d);
        assert values[..i + 1] == values[..i] + [d];
      }
      var coefficient := ReadCoefficient(d.digits);
      if d.negative {
        coefficient := -coefficient;
      }
      assert At(coefficient, d.exponent) == Value(d);
      if common.None? {
        common := Some(d.exponent);
        assert At(0, d.exponent) == 0.0;
      } else if d.exponent < common.value {
        ghost var aligned := total * Pow10(common.value - d.exponent);
        assert At(aligned, d.exponent) == before by { Rescale(total, common.value, d.exponent); }
        total := total * Pow10(common.value - d.exponent);
        common := Some(d.exponent);
      } else {
        ghost var aligned := coefficient * Pow10(d.exponent - common.value);
        assert At(aligned, common.value) == Value(d) by { Rescale(coefficient, d.exponent, common.value); }
        coefficient := coefficient * Pow10(d.exponent - common.value);
      }
      assert At(total + coefficient, common.value) == before + Value(d) by {
        AddAtScale(total, coefficient, common.value);
      }
      total := total + coefficient;
    }
    assert values[..|values|] == values;
    if total == 0 {
      ZeroHasValueZero();
      return Some(Zero);
    }
    result := Normalize(total, common.value);
  }

  /** The end of the source's function: strip zeros from a non-zero total, check bounds, spell the digits. */
  method Normalize(total: int, commonExponent: int) returns (result: Option<Dec>)
    requires total != 0
    ensures result.Some? ==> Canonical(result.value) && InBounds(result.value) && Value(result.value) == At(total, commonExponent)
    ensures result.None? ==> !Representable(At(total, commonExponent))
  {
    var exponent := commonExponent;
    var coefficient: nat := if total < 0 then -total else total;
    while coefficient % 10 == 0
      invariant coefficient > 0
      invariant At(WithSign(total < 0, coefficient), exponent) == At(total, commonExponent)
      decreases coefficient
    {
      ghost var signed := WithSign(total < 0, coefficient);
      assert WithSign(total < 0, coefficient / 10) == signed / 10 && signed % 10 == 0;
      assert At(signed / 10, exponent + 1) == At(signed, exponent) by { StripZero(signed, exponent); }
      coefficient := coefficient / 10;
      exponent := exponent + 1;
    }
    result := Bounded(total < 0, coefficient, exponent);
  }

  /** The stripped total as a decimal, or None when it is out of bounds. */
  method Bounded(negative: bool, coefficient: nat, exponent: int) returns (result: Option<Dec>)
    requires coefficient % 10 != 0
    ensures result.Some? ==>
              Canonical(result.value) && InBounds(result.value) && Value(result.value) == At(WithSign(negative, coefficient), exponent)
    ensures result.None? ==> !Representable(At(WithSign(negative, coefficient), exponent))
  {
    var digits := WriteDigits(coefficient);
    var d := Dec(negative, digits, exponent);
    assert Signed(d) == WithSign(negative, coefficient);
    DigitCount(digits, MAX_DECIMAL_DIGITS);
    LastDigit(digits);
    if coefficient >= Pow10(MAX_DECIMAL_DIGITS) || !(MIN_DECIMAL_EXPONENT <= exponent <= MAX_DECIMAL_EXPONENT) {
      OnlyCandidate(d);
      return None;
    }
    result := Some(d);
  }

  lemma LastDigit(digits: seq<nat>)
    requires IsDigits(digits)
    ensures digits[|digits| - 1] == Coefficient(digits) % 10
  {
  }

  /** When the canonical decimal of a value is out of bounds, no canonical decimal of it is in bounds. */
  lemma OnlyCandidate(d: Dec)
    requires Canonical(d) && !InBounds(d)
    ensures !Representable(Value(d))
  {
    forall other | Canonical(other) && Value(other) == Value(d) ensures other == d {
      CanonicalUnique(other, d);
    }
  }

  function WithSign(negative: bool, c: nat): int {
    var i: int := c;
    if negative then -i else i
  }

  method ReadCoefficient(digits: seq<nat>) returns (coefficient: int)
    ensures coefficient == Coefficient(digits)
  {
    coefficient := 0;
    for i := 0 to |digits|
      invariant coefficient == Coefficient(digits[..i])
    {
      assert digits[..i + 1][..i] == digits[..i];
      coefficient := coefficient * 10 + digits[i];
    }
    assert digits[..|digits|] == digits;
  }

  /** The digits of a positive number, peeled off from the right as the source does. */
  method WriteDigits(number: nat) returns (digits: seq<nat>)
    requires number > 0
    ensures IsDigits(digits) && digits[0] != 0 && Coefficient(digits) == number
  {
    var rest: nat, tail: seq<nat> := number, [];
    while rest > 0
      invariant forall i :: 0 <= i < |tail| ==> tail[i] < 10
      invariant rest * Pow10(|tail|) + Coefficient(tail) == number
      invariant rest == 0 ==> tail != [] && tail[0] != 0
    {
      PrependDigit(rest % 10, tail);
      ghost var p := Pow10(|tail|);
      SplitDigit(rest, p);
      rest, tail := rest / 10, [rest % 10] + tail;
    }
    digits := tail;
  }

  lemma SplitDigit(rest: nat, p: nat)
    ensures rest * p == (rest / 10) * (10 * p) + (rest % 10) * p
  {
    assert rest == (rest / 10) * 10 + rest % 10;
    assert ((rest / 10) * 10) * p == (rest / 10) * (10 * p);
  }

  lemma PrependDigit(digit: nat, tail: seq<nat>)
    ensures Coefficient([digit] + tail) == digit * Pow10(|tail|) + Coefficient(tail)
  {
    if tail == [] {
      assert [digit][..0] == [];
    } else {
      var n := |tail| - 1;
      var all := [digit] + tail;
      assert all[..n + 1] == [digit] + tail[..n] && all[n + 1] == tail[n];
      PrependDigit(digit, tail[..n]);
      assert Coefficient(all) == Coefficient(all[..n + 1]) * 10 + tail[n];
      TimesTen(digit, Pow10(n), Coefficient(tail[..n]), tail[n]);
    }
  }

  lemma Rescale(c: int, e: int, lower: int)
    requires lower <= e
    ensures At(c * Pow10(e - lower), lower) == At(c, e)
  {
    ScaleAdd(lower, e - lower);
    MoveFactor(c as real, Pow10(e - lower) as real, Scale(lower));
  }

  lemma AddAtScale(a: int, b: int, e: int)
    ensures At(a + b, e) == At(a, e) + At(b, e)
  {
  }

  lemma StripZero(c: int, e: int)
    requires c % 10 == 0
    ensures At(c / 10, e + 1) == At(c, e)
  {
    ScaleSucc(e);
    MoveFactor((c / 10) as real, 10.0, Scale(e));
  }

  /** The answer depends on the mathematical sum alone: not on order, not on the exponents of the inputs. */
  lemma ExactSumDependsOnSumOnly(a: seq<Dec>, b: seq<Dec>, first: Option<Dec>, second: Option<Dec>)
    requires AllInBounds(a) && AllInBounds(b) && Sum(Value, a) == Sum(Value, b)
    requires IsExactSum(a, first) && IsExactSum(b, second)
    ensures first == second
  {
    if first.Some? && second.Some? {
      CanonicalUnique(first.value, second.value);
    }
  }

  lemma ExactSumIgnoresOrder(a: seq<Dec>, b: seq<Dec>, first: Option<Dec>, second: Option<Dec>)
    requires AllInBounds(a) && multiset(a) == multiset(b)
    requires IsExactSum(a, first) && IsExactSum(b, second)
    ensures first == second
  {
    forall i | 0 <= i < |b| ensures InBounds(b[i]) {
      assert b[i] in multiset(a);
    }
    SumPermutation(Value, a, b);
    ExactSumDependsOnSumOnly(a, b, first, second);
  }

  // ---- When a call is refused ----------------------------------------------------------------

  /** The smallest exponent among the inputs. */
  function CommonExponent(values: seq<Dec>): (e: int)
    ensures forall i :: 0 <= i < |values| ==> e <= values[i].exponent
    ensures values != [] ==> exists i :: 0 <= i < |values| && e == values[i].exponent
  {
    if values == [] then 0
    else if |values| == 1 then values[0].exponent
    else
      var rest := CommonExponent(values[1..]);
      if values[0].exponent < rest then values[0].exponent else rest
  }

  /** The inputs added up as multiples of one power of ten. */
  function TotalAt(values: seq<Dec>, e: int): int
    requires forall i :: 0 <= i < |values| ==> e <= values[i].exponent
  {
    if values == [] then 0 else Signed(values[0]) * Pow10(values[0].exponent - e) + TotalAt(values[1..], e)
  }

  /** A multiple of a power of ten without its trailing zeros. */
  function Stripped(total: int, e: int): (d: Dec)
    ensures Canonical(d) && Value(d) == At(total, e)
    ensures total != 0 ==> d.exponent >= e
  {
    if total == 0 then
      ZeroHasValueZero();
      Zero
    else
      var c: nat := if total < 0 then -total else total;
      var d := Dec(total < 0, DecimalText.NatDigits(c), e);
      assert Signed(d) == total;
      assert Coefficient([0]) == 0 by { assert [0][..0] == []; }
      DecimalText.DropZeros(d)
  }

  lemma {:induction false} TotalIsSum(values: seq<Dec>, e: int)
    requires forall i :: 0 <= i < |values| ==> e <= values[i].exponent
    ensures At(TotalAt(values, e), e) == Sum(Value, values)
  {
    if values != [] {
      var first := Signed(values[0]) * Pow10(values[0].exponent - e);
      TotalIsSum(values[1..], e);
      Rescale(Signed(values[0]), values[0].exponent, e);
      AddAtScale(first, TotalAt(values[1..], e), e);
    }
  }

  /**
   * A call is refused if and only if an input is out of bounds, or the inputs
   * added up at their smallest exponent and stripped of zeros have more than 34
   * digits or an exponent above 6144; the lower bound alone never refuses.
   */
  lemma RefusedExactly(values: seq<Dec>, result: Option<Dec>)
    requires AllDigits(values) && IsExactSum(values, result)
    ensures var e := CommonExponent(values);
            var total := Stripped(TotalAt(values, e), e);
            && (result.None? <==>
                  || (exists i :: 0 <= i < |values| && !(|values[i].digits| <= 34 && -6143 <= values[i].exponent <= 6144))
                  || |total.digits| > 34 || total.exponent > 6144)
            && (result.Some? ==> result.value == total)
  {
    var e := CommonExponent(values);
    var total := Stripped(TotalAt(values, e), e);
    TotalIsSum(values, e);
    if AllInBounds(values) {
      assert total.exponent >= MIN_DECIMAL_EXPONENT;
      if result.Some? {
        CanonicalUnique(result.value, total);
      }
    }
  }

  /** One in-bounds input alone is refused if and only if its trailing zeros lift its exponent above 6144. */
  lemma OneRefusedExactly(d: Dec, result: Option<Dec>)
    requires DecimalText.WellFormed(d) && InBounds(d) && IsExactSum([d], result)
    ensures result.None? <==> DecimalText.CanonicalOf(d).exponent > 6144
  {
    var c := DecimalText.CanonicalOf(d);
    assert Sum(Value, [d]) == Value(d);
    if result.Some? {
      CanonicalUnique(result.value, c);
    }
    if d.digits != [0] {
      assert |c.digits| <= |d.digits| && d.exponent <= c.exponent;
    }
  }

  /** An in-bounds input can be refused on its own: 10e6144 has the canonical form 1e6145. */
  lemma InBoundsInputCanBeRefused(result: Option<Dec>)
    requires IsExactSum([Dec(false, [1, 0], 6144)], result)
    ensures InBounds(Dec(false, [1, 0], 6144))
    ensures result.None?
  {
    var input, canonical := Dec(false, [1, 0], MAX_DECIMAL_EXPONENT), Dec(false, [1], MAX_DECIMAL_EXPONENT + 1);
    assert Coefficient([1]) == 1 by { assert [1][..0] == []; }
    assert Coefficient([1, 0]) == 10 by { assert [1, 0][..1] == [1]; }
    ScaleSucc(MAX_DECIMAL_EXPONENT);
    assert Sum(Value, [input]) == Value(input);
    if result.Some? {
      CanonicalUnique(result.value, canonical);
    }
  }
}
