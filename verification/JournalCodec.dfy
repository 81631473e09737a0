/**
 * The tagged codec of tx_trade/orders/live_journal_codec.py: its bounded decimal
 * text, which rounds to the ambient precision, and the node tree of records,
 * enums, tuples and scalars.  JSON text below the tree is not modelled; time
 * and byte spellings are parameters.
 */
module JournalCodec {
  import opened Wrappers
  import opened Decimals
  import opened DecimalText

  const MAX_DECIMAL_TEXT_LENGTH := 128
  const MAX_DECIMAL_DIGITS := 128
  const MAX_DECIMAL_ABS_EXPONENT := 128
  const AMBIENT_PRECISION := 28

  // ---- Decimals ---------------------------------------------------------------

  /** `normalize()` under the default context: 28 significant digits, half to even. */
  function Normalized(d: Dec): (c: Dec)
    requires WellFormed(d)
    ensures Canonical(c)
  {
    var c := CanonicalOf(d);
    if |c.digits| <= AMBIENT_PRECISION then c else Rounded(c, |c.digits| - AMBIENT_PRECISION)
  }

  function Quotient(c: nat, p: nat): nat
    requires p > 0
  {
    var q, r := c / p, c % p;
    if 2 * r > p || (2 * r == p && q % 2 == 1) then q + 1 else q
  }

  function Rounded(c: Dec, drop: nat): (r: Dec)
    ensures Canonical(r)
  {
    Pow10Positive(drop);
    CanonicalOf(Dec(c.negative, NatDigits(Quotient(Coefficient(c.digits), Pow10(drop))), c.exponent + drop))
  }

  lemma Pow10Positive(n: nat)
    ensures Pow10(n) > 0
  {
  }

  predicate Bounded(text: string) {
    && |text| <= MAX_DECIMAL_TEXT_LENGTH
    && match PartsOf(Unsigned(text))
       case None => false
       case Some(parts) =>
         && (parts.whole == [0] || parts.whole[0] != 0)
         && |parts.whole| + |parts.fraction| <= MAX_DECIMAL_DIGITS
         && BoundedExponent(parts.tail)
  }

  predicate BoundedExponent(tail: string) {
    tail == "" ||
    (&& tail[0] == 'e'
     && ReadInt(tail[1..]).Some?
     && |Unsigned(tail[1..])| <= 3
     && -MAX_DECIMAL_ABS_EXPONENT <= ReadInt(tail[1..]).value <= MAX_DECIMAL_ABS_EXPONENT)
  }

  /** The codec's `_canonical_decimal`; None is its LiveJournalCodecError. */
  function EncodeDecimal(d: Dec): Option<string>
    requires WellFormed(d)
  {
    if |d.digits| > MAX_DECIMAL_DIGITS || !(-MAX_DECIMAL_ABS_EXPONENT <= d.exponent <= MAX_DECIMAL_ABS_EXPONENT) then None
    else if d.digits == [0] then Some("0")
    else
      var text := PrintCanonical(Normalized(d));
      if Bounded(text) then Some(text) else None
  }

  function PrintCanonical(c: Dec): string
    requires Canonical(c)
  {
    if c == Zero then "0" else if |Plain(c)| > |Scientific(c)| then Scientific(c) else Plain(c)
  }

  function DecodeDecimal(text: string): (r: Option<Dec>)
    ensures r.Some? ==> WellFormed(r.value) && EncodeDecimal(r.value) == Some(text)
  {
    if !Bounded(text) then None
    else match Read(text)
      case None => None
      case Some(d) => if EncodeDecimal(d) == Some(text) then Some(d) else None
  }

  // ---- Rounding ----------------------------------------------------------------

  /** Rounding keeps at most the ambient precision and never lowers the exponent of a non-zero decimal. */
  lemma NormalizedIsShort(d: Dec)
    requires WellFormed(d) && d.digits != [0]
    ensures |Normalized(d).digits| <= AMBIENT_PRECISION
    ensures Normalized(d) != Zero && d.exponent <= Normalized(d).exponent
  {
    var c := CanonicalOf(d);
    if |c.digits| > AMBIENT_PRECISION {
      RoundedIsShort(c, AMBIENT_PRECISION, |c.digits| - AMBIENT_PRECISION);
    }
  }

  lemma RoundedIsShort(c: Dec, digits: nat, drop: nat)
    requires Canonical(c) && c != Zero && digits > 0 && drop > 0 && |c.digits| == digits + drop
    ensures |Rounded(c, drop).digits| <= digits
    ensures Rounded(c, drop) != Zero && c.exponent <= Rounded(c, drop).exponent
  {
    Pow10Positive(drop);
    var q := Quotient(Coefficient(c.digits), Pow10(drop));
    assert 0 < q <= Pow10(digits) by {
      QuotientRange(c.digits, digits, drop, q);
      Pow10Positive(digits - 1);
    }
    var raw := Dec(c.negative, NatDigits(q), c.exponent + drop);
    ShortCoefficient(raw, digits);
  }

  lemma ShortCoefficient(raw: Dec, digits: nat)
    requires IsDigits(raw.digits) && raw.digits[0] != 0 && digits > 0
    requires Coefficient(raw.digits) <= Pow10(digits)
    ensures |DropZeros(raw).digits| <= digits
  {
    DigitCount(raw.digits, digits);
    DigitCount(raw.digits, digits + 1);
    if Coefficient(raw.digits) == Pow10(digits) {
      assert Pow10(digits) == 10 * Pow10(digits - 1);
      DropsOne(raw);
    }
  }

  lemma DropsOne(d: Dec)
    requires IsDigits(d.digits) && d.digits[0] != 0 && Coefficient(d.digits) % 10 == 0
    ensures |DropZeros(d).digits| < |d.digits|
  {
  }

  lemma QuotientRange(digits: seq<nat>, keep: nat, drop: nat, q: nat)
    requires IsDigits(digits) && digits[0] != 0 && keep > 0 && |digits| == keep + drop
    requires Pow10(drop) > 0 && q == Quotient(Coefficient(digits), Pow10(drop))
    ensures Pow10(keep - 1) <= q <= Pow10(keep)
  {
    CoefficientBounds(digits);
    Pow10Split(keep, drop);
    Pow10Split(keep - 1, drop);
    DivideRange(Coefficient(digits), Pow10(drop), Pow10(keep - 1), Pow10(keep));
  }

  lemma Pow10Split(a: nat, b: nat)
    ensures Pow10(a + b) == Pow10(a) * Pow10(b)
  {
    if a > 0 {
      Pow10Split(a - 1, b);
      assert 10 * (Pow10(a - 1) * Pow10(b)) == (10 * Pow10(a - 1)) * Pow10(b);
    }
  }

  lemma DivideRange(c: nat, p: nat, low: nat, high: nat)
    requires p > 0 && low * p <= c < high * p
    ensures low <= c / p < high
  {
    assert (c / p) * p <= c < (c / p + 1) * p;
    BelowFactor(c / p, high, p);
    BelowFactor(low, c / p + 1, p);
  }

  lemma BelowFactor(a: nat, b: nat, p: nat)
    ensures a * p < b * p ==> a < b
  {
  }

  /** The codec keeps a number exactly when it has at most 28 significant digits. */
  lemma RoundingIsExactUpToPrecision(d: Dec)
    requires WellFormed(d)
    ensures Value(Normalized(d)) == Value(d) <==> |CanonicalOf(d).digits| <= 28
  {
    var c := CanonicalOf(d);
    if |c.digits| > AMBIENT_PRECISION && Value(Normalized(d)) == Value(d) {
      NormalizedIsShort(d);
      CanonicalUnique(Normalized(d), c);
    }
  }

  function Distance(a: int, b: int): nat {
    if a >= b then a - b else b - a
  }

  /**
   * A number of more than 28 significant digits is rounded to the nearest one
   * of 28, and halfway between two of them to the even one.
   */
  lemma RoundsHalfToEven(d: Dec) returns (q: int, drop: nat)
    requires WellFormed(d) && |CanonicalOf(d).digits| > 28
    ensures var c := CanonicalOf(d);
            && drop == |c.digits| - 28
            && Value(Normalized(d)) == At(if c.negative then -q else q, c.exponent + drop)
            && 2 * Distance(q * Pow10(drop), Coefficient(c.digits)) <= Pow10(drop)
            && (2 * Distance(q * Pow10(drop), Coefficient(c.digits)) == Pow10(drop) ==> q % 2 == 0)
  {
    var c := CanonicalOf(d);
    drop := |c.digits| - 28;
    Pow10Positive(drop);
    q := Quotient(Coefficient(c.digits), Pow10(drop));
    NearestQuotient(Coefficient(c.digits), Pow10(drop));
    assert Coefficient(NatDigits(q)) == q;
  }

  lemma NearestQuotient(c: nat, p: nat)
    requires p > 0
    ensures 2 * Distance(Quotient(c, p) * p, c) <= p
    ensures 2 * Distance(Quotient(c, p) * p, c) == p ==> Quotient(c, p) % 2 == 0
  {
    var q, r := c / p, c % p;
    assert c == q * p + r && 0 <= r < p;
    OneMore(q, p);
  }

  lemma OneMore(q: nat, p: nat)
    ensures (q + 1) * p == q * p + p
  {
  }

  // ---- Round trip of decimal text --------------------------------------------------

  lemma ScientificExponentBounded(c: Dec)
    requires Canonical(c) && c != Zero && Bounded(Scientific(c))
    ensures c.exponent <= MAX_DECIMAL_ABS_EXPONENT
  {
    ScientificParts(c);
    BoundedTail(Scientific(c), Parts(c.digits[..1], c.digits[1..], ExponentText(Magnitude(c))));
    ExponentInBounds(Magnitude(c));
  }

  /** The position of the leading digit of a number. */
  function Magnitude(c: Dec): int {
    c.exponent + |c.digits| - 1
  }

  lemma ScientificParts(c: Dec)
    requires Printable(c)
    ensures PartsOf(Unsigned(Scientific(c))) == Some(Parts(c.digits[..1], c.digits[1..], ExponentText(Magnitude(c))))
  {
    SpelledParts(c.negative, c.digits[..1], c.digits[1..], Magnitude(c), Scientific(c));
  }

  lemma BoundedTail(text: string, parts: Parts)
    requires Bounded(text) && PartsOf(Unsigned(text)) == Some(parts)
    ensures BoundedExponent(parts.tail)
  {
  }

  lemma ExponentInBounds(e: int)
    requires BoundedExponent(ExponentText(e))
    ensures -MAX_DECIMAL_ABS_EXPONENT <= e <= MAX_DECIMAL_ABS_EXPONENT
  {
    if e != 0 {
      assert ExponentText(e)[1..] == IntText(e);
      ReadIntText(e);
    }
  }

  /** What the canonical text of a short decimal reads back as. */
  lemma PrintedReads(c: Dec) returns (r: Dec)
    requires Canonical(c) && c != Zero && Bounded(PrintCanonical(c))
    ensures Read(PrintCanonical(c)) == Some(r) && Value(r) == Value(c)
    ensures r.exponent <= MAX_DECIMAL_ABS_EXPONENT
    ensures r.exponent >= (if c.exponent < 0 then c.exponent else 0)
  {
    if |Plain(c)| > |Scientific(c)| {
      ReadScientific(c);
      ScientificExponentBounded(c);
      r := c;
    } else {
      r := ReadPlain(c);
    }
  }

  lemma ReadDigitsBounded(text: string, r: Dec)
    requires Bounded(text) && Read(text) == Some(r)
    ensures |r.digits| <= MAX_DECIMAL_DIGITS
  {
    var parts := PartsOf(Unsigned(text)).value;
    assert |TrimZeros(parts.whole + parts.fraction)| <= |parts.whole + parts.fraction|;
  }

  /**
   * Whatever the codec encodes it decodes, to the number rounded to the
   * ambient precision; the original number comes back exactly when it fits.
   */
  lemma DecimalRoundTrip(d: Dec, text: string) returns (r: Dec)
    requires WellFormed(d) && EncodeDecimal(d) == Some(text)
    ensures DecodeDecimal(text) == Some(r)
    ensures Value(r) == Value(Normalized(d))
    ensures Value(r) == Value(d) <==> |CanonicalOf(d).digits| <= 28
  {
    RoundingIsExactUpToPrecision(d);
    if d.digits == [0] {
      r := Zero;
      ZeroTextReads();
    } else {
      NormalizedIsShort(d);
      r := ShortRoundTrip(Normalized(d), text);
    }
  }

  lemma ShortRoundTrip(c: Dec, text: string) returns (r: Dec)
    requires Canonical(c) && c != Zero && |c.digits| <= AMBIENT_PRECISION
    requires -MAX_DECIMAL_ABS_EXPONENT <= c.exponent && text == PrintCanonical(c) && Bounded(text)
    ensures DecodeDecimal(text) == Some(r) && Value(r) == Value(c)
  {
    r := PrintedReads(c);
    ReadDigitsBounded(text, r);
    assert r.digits != [0] by { CanonicalCoefficient(c); if r.digits == [0] { ZeroDigits(r); } }
    assert CanonicalOf(r) == c by { CanonicalUnique(CanonicalOf(r), c); }
    assert Normalized(r) == c;
    assert EncodeDecimal(r) == Some(text);
  }

  lemma ZeroTextReads()
    ensures Read("0") == Some(Zero) && Bounded("0")
  {
    assert Spell(false, [0], [], 0) == "0" by { assert Chars([0]) == "0"; }
    assert [0] + [] == [0];
    ReadSpelled(false, [0], [], 0);
    SpelledParts(false, [0], [], 0, "0");
  }

  // ---- What can be encoded -----------------------------------------------------------------

  lemma SmallExponentText(e: int)
    requires -1000 < e < 1000
    ensures |ExponentText(e)| <= 5
    ensures e != 0 ==> |Unsigned(IntText(e))| <= 3
  {
    if e != 0 {
      var n: nat := if e < 0 then -e else e;
      DigitCount(NatDigits(n), 3);
      CharsLength(NatDigits(n));
      assert Pow10(3) == 1000;
    }
  }

  lemma ScientificIsShort(c: Dec)
    requires Printable(c) && -1000 < Magnitude(c) < 1000
    ensures |Scientific(c)| <= |c.digits| + 7
  {
    CharsLength(c.digits[..1]);
    CharsLength(c.digits[1..]);
    SmallExponentText(Magnitude(c));
  }

  /** A scientific form of at most 28 digits is within bounds exactly when its exponent is. */
  lemma ScientificBoundedExactly(c: Dec)
    requires Canonical(c) && c != Zero && |c.digits| <= AMBIENT_PRECISION && -1000 < Magnitude(c) < 1000
    ensures Bounded(Scientific(c)) <==> -MAX_DECIMAL_ABS_EXPONENT <= Magnitude(c) <= MAX_DECIMAL_ABS_EXPONENT
  {
    ScientificIsShort(c);
    ScientificParts(c);
    ExponentBoundedExactly(Magnitude(c));
  }

  lemma ExponentBoundedExactly(e: int)
    requires -1000 < e < 1000
    ensures BoundedExponent(ExponentText(e)) <==> -MAX_DECIMAL_ABS_EXPONENT <= e <= MAX_DECIMAL_ABS_EXPONENT
  {
    SmallExponentText(e);
    if e != 0 {
      assert ExponentText(e)[1..] == IntText(e);
      ReadIntText(e);
    }
  }

  /** A plain form that is not longer than the scientific one is within bounds. */
  lemma ShortPlainIsBounded(c: Dec)
    requires Canonical(c) && c != Zero && |c.digits| <= AMBIENT_PRECISION && -1000 < Magnitude(c) < 1000
    requires |Plain(c)| <= |Scientific(c)|
    ensures Bounded(Plain(c)) && Magnitude(c) <= MAX_DECIMAL_ABS_EXPONENT
  {
    ScientificIsShort(c);
    PlainLength(c);
    var whole, fraction, r := PlainParts(c);
    SpelledParts(c.negative, whole, fraction, 0, Plain(c));
    CharsLength(whole);
    CharsLength(fraction);
  }

  /**
   * A decimal is encoded unless it has more than 128 digits or an exponent
   * beyond 128 either way, or is, once rounded to 28 digits, a number of 130
   * digits before the point or more.
   */
  lemma EncodableExactly(d: Dec)
    requires WellFormed(d)
    ensures EncodeDecimal(d).None?
            <==> |d.digits| > 128 || d.exponent < -128 || d.exponent > 128
                 || (d.digits != [0] && Magnitude(Normalized(d)) > 128)
  {
    if |d.digits| <= 128 && -128 <= d.exponent <= 128 && d.digits != [0] {
      var c := Normalized(d);
      NormalizedIsShort(d);
      NormalizedMagnitude(d);
      ScientificBoundedExactly(c);
      if |Plain(c)| <= |Scientific(c)| {
        ShortPlainIsBounded(c);
      }
    }
  }

  /** Rounding can lift a number by one place at most. */
  lemma NormalizedMagnitude(d: Dec)
    requires WellFormed(d) && d.digits != [0] && |d.digits| <= 128 && -128 <= d.exponent <= 128
    ensures -128 <= Magnitude(Normalized(d)) < 1000
  {
    var c := CanonicalOf(d);
    CanonicalMagnitude(d);
    if |c.digits| > AMBIENT_PRECISION {
      RoundedMagnitude(c, |c.digits| - AMBIENT_PRECISION);
    }
  }

  lemma CanonicalMagnitude(d: Dec)
    requires WellFormed(d) && d.digits != [0]
    ensures Magnitude(CanonicalOf(d)) == Magnitude(d)
  {
    DropsKeepMagnitude(d);
  }

  lemma {:induction false} DropsKeepMagnitude(d: Dec)
    requires IsDigits(d.digits) && d.digits[0] != 0
    ensures Magnitude(DropZeros(d)) == Magnitude(d)
    decreases |d.digits|
  {
    if d.digits[|d.digits| - 1] == 0 {
      DropsKeepMagnitude(d.(digits := d.digits[..|d.digits| - 1], exponent := d.exponent + 1));
    }
  }

  lemma RoundedMagnitude(c: Dec, drop: nat)
    requires Canonical(c) && c != Zero && drop > 0 && |c.digits| == AMBIENT_PRECISION + drop
    ensures Magnitude(c) <= Magnitude(Rounded(c, drop)) <= Magnitude(c) + 1
  {
    Pow10Positive(drop);
    var q := Quotient(Coefficient(c.digits), Pow10(drop));
    QuotientRange(c.digits, AMBIENT_PRECISION, drop, q);
    Pow10Positive(AMBIENT_PRECISION - 1);
    var raw := Dec(c.negative, NatDigits(q), c.exponent + drop);
    DigitCount(raw.digits, AMBIENT_PRECISION + 1);
    DigitCount(raw.digits, AMBIENT_PRECISION - 1);
    CanonicalMagnitude(raw);
  }

  // ---- Decoded decimals are within the contracts' bounds -----------------------------------

  const MAX_CONTRACT_DIGITS := 34
  const MIN_CONTRACT_EXPONENT := -6143
  const MAX_CONTRACT_EXPONENT := 6144

  /** The form check of `_decimal` in live_contracts.py, which looks at digits and exponent and not at the number. */
  predicate FitsContracts(d: Dec) {
    |d.digits| <= MAX_CONTRACT_DIGITS && MIN_CONTRACT_EXPONENT <= d.exponent <= MAX_CONTRACT_EXPONENT
  }

  /** Whatever text is decoded, the decimal passes the contracts' form check: zeros are spelled out only where that is no longer. */
  lemma DecodedFits(text: string)
    requires DecodeDecimal(text).Some?
    ensures FitsContracts(DecodeDecimal(text).value)
    ensures |DecodeDecimal(text).value.digits| <= 34 && -6143 <= DecodeDecimal(text).value.exponent <= 6144
  {
    var d := DecodeDecimal(text).value;
    if d.digits == [0] {
      ZeroTextReads();
    } else {
      NormalizedIsShort(d);
      PrintedFits(Normalized(d), d);
    }
  }

  lemma PrintedFits(c: Dec, r: Dec)
    requires Canonical(c) && c != Zero && |c.digits| <= AMBIENT_PRECISION && Bounded(PrintCanonical(c))
    requires c.exponent >= -MAX_DECIMAL_ABS_EXPONENT && Read(PrintCanonical(c)) == Some(r)
    ensures FitsContracts(r)
  {
    if |Plain(c)| > |Scientific(c)| {
      ReadScientific(c);
      ScientificExponentBounded(c);
    } else {
      PlainLength(c);
      PlainDigits(c, r);
      if c.exponent >= 0 {
        ScientificLength(c);
      }
    }
  }

  /** The plain form spells the digits and the zeros up to the units. */
  lemma PlainDigits(c: Dec, r: Dec)
    requires Printable(c) && Read(Plain(c)) == Some(r)
    ensures |r.digits| <= |c.digits| + (if c.exponent > 0 then c.exponent else 0)
    ensures r.exponent == if c.exponent < 0 then c.exponent else 0
  {
    var zeros: nat := if c.exponent > 0 then c.exponent else 0;
    var read := ReadPlain(c);
    assert read == r;
    SameValueShift(Signed(r), r.exponent, Signed(c), c.exponent);
    FewDigits(c, r, zeros);
  }

  lemma FewDigits(c: Dec, r: Dec, zeros: nat)
    requires Printable(c) && WellFormed(r) && Signed(r) == Signed(c) * Pow10(zeros)
    ensures |r.digits| <= |c.digits| + zeros
  {
    if r.digits != [0] {
      CoefficientBounds(c.digits);
      Pow10Positive(zeros);
      Pow10Split(|c.digits|, zeros);
      ScaledBound(Signed(c), Coefficient(c.digits), Pow10(|c.digits|), Pow10(zeros));
      DigitCount(r.digits, |c.digits| + zeros);
    }
  }

  lemma ScaledBound(signed: int, c: nat, bound: nat, p: nat)
    requires c < bound && p > 0 && (signed == c || signed + c == 0)
    ensures -(bound * p) < signed * p < bound * p
  {
    assert c * p < bound * p by { Below(c, bound, p); }
    assert (-(c as int)) * p == -(c * p) by { NegatedProduct(c, p); }
  }

  lemma Below(a: nat, b: nat, p: nat)
    requires a < b && p > 0
    ensures a * p < b * p
  {
  }

  /** A scientific form with a three-digit exponent at most is the digits, a point and four characters more. */
  lemma ScientificLength(c: Dec)
    requires Printable(c) && c.exponent >= 0 && c.exponent + |c.digits| <= MAX_DECIMAL_TEXT_LENGTH
    ensures |Scientific(c)| <= |SignText(c.negative)| + |c.digits| + 5
  {
    var adjusted := c.exponent + |c.digits| - 1;
    CharsLength(c.digits[..1]);
    CharsLength(c.digits[1..]);
    if adjusted > 0 {
      DigitCount(NatDigits(adjusted), 3);
      CharsLength(NatDigits(adjusted));
      assert Pow10(3) == 1000;
    }
  }

  // ---- The node tree ---------------------------------------------------------------

  datatype Val =
    | Record(name: string, members: map<string, Val>)
    | EnumVal(enum: string, text: string)
    | Time(time: int)
    | Number(dec: Dec)
    | Bytes(bytes: seq<nat>)
    | Tuple(items: seq<Val>)
    | Str(str: string) | Int(int_: int) | Bool(bool_: bool) | Nil

  datatype Json =
    | Object(fields: map<string, Json>)
    | List(elements: seq<Json>)
    | JStr(s: string) | JInt(i: int) | JBool(b: bool) | JFloat | JNull

  /**
   * The registered dataclasses (constructor fields, members fixed by a default,
   * constructor check), the registered enums, and the spellings of times and bytes.
   * A constructor may look at the form of its decimals; it accepts any equal
   * members whose decimals fit the contracts.
   */
  datatype Registry = Registry(
    fields: map<string, set<string>>, defaults: map<string, map<string, Val>>,
    accepts: (string, map<string, Val>) -> bool, enums: map<string, set<string>>,
    timeText: int -> string, readTime: string -> Option<int>,
    byteText: seq<nat> -> string, readBytes: string -> Option<seq<nat>>)
  {
    ghost predicate Valid() {
      && defaults.Keys == fields.Keys
      && (forall name | name in fields :: fields[name] !! defaults[name].Keys)
      && (forall t :: readTime(timeText(t)) == Some(t))
      && (forall b :: readBytes(byteText(b)) == Some(b))
      && (forall name, k :: name in defaults && k in defaults[name] ==> Fits(defaults[name][k]))
      && (forall name, a, b :: accepts(name, a) && SameMembers(a, b) && AllFit(b) ==> accepts(name, b))
    }

    function InitPart(name: string, members: map<string, Val>): map<string, Val>
      requires name in fields
    {
      map k | k in members && k in fields[name] :: members[k]
    }

    /** The value a dataclass constructor builds, or None when its check raises. */
    function Construct(name: string, init: map<string, Val>): Option<Val>
      requires name in fields && name in defaults
    {
      if accepts(name, init) then Some(Record(name, init + defaults[name])) else None
    }
  }

  /** Alike in everything but the form of decimals, which agree in their number. */
  ghost predicate Same(v: Val, w: Val)
    decreases v
  {
    match (v, w)
    case (Record(a, m), Record(b, n)) => a == b && m.Keys == n.Keys && forall k | k in m :: Same(m[k], n[k])
    case (Tuple(s), Tuple(t)) => |s| == |t| && forall i :: 0 <= i < |s| ==> Same(s[i], t[i])
    case (Number(a), Number(b)) => Value(a) == Value(b)
    case _ => v == w
  }

  ghost predicate SameMembers(a: map<string, Val>, b: map<string, Val>) {
    a.Keys == b.Keys && forall k | k in a :: Same(a[k], b[k])
  }

  /** The text of a string or of a StrEnum member, which is a string. */
  function TextOf(v: Val): Option<string> {
    match v
    case Str(s) => Some(s)
    case EnumVal(_, text) => Some(text)
    case _ => None
  }

  /** The number of a bool, an int or a Decimal. */
  function NumberOf(v: Val): Option<real> {
    match v
    case Int(i) => Some(i as real)
    case Bool(b) => Some(if b then 1.0 else 0.0)
    case Number(d) => Some(Value(d))
    case _ => None
  }

  /** Python equality: texts and numbers compare across their types. */
  ghost predicate Equal(v: Val, w: Val)
    decreases v
  {
    if TextOf(v).Some? || NumberOf(v).Some? then TextOf(v) == TextOf(w) && NumberOf(v) == NumberOf(w)
    else match (v, w)
      case (Record(a, m), Record(b, n)) => a == b && m.Keys == n.Keys && forall k | k in m :: Equal(m[k], n[k])
      case (Tuple(s), Tuple(t)) => |s| == |t| && forall i :: 0 <= i < |s| ==> Equal(s[i], t[i])
      case _ => v == w
  }

  lemma SameIsEqual(v: Val, w: Val)
    requires Same(v, w)
    ensures Equal(v, w)
  {
  }

  /** Every decimal in a value, however deep, fits the contracts. */
  ghost predicate Fits(v: Val)
    decreases v
  {
    match v
    case Record(_, members) => forall k | k in members :: Fits(members[k])
    case Tuple(items) => forall i :: 0 <= i < |items| ==> Fits(items[i])
    case Number(d) => FitsContracts(d)
    case _ => true
  }

  ghost predicate AllFit(members: map<string, Val>) {
    forall k | k in members :: Fits(members[k])
  }

  /** Values that exist: every record came out of its own constructor, every enum value is a member. */
  ghost predicate Wellformed(reg: Registry, v: Val)
    decreases v
  {
    match v
    case Record(name, members) =>
      && (name in reg.fields && name in reg.defaults ==>
            && members.Keys == reg.fields[name] + reg.defaults[name].Keys
            && reg.Construct(name, reg.InitPart(name, members)) == Some(v))
      && forall k | k in members :: Wellformed(reg, members[k])
    case EnumVal(name, text) => name in reg.enums ==> text in reg.enums[name]
    case Tuple(items) => forall i :: 0 <= i < |items| ==> Wellformed(reg, items[i])
    case Number(d) => WellFormed(d)
    case _ => true
  }

  /** No decimal in a value, however deep, has more significant digits than the ambient precision. */
  ghost predicate Short(v: Val)
    decreases v
  {
    match v
    case Record(_, members) => forall k | k in members :: Short(members[k])
    case Tuple(items) => forall i :: 0 <= i < |items| ==> Short(items[i])
    case Number(d) => WellFormed(d) && |CanonicalOf(d).digits| <= AMBIENT_PRECISION
    case _ => true
  }

  ghost function Node(reg: Registry, v: Val): Option<Json>
    decreases v, 1
  {
    match v
    case Record(name, members) =>
      var nodes := NodeMembers(reg, v);
      if name !in reg.fields || nodes.None? then None
      else Some(Object(map["$type" := JStr(name), "$value" := Object(nodes.value)]))
    case EnumVal(name, text) =>
      if name in reg.enums then Some(Object(map["$enum" := JStr(name), "$value" := JStr(text)])) else None
    case Time(t) => Some(Object(map["$datetime" := JStr(reg.timeText(t))]))
    case Number(d) =>
      if !WellFormed(d) || EncodeDecimal(d).None? then None
      else Some(Object(map["$decimal" := JStr(EncodeDecimal(d).value)]))
    case Bytes(b) => Some(Object(map["$bytes" := JStr(reg.byteText(b))]))
    case Tuple(items) =>
      var nodes := NodeItems(reg, items);
      if nodes.None? then None else Some(Object(map["$tuple" := List(nodes.value)]))
    case Str(s) => Some(JStr(s))
    case Int(i) => Some(JInt(i))
    case Bool(b) => Some(JBool(b))
    case Nil => Some(JNull)
  }

  ghost function NodeMembers(reg: Registry, record: Val): Option<map<string, Json>>
    requires record.Record?
    decreases record, 0
  {
    if exists k | k in record.members :: Node(reg, record.members[k]).None? then None
    else Some(map k | k in record.members :: Node(reg, record.members[k]).value)
  }

  ghost function DecodeMembers(reg: Registry, record: Json): Option<map<string, Val>>
    requires reg.Valid() && record.Object?
    decreases record, 0
  {
    if exists k | k in record.fields :: Decode(reg, record.fields[k]).None? then None
    else Some(map k | k in record.fields :: Decode(reg, record.fields[k]).value)
  }

  /** Construct from the decoded constructor members, then compare the defaulted ones. */
  ghost function Rebuild(reg: Registry, name: string, decoded: map<string, Val>): Option<Val>
    requires reg.Valid() && name in reg.fields && decoded.Keys == reg.fields[name] + reg.defaults[name].Keys
  {
    var result := reg.Construct(name, reg.InitPart(name, decoded));
    if result.None? || exists k | k in reg.defaults[name] :: !Equal(result.value.members[k], decoded[k])
    then None else result
  }

  ghost function NodeItems(reg: Registry, items: seq<Val>): Option<seq<Json>>
    decreases items, 0
  {
    if items == [] then Some([])
    else
      var first, rest := Node(reg, items[0]), NodeItems(reg, items[1..]);
      if first.None? || rest.None? then None else Some([first.value] + rest.value)
  }

  ghost function DecodeItems(reg: Registry, items: seq<Json>): Option<seq<Val>>
    requires reg.Valid()
    decreases items, 0
  {
    if items == [] then Some([])
    else
      var first, rest := Decode(reg, items[0]), DecodeItems(reg, items[1..]);
      if first.None? || rest.None? then None else Some([first.value] + rest.value)
  }

  ghost function Decode(reg: Registry, j: Json): Option<Val>
    requires reg.Valid()
    decreases j, 1
  {
    match j
    case JStr(s) => Some(Str(s))
    case JInt(i) => Some(Int(i))
    case JBool(b) => Some(Bool(b))
    case JNull => Some(Nil)
    case JFloat => None
    case List(_) => None
    case Object(f) =>
      if f.Keys == {"$type", "$value"} then
        (match (f["$type"], f["$value"])
         case (JStr(name), Object(members)) =>
           if name !in reg.fields || members.Keys != reg.fields[name] + reg.defaults[name].Keys then None
           else var decoded := DecodeMembers(reg, f["$value"]);
                if decoded.None? then None else Rebuild(reg, name, decoded.value)
         case _ => None)
      else if f.Keys == {"$enum", "$value"} then
        (match (f["$enum"], f["$value"])
         case (JStr(name), JStr(text)) => if name in reg.enums && text in reg.enums[name] then Some(EnumVal(name, text)) else None
         case _ => None)
      else if f.Keys == {"$datetime"} then
        (match f["$datetime"]
         case JStr(raw) =>
           var t := reg.readTime(raw);
           if t.Some? && reg.timeText(t.value) == raw then Some(Time(t.value)) else None
         case _ => None)
      else if f.Keys == {"$decimal"} then
        (match f["$decimal"]
         case JStr(raw) => var d := DecodeDecimal(raw); if d.Some? then Some(Number(d.value)) else None
         case _ => None)
      else if f.Keys == {"$bytes"} then
        (match f["$bytes"]
         case JStr(raw) =>
           var b := reg.readBytes(raw);
           if b.Some? && reg.byteText(b.value) == raw then Some(Bytes(b.value)) else None
         case _ => None)
      else if f.Keys == {"$tuple"} then
        (match f["$tuple"]
         case List(items) =>
           var values := DecodeItems(reg, items);
           if values.None? then None else Some(Tuple(values.value))
         case _ => None)
      else None
  }

  // ---- What is encoded ------------------------------------------------------------------------

  /** Every record and enum in a value, however deep, is registered, and every decimal can be spelled. */
  ghost predicate Encodable(reg: Registry, v: Val)
    decreases v
  {
    match v
    case Record(name, members) => name in reg.fields && forall k | k in members :: Encodable(reg, members[k])
    case EnumVal(name, _) => name in reg.enums
    case Tuple(items) => forall i :: 0 <= i < |items| ==> Encodable(reg, items[i])
    case Number(d) => WellFormed(d) && EncodeDecimal(d).Some?
    case _ => true
  }

  /** How the root of a tree says what value it stands for. */
  ghost predicate Tagged(reg: Registry, v: Val, j: Json) {
    match v
    case Record(name, members) =>
      && j.Object? && j.fields.Keys == {"$type", "$value"} && j.fields["$type"] == JStr(name)
      && j.fields["$value"].Object? && j.fields["$value"].fields.Keys == members.Keys
    case EnumVal(name, text) => j.Object? && j.fields == map["$enum" := JStr(name), "$value" := JStr(text)]
    case Time(t) => j.Object? && j.fields == map["$datetime" := JStr(reg.timeText(t))]
    case Number(_) => j.Object? && j.fields.Keys == {"$decimal"}
    case Bytes(b) => j.Object? && j.fields == map["$bytes" := JStr(reg.byteText(b))]
    case Tuple(items) => j.Object? && j.fields.Keys == {"$tuple"} && j.fields["$tuple"].List? && |j.fields["$tuple"].elements| == |items|
    case Str(s) => j == JStr(s)
    case Int(i) => j == JInt(i)
    case Bool(b) => j == JBool(b)
    case Nil => j == JNull
  }

  /** A value has a tree exactly when all of it is encodable, and the tree is tagged with what the value is. */
  lemma {:induction false} NodeExactly(reg: Registry, v: Val)
    ensures Node(reg, v).Some? <==> Encodable(reg, v)
    ensures Node(reg, v).Some? ==> Tagged(reg, v, Node(reg, v).value)
    decreases v, 1
  {
    match v
    case Record(name, members) =>
      forall k | k in members ensures Node(reg, members[k]).Some? <==> Encodable(reg, members[k]) {
        NodeExactly(reg, members[k]);
      }
    case Tuple(items) => ItemsExactly(reg, items);
    case _ =>
  }

  lemma {:induction false} ItemsExactly(reg: Registry, items: seq<Val>)
    ensures NodeItems(reg, items).Some? <==> forall i :: 0 <= i < |items| ==> Encodable(reg, items[i])
    ensures NodeItems(reg, items).Some? ==> |NodeItems(reg, items).value| == |items|
    decreases items, 0
  {
    if items != [] {
      NodeExactly(reg, items[0]);
      ItemsExactly(reg, items[1..]);
      assert forall i :: 0 < i < |items| ==> items[i] == items[1..][i - 1];
    }
  }

  // ---- What decoding returns ----------------------------------------------------------------

  /** Whatever tree is decoded, every decimal in it fits the contracts. */
  lemma {:induction false} DecodedValueFits(reg: Registry, j: Json)
    requires reg.Valid() && Decode(reg, j).Some?
    ensures Fits(Decode(reg, j).value)
    decreases j, 1
  {
    if j.Object? {
      match Decode(reg, j).value
      case Record(name, members) => DecodedRecordFits(reg, j.fields);
      case Tuple(items) => DecodedItemsFit(reg, j.fields["$tuple"].elements);
      case Number(d) => DecodedFits(j.fields["$decimal"].s);
      case _ =>
    }
  }

  lemma {:induction false} DecodedRecordFits(reg: Registry, f: map<string, Json>)
    requires reg.Valid() && Decode(reg, Object(f)).Some? && Decode(reg, Object(f)).value.Record?
    ensures Fits(Decode(reg, Object(f)).value)
    decreases Object(f), 0
  {
    var name, nodes := f["$type"].s, f["$value"].fields;
    var decoded := DecodeMembers(reg, f["$value"]).value;
    forall k | k in nodes ensures Fits(decoded[k]) {
      DecodedValueFits(reg, nodes[k]);
    }
    var w := Rebuild(reg, name, decoded).value;
    assert w.members == reg.InitPart(name, decoded) + reg.defaults[name];
  }

  lemma {:induction false} DecodedItemsFit(reg: Registry, items: seq<Json>)
    requires reg.Valid() && DecodeItems(reg, items).Some?
    ensures forall i :: 0 <= i < |DecodeItems(reg, items).value| ==> Fits(DecodeItems(reg, items).value[i])
    decreases items, 0
  {
    if items != [] {
      DecodedValueFits(reg, items[0]);
      DecodedItemsFit(reg, items[1..]);
    }
  }

  /**
   * Every encodable nesting of records, enums, tuples and scalars whose decimals
   * are short decodes to the same value, which encodes to the very same tree.
   */
  lemma {:induction false} TreeRoundTrip(reg: Registry, v: Val) returns (w: Val)
    requires reg.Valid() && Wellformed(reg, v) && Short(v) && Node(reg, v).Some?
    ensures Decode(reg, Node(reg, v).value) == Some(w) && DecodeGuarded(reg, Node(reg, v).value) == Some(w)
    ensures Same(v, w) && Node(reg, w) == Node(reg, v)
    decreases v
  {
    match v
    case Record(name, members) => w := RecordRoundTrip(reg, name, members);
    case Tuple(items) =>
      var ws := ItemsRoundTrip(reg, items);
      DecodeTuple(reg, NodeItems(reg, items).value);
      w := Tuple(ws);
    case Number(d) => w := NumberRoundTrip(reg, d);
    case EnumVal(name, text) =>
      EnumRoundTrip(reg, name, text);
      w := v;
    case Time(t) =>
      TimeRoundTrip(reg, t);
      w := v;
    case Bytes(b) =>
      BytesRoundTrip(reg, b);
      w := v;
    case _ => w := v;
  }

  lemma NumberRoundTrip(reg: Registry, d: Dec) returns (w: Val)
    requires reg.Valid() && Wellformed(reg, Number(d)) && Short(Number(d)) && Node(reg, Number(d)).Some?
    ensures Decode(reg, Node(reg, Number(d)).value) == Some(w)
    ensures Same(Number(d), w) && Node(reg, w) == Node(reg, Number(d))
  {
    var raw := EncodeDecimal(d).value;
    var r := DecimalRoundTrip(d, raw);
    w := Number(r);
    DecodeNumber(reg, raw, r);
    NodeNumber(reg, r, raw);
    NodeNumber(reg, d, raw);
  }

  lemma DecodeNumber(reg: Registry, raw: string, d: Dec)
    requires reg.Valid() && DecodeDecimal(raw) == Some(d)
    ensures Decode(reg, Object(map["$decimal" := JStr(raw)])) == Some(Number(d))
  {
    OneKey("$decimal", JStr(raw));
  }

  lemma NodeNumber(reg: Registry, d: Dec, raw: string)
    requires WellFormed(d) && EncodeDecimal(d) == Some(raw)
    ensures Node(reg, Number(d)) == Some(Object(map["$decimal" := JStr(raw)]))
  {
  }

  /** A one-key object is neither a record nor an enum. */
  lemma OneKey(key: string, j: Json)
    requires key != "$type" && key != "$enum"
    ensures map[key := j].Keys == {key}
    ensures {key} != {"$type", "$value"} && {key} != {"$enum", "$value"}
  {
    assert "$type" !in {key} && "$enum" !in {key};
  }

  lemma EnumRoundTrip(reg: Registry, name: string, text: string)
    requires reg.Valid() && name in reg.enums && text in reg.enums[name]
    ensures Decode(reg, Object(map["$enum" := JStr(name), "$value" := JStr(text)])) == Some(EnumVal(name, text))
  {
    var f := map["$enum" := JStr(name), "$value" := JStr(text)];
    assert f.Keys == {"$enum", "$value"};
    assert "$type" !in f.Keys;
  }

  lemma TimeRoundTrip(reg: Registry, t: int)
    requires reg.Valid()
    ensures Decode(reg, Object(map["$datetime" := JStr(reg.timeText(t))])) == Some(Time(t))
  {
    OneKey("$datetime", JStr(reg.timeText(t)));
  }

  lemma BytesRoundTrip(reg: Registry, b: seq<nat>)
    requires reg.Valid()
    ensures Decode(reg, Object(map["$bytes" := JStr(reg.byteText(b))])) == Some(Bytes(b))
  {
    OneKey("$bytes", JStr(reg.byteText(b)));
  }

  lemma DecodeTuple(reg: Registry, nodes: seq<Json>)
    requires reg.Valid()
    ensures Decode(reg, Object(map["$tuple" := List(nodes)]))
            == if DecodeItems(reg, nodes).None? then None else Some(Tuple(DecodeItems(reg, nodes).value))
  {
    OneKey("$tuple", List(nodes));
  }

  lemma {:induction false} ItemsRoundTrip(reg: Registry, items: seq<Val>) returns (ws: seq<Val>)
    requires reg.Valid() && NodeItems(reg, items).Some?
    requires forall i :: 0 <= i < |items| ==> Wellformed(reg, items[i]) && Short(items[i])
    ensures DecodeItems(reg, NodeItems(reg, items).value) == Some(ws)
    ensures |ws| == |items| && (forall i :: 0 <= i < |items| ==> Same(items[i], ws[i]))
    ensures NodeItems(reg, ws) == NodeItems(reg, items)
    decreases items
  {
    if items == [] {
      ws := [];
    } else {
      var first := TreeRoundTrip(reg, items[0]);
      var rest := ItemsRoundTrip(reg, items[1..]);
      ws := [first] + rest;
      assert ws[1..] == rest;
      var nodes := NodeItems(reg, items).value;
      assert nodes[1..] == NodeItems(reg, items[1..]).value;
    }
  }

  lemma {:induction false} RecordRoundTrip(reg: Registry, name: string, members: map<string, Val>) returns (w: Val)
    requires reg.Valid() && Wellformed(reg, Record(name, members)) && Short(Record(name, members))
    requires Node(reg, Record(name, members)).Some?
    ensures Decode(reg, Node(reg, Record(name, members)).value) == Some(w)
    ensures Same(Record(name, members), w) && Node(reg, w) == Node(reg, Record(name, members))
    decreases Record(name, members), 1
  {
    var nodes, decoded := MembersRoundTrip(reg, name, members);
    w := ConstructedBack(reg, name, members, decoded);
    DecodeRecord(reg, name, nodes, decoded, w);
    NodeRecord(reg, name, members, nodes);
    NodeRecord(reg, name, w.members, nodes);
  }

  lemma {:induction false} MembersRoundTrip(reg: Registry, name: string, members: map<string, Val>)
    returns (nodes: map<string, Json>, decoded: map<string, Val>)
    requires reg.Valid() && Wellformed(reg, Record(name, members)) && Short(Record(name, members))
    requires Node(reg, Record(name, members)).Some?
    ensures nodes.Keys == members.Keys && decoded.Keys == members.Keys && SameMembers(members, decoded) && AllFit(decoded)
    ensures forall k | k in members :: Node(reg, members[k]) == Some(nodes[k])
    ensures forall k | k in members :: Decode(reg, nodes[k]) == Some(decoded[k]) && Node(reg, decoded[k]) == Some(nodes[k])
    decreases Record(name, members), 0
  {
    nodes := map k | k in members :: Node(reg, members[k]).value;
    forall k | k in members
      ensures Decode(reg, nodes[k]).Some? && Same(members[k], Decode(reg, nodes[k]).value)
      ensures Node(reg, Decode(reg, nodes[k]).value) == Some(nodes[k])
      ensures Fits(Decode(reg, nodes[k]).value)
    {
      var _ := TreeRoundTrip(reg, members[k]);
      DecodedValueFits(reg, nodes[k]);
    }
    decoded := map k | k in members :: Decode(reg, nodes[k]).value;
  }

  function RecordNode(name: string, nodes: map<string, Json>): Json {
    Object(map["$type" := JStr(name), "$value" := Object(nodes)])
  }

  lemma NodeRecord(reg: Registry, name: string, members: map<string, Val>, nodes: map<string, Json>)
    requires name in reg.fields && members.Keys == nodes.Keys
    requires forall k | k in members :: Node(reg, members[k]) == Some(nodes[k])
    ensures Node(reg, Record(name, members)) == Some(RecordNode(name, nodes))
  {
    assert NodeMembers(reg, Record(name, members)).value == nodes;
  }

  lemma DecodeRecord(reg: Registry, name: string, nodes: map<string, Json>, decoded: map<string, Val>, w: Val)
    requires reg.Valid() && name in reg.fields && nodes.Keys == reg.fields[name] + reg.defaults[name].Keys
    requires decoded.Keys == nodes.Keys && forall k | k in nodes :: Decode(reg, nodes[k]) == Some(decoded[k])
    requires Rebuild(reg, name, decoded) == Some(w)
    ensures Decode(reg, RecordNode(name, nodes)) == Some(w)
  {
    assert DecodeMembers(reg, Object(nodes)).value == decoded;
    assert map["$type" := JStr(name), "$value" := Object(nodes)].Keys == {"$type", "$value"};
  }

  /** Constructing from equal members rebuilds an equal record; defaulted members come from the default itself. */
  lemma ConstructedBack(reg: Registry, name: string, members: map<string, Val>, decoded: map<string, Val>) returns (w: Val)
    requires reg.Valid() && name in reg.fields && Wellformed(reg, Record(name, members))
    requires SameMembers(members, decoded) && AllFit(decoded)
    ensures reg.Construct(name, reg.InitPart(name, decoded)) == Some(w)
    ensures Rebuild(reg, name, decoded) == Some(w)
    ensures w.Record? && w.name == name && w.members.Keys == members.Keys
    ensures forall k | k in members :: w.members[k] == if k in reg.defaults[name] then members[k] else decoded[k]
    ensures forall k | k in reg.defaults[name] :: k in members && members[k] == reg.defaults[name][k]
    ensures SameMembers(members, w.members)
  {
    var before, init := reg.InitPart(name, members), reg.InitPart(name, decoded);
    assert SameMembers(before, init) && AllFit(init);
    assert members == before + reg.defaults[name];
    w := Record(name, init + reg.defaults[name]);
    forall k | k in members
      ensures Same(members[k], w.members[k])
    {
      SameReflexive(members[k]);
    }
    forall k | k in reg.defaults[name] ensures Equal(w.members[k], decoded[k]) {
      SameIsEqual(members[k], decoded[k]);
    }
  }

  lemma SameReflexive(v: Val)
    ensures Same(v, v)
  {
  }

  // ---- When a value comes back ----------------------------------------------------------------

  /** A value that comes back equal has short decimals only: nothing makes up for a rounded one. */
  lemma {:induction false} OnlyShortComesBack(reg: Registry, v: Val)
    requires reg.Valid() && Wellformed(reg, v) && Node(reg, v).Some? && Decode(reg, Node(reg, v).value).Some?
    requires Equal(v, Decode(reg, Node(reg, v).value).value)
    ensures Short(v)
    decreases v
  {
    match v
    case Record(name, members) => OnlyShortMembersComeBack(reg, name, members);
    case Tuple(items) =>
      DecodeTuple(reg, NodeItems(reg, items).value);
      OnlyShortItemsComeBack(reg, items);
    case Number(d) =>
      var r := DecimalRoundTrip(d, EncodeDecimal(d).value);
      DecodeNumber(reg, EncodeDecimal(d).value, r);
    case _ =>
  }

  lemma {:induction false} OnlyShortItemsComeBack(reg: Registry, items: seq<Val>)
    requires reg.Valid() && (forall i :: 0 <= i < |items| ==> Wellformed(reg, items[i])) && NodeItems(reg, items).Some?
    requires DecodeItems(reg, NodeItems(reg, items).value).Some?
    requires Equal(Tuple(items), Tuple(DecodeItems(reg, NodeItems(reg, items).value).value))
    ensures forall i :: 0 <= i < |items| ==> Short(items[i])
    decreases items
  {
    if items != [] {
      var nodes := NodeItems(reg, items).value;
      assert nodes[1..] == NodeItems(reg, items[1..]).value;
      var values := DecodeItems(reg, nodes).value;
      assert values[1..] == DecodeItems(reg, nodes[1..]).value;
      assert Equal(items[0], values[0]);
      OnlyShortComesBack(reg, items[0]);
      OnlyShortItemsComeBack(reg, items[1..]);
    }
  }

  lemma {:induction false} OnlyShortMembersComeBack(reg: Registry, name: string, members: map<string, Val>)
    requires reg.Valid() && Wellformed(reg, Record(name, members)) && Node(reg, Record(name, members)).Some?
    requires var back := Decode(reg, Node(reg, Record(name, members)).value);
             back.Some? && Equal(Record(name, members), back.value)
    ensures Short(Record(name, members))
    decreases Record(name, members), 0
  {
    var nodes := NodeMembers(reg, Record(name, members)).value;
    assert Node(reg, Record(name, members)) == Some(RecordNode(name, nodes));
    var decoded := MembersDecoded(reg, name, nodes);
    var w := Rebuild(reg, name, decoded).value;
    assert members == reg.InitPart(name, members) + reg.defaults[name];
    forall k | k in members ensures Short(members[k]) {
      assert nodes[k] == Node(reg, members[k]).value;
      assert Equal(members[k], decoded[k]);
      OnlyShortComesBack(reg, members[k]);
    }
  }

  /** A value comes back from its tree, equal or the same but for the form of decimals, if and only if its decimals are short. */
  lemma ComesBackExactly(reg: Registry, v: Val)
    requires reg.Valid() && Wellformed(reg, v) && Node(reg, v).Some?
    ensures var back := Decode(reg, Node(reg, v).value);
            && (back.Some? && Same(v, back.value) <==> Short(v))
            && (back.Some? && Equal(v, back.value) <==> Short(v))
  {
    var back := Decode(reg, Node(reg, v).value);
    if Short(v) {
      var w := TreeRoundTrip(reg, v);
      SameIsEqual(v, w);
    }
    if back.Some? && Same(v, back.value) {
      SameIsEqual(v, back.value);
    }
    if back.Some? && Equal(v, back.value) {
      OnlyShortComesBack(reg, v);
    }
  }

  // ---- The re-encoding guard -------------------------------------------------------------------

  /** The end of `decode_journal_value`: a decoded value has to encode to what was decoded. */
  ghost function DecodeGuarded(reg: Registry, j: Json): Option<Val>
    requires reg.Valid()
  {
    var w := Decode(reg, j);
    if w.Some? && Node(reg, w.value) == Some(j) then w else None
  }

  /** Every defaulted member in a tree is spelled as its default is encoded. */
  ghost predicate SpellsDefaults(reg: Registry, j: Json)
    requires reg.Valid()
    decreases j, 1
  {
    j.Object? ==>
      && (j.fields.Keys == {"$type", "$value"} ==>
            (j.fields["$type"].JStr? && j.fields["$type"].s in reg.fields && j.fields["$value"].Object? ==>
              MembersSpellDefaults(reg, j.fields["$type"].s, j.fields["$value"])))
      && (j.fields.Keys == {"$tuple"} ==>
            (j.fields["$tuple"].List? ==> ItemsSpellDefaults(reg, j.fields["$tuple"].elements)))
  }

  ghost predicate MembersSpellDefaults(reg: Registry, name: string, record: Json)
    requires reg.Valid() && record.Object? && name in reg.fields
    decreases record, 0
  {
    forall k | k in record.fields ::
      if k in reg.defaults[name] then Node(reg, reg.defaults[name][k]) == Some(record.fields[k])
      else SpellsDefaults(reg, record.fields[k])
  }

  ghost predicate ItemsSpellDefaults(reg: Registry, items: seq<Json>)
    requires reg.Valid()
    decreases items, 0
  {
    items == [] || (SpellsDefaults(reg, items[0]) && ItemsSpellDefaults(reg, items[1..]))
  }

  /**
   * The guard refuses a decodable tree if and only if some defaulted member is
   * spelled otherwise than its default is encoded; nothing else decodes to a
   * value that encodes differently.
   */
  lemma {:induction false} GuardRefusesExactly(reg: Registry, j: Json)
    requires reg.Valid() && Decode(reg, j).Some?
    ensures Node(reg, Decode(reg, j).value) == Some(j) <==> SpellsDefaults(reg, j)
    ensures DecodeGuarded(reg, j).Some? <==> SpellsDefaults(reg, j)
    decreases j, 2
  {
    if j.Object? {
      match Decode(reg, j).value
      case Record(name, members) => GuardOnRecord(reg, j.fields);
      case Tuple(items) => GuardOnTuple(reg, j.fields);
      case _ => GuardOnScalar(reg, j.fields);
    }
  }

  /** An object with one entry, or with two, is the map of its entries. */
  lemma EntriesOf(f: map<string, Json>, a: string, b: string)
    ensures f.Keys == {a} ==> f == map[a := f[a]]
    ensures f.Keys == {a, b} && a != b ==> f == map[a := f[a], b := f[b]]
  {
    if f.Keys == {a} {
      assert forall k :: k in f <==> k in map[a := f[a]];
    }
    if f.Keys == {a, b} && a != b {
      assert forall k :: k in f <==> k in map[a := f[a], b := f[b]];
    }
  }

  lemma GuardOnScalar(reg: Registry, f: map<string, Json>)
    requires reg.Valid() && Decode(reg, Object(f)).Some?
    requires !Decode(reg, Object(f)).value.Record? && !Decode(reg, Object(f)).value.Tuple?
    ensures Node(reg, Decode(reg, Object(f)).value) == Some(Object(f)) && SpellsDefaults(reg, Object(f))
  {
    match Decode(reg, Object(f)).value
    case EnumVal(_, _) => EntriesOf(f, "$enum", "$value");
    case Time(_) => EntriesOf(f, "$datetime", "");
    case Number(_) => EntriesOf(f, "$decimal", "");
    case Bytes(_) => EntriesOf(f, "$bytes", "");
    case _ => assert false;
  }

  lemma {:induction false} GuardOnTuple(reg: Registry, f: map<string, Json>)
    requires reg.Valid() && Decode(reg, Object(f)).Some? && Decode(reg, Object(f)).value.Tuple?
    ensures Node(reg, Decode(reg, Object(f)).value) == Some(Object(f)) <==> SpellsDefaults(reg, Object(f))
    decreases Object(f), 0
  {
    EntriesOf(f, "$tuple", "");
    OneKey("$tuple", f["$tuple"]);
    var items := f["$tuple"].elements;
    GuardOnItems(reg, items);
    var values := Decode(reg, Object(f)).value.items;
    assert Node(reg, Tuple(values)) == if NodeItems(reg, values).None? then None
                                       else Some(Object(map["$tuple" := List(NodeItems(reg, values).value)]));
    if Node(reg, Tuple(values)) == Some(Object(f)) {
      assert map["$tuple" := List(NodeItems(reg, values).value)]["$tuple"] == f["$tuple"];
    }
  }

  lemma {:induction false} GuardOnItems(reg: Registry, items: seq<Json>)
    requires reg.Valid() && DecodeItems(reg, items).Some?
    ensures NodeItems(reg, DecodeItems(reg, items).value) == Some(items) <==> ItemsSpellDefaults(reg, items)
    decreases items, 0
  {
    if items != [] {
      GuardRefusesExactly(reg, items[0]);
      GuardOnItems(reg, items[1..]);
      var values := DecodeItems(reg, items).value;
      assert values[1..] == DecodeItems(reg, items[1..]).value;
      HeadTail(NodeItems(reg, values[1..]), Node(reg, values[0]), items);
    }
  }

  lemma HeadTail(rest: Option<seq<Json>>, first: Option<Json>, items: seq<Json>)
    requires items != []
    ensures (if first.None? || rest.None? then None else Some([first.value] + rest.value)) == Some(items)
            <==> first == Some(items[0]) && rest == Some(items[1..])
  {
    assert items == [items[0]] + items[1..];
    if first.Some? && rest.Some? && [first.value] + rest.value == items {
      assert items[1..] == rest.value;
    }
  }

  lemma {:induction false} GuardOnRecord(reg: Registry, f: map<string, Json>)
    requires reg.Valid() && Decode(reg, Object(f)).Some? && Decode(reg, Object(f)).value.Record?
    ensures Node(reg, Decode(reg, Object(f)).value) == Some(Object(f)) <==> SpellsDefaults(reg, Object(f))
    decreases Object(f), 1
  {
    var name, nodes := f["$type"].s, f["$value"].fields;
    EntriesOf(f, "$type", "$value");
    assert Object(f) == RecordNode(name, nodes);
    var decoded := MembersDecoded(reg, name, nodes);
    var w := Rebuild(reg, name, decoded).value;
    assert w.members == reg.InitPart(name, decoded) + reg.defaults[name];
    GuardOnMembers(reg, name, f["$value"], decoded, w.members);
    NodeRecordExactly(reg, name, w.members, nodes);
    SpelledRecord(reg, name, nodes);
  }

  lemma SpelledRecord(reg: Registry, name: string, nodes: map<string, Json>)
    requires reg.Valid() && name in reg.fields
    ensures SpellsDefaults(reg, RecordNode(name, nodes)) <==> MembersSpellDefaults(reg, name, Object(nodes))
  {
    var f := RecordNode(name, nodes).fields;
    assert f.Keys == {"$type", "$value"};
    assert f.Keys != {"$tuple"} by { assert "$type" in f.Keys; }
  }

  lemma {:induction false} GuardOnMembers(reg: Registry, name: string, record: Json, decoded: map<string, Val>,
                                          members: map<string, Val>)
    requires reg.Valid() && record.Object? && name in reg.fields
    requires decoded.Keys == record.fields.Keys == members.Keys
    requires forall k | k in decoded :: Decode(reg, record.fields[k]) == Some(decoded[k])
    requires forall k | k in members :: members[k] == if k in reg.defaults[name] then reg.defaults[name][k] else decoded[k]
    ensures MembersSpellDefaults(reg, name, record)
            <==> forall k | k in record.fields :: Node(reg, members[k]) == Some(record.fields[k])
    decreases record, 0
  {
    forall k | k in record.fields
      ensures k !in reg.defaults[name] ==>
                (Node(reg, members[k]) == Some(record.fields[k]) <==> SpellsDefaults(reg, record.fields[k]))
    {
      GuardRefusesExactly(reg, record.fields[k]);
    }
  }

  /** A record encodes to a tree exactly when its members encode to the tree's members. */
  lemma NodeRecordExactly(reg: Registry, name: string, members: map<string, Val>, nodes: map<string, Json>)
    requires name in reg.fields && members.Keys == nodes.Keys
    ensures Node(reg, Record(name, members)) == Some(RecordNode(name, nodes))
            <==> forall k | k in nodes :: Node(reg, members[k]) == Some(nodes[k])
  {
    if forall k | k in nodes :: Node(reg, members[k]) == Some(nodes[k]) {
      NodeRecord(reg, name, members, nodes);
    }
    if Node(reg, Record(name, members)) == Some(RecordNode(name, nodes)) {
      var encoded := NodeMembers(reg, Record(name, members)).value;
      assert RecordNode(name, encoded).fields["$value"] == RecordNode(name, nodes).fields["$value"];
      forall k | k in nodes ensures Node(reg, members[k]) == Some(nodes[k]) {
        assert encoded[k] == Node(reg, members[k]).value;
      }
    }
  }

  /** What the guard is for: a defaulted enum member spelled as bare text decodes to the same record, and only the guard refuses it. */
  lemma BareDefaultIsDecoded(reg: Registry, name: string, nodes: map<string, Json>, k: string)
    requires reg.Valid() && name in reg.fields && k in reg.defaults[name] && reg.defaults[name][k].EnumVal?
    requires DecodeGuarded(reg, RecordNode(name, nodes)).Some?
    ensures var bare := RecordNode(name, nodes[k := JStr(reg.defaults[name][k].text)]);
            Decode(reg, bare) == Decode(reg, RecordNode(name, nodes)) && DecodeGuarded(reg, bare).None?
  {
    var others := nodes[k := JStr(reg.defaults[name][k].text)];
    var decoded := MembersDecoded(reg, name, nodes);
    BareRebuilds(reg, name, decoded, k);
    assert others.Keys == nodes.Keys;
    DecodeRecord(reg, name, others, decoded[k := Str(reg.defaults[name][k].text)], Decode(reg, RecordNode(name, nodes)).value);
    NotSpelled(reg, name, others, k);
    GuardRefusesExactly(reg, RecordNode(name, others));
  }

  lemma MembersDecoded(reg: Registry, name: string, nodes: map<string, Json>) returns (decoded: map<string, Val>)
    requires reg.Valid() && name in reg.fields && Decode(reg, RecordNode(name, nodes)).Some?
    ensures decoded.Keys == nodes.Keys == reg.fields[name] + reg.defaults[name].Keys
    ensures forall k | k in nodes :: Decode(reg, nodes[k]) == Some(decoded[k])
    ensures Rebuild(reg, name, decoded) == Decode(reg, RecordNode(name, nodes))
  {
    assert RecordNode(name, nodes).fields.Keys == {"$type", "$value"};
    decoded := DecodeMembers(reg, Object(nodes)).value;
  }

  lemma BareRebuilds(reg: Registry, name: string, decoded: map<string, Val>, k: string)
    requires reg.Valid() && name in reg.fields && decoded.Keys == reg.fields[name] + reg.defaults[name].Keys
    requires k in reg.defaults[name] && reg.defaults[name][k].EnumVal? && Rebuild(reg, name, decoded).Some?
    ensures var again := decoded[k := Str(reg.defaults[name][k].text)];
            again.Keys == decoded.Keys && Rebuild(reg, name, again) == Rebuild(reg, name, decoded)
  {
    var again := decoded[k := Str(reg.defaults[name][k].text)];
    assert again.Keys == decoded.Keys;
    assert reg.InitPart(name, again) == reg.InitPart(name, decoded);
  }

  lemma NotSpelled(reg: Registry, name: string, nodes: map<string, Json>, k: string)
    requires reg.Valid() && name in reg.fields && k in reg.defaults[name] && reg.defaults[name][k].EnumVal?
    requires k in nodes && nodes[k].JStr?
    ensures !SpellsDefaults(reg, RecordNode(name, nodes))
  {
    assert Node(reg, reg.defaults[name][k]) != Some(nodes[k]);
    SpelledRecord(reg, name, nodes);
  }

  // ---- What is accepted --------------------------------------------------------------------------

  /** The defaults of the registered records are values that exist. */
  ghost predicate DefaultsExist(reg: Registry) {
    forall name, k :: name in reg.defaults && k in reg.defaults[name] ==> Wellformed(reg, reg.defaults[name][k])
  }

  /** Whatever is decoded exists: an enum value is a member, a record came out of its constructor. */
  lemma {:induction false} DecodedExists(reg: Registry, j: Json)
    requires reg.Valid() && DefaultsExist(reg) && Decode(reg, j).Some?
    ensures Wellformed(reg, Decode(reg, j).value)
    decreases j, 1
  {
    if j.Object? {
      match Decode(reg, j).value
      case Record(name, members) => DecodedRecordExists(reg, j.fields);
      case Tuple(items) => DecodedItemsExist(reg, j.fields["$tuple"].elements);
      case Number(d) => DecodedFits(j.fields["$decimal"].s);
      case _ =>
    }
  }

  lemma {:induction false} DecodedRecordExists(reg: Registry, f: map<string, Json>)
    requires reg.Valid() && DefaultsExist(reg) && Decode(reg, Object(f)).Some? && Decode(reg, Object(f)).value.Record?
    ensures Wellformed(reg, Decode(reg, Object(f)).value)
    decreases Object(f), 0
  {
    var name, nodes := f["$type"].s, f["$value"].fields;
    var decoded := DecodeMembers(reg, f["$value"]).value;
    forall k | k in nodes ensures Wellformed(reg, decoded[k]) {
      DecodedExists(reg, nodes[k]);
    }
    var w, init := Rebuild(reg, name, decoded).value, reg.InitPart(name, decoded);
    assert w.members == init + reg.defaults[name];
    assert reg.InitPart(name, w.members) == init;
  }

  lemma {:induction false} DecodedItemsExist(reg: Registry, items: seq<Json>)
    requires reg.Valid() && DefaultsExist(reg) && DecodeItems(reg, items).Some?
    ensures forall i :: 0 <= i < |DecodeItems(reg, items).value| ==> Wellformed(reg, DecodeItems(reg, items).value[i])
    decreases items, 0
  {
    if items != [] {
      DecodedExists(reg, items[0]);
      DecodedItemsExist(reg, items[1..]);
    }
  }

  /** A value that exists, of short decimals, and its tree. */
  ghost predicate IsTreeOf(reg: Registry, j: Json, v: Val) {
    Wellformed(reg, v) && Short(v) && Node(reg, v) == Some(j)
  }

  /**
   * The trees that are accepted are exactly those that the codec makes of values
   * that exist and have short decimals, and each comes back as such a value.
   */
  lemma AcceptedExactly(reg: Registry, j: Json)
    requires reg.Valid() && DefaultsExist(reg)
    ensures DecodeGuarded(reg, j).Some? <==> exists v :: IsTreeOf(reg, j, v)
    ensures DecodeGuarded(reg, j).Some? ==> IsTreeOf(reg, j, DecodeGuarded(reg, j).value)
  {
    if v :| IsTreeOf(reg, j, v) {
      var _ := TreeRoundTrip(reg, v);
    }
    if DecodeGuarded(reg, j).Some? {
      AcceptedIsTree(reg, j);
    }
  }

  lemma AcceptedIsTree(reg: Registry, j: Json)
    requires reg.Valid() && DefaultsExist(reg) && DecodeGuarded(reg, j).Some?
    ensures IsTreeOf(reg, j, DecodeGuarded(reg, j).value)
  {
    var w := Decode(reg, j).value;
    DecodedExists(reg, j);
    SameReflexive(w);
    SameIsEqual(w, w);
    OnlyShortComesBack(reg, w);
  }

  /** A record decodes exactly as its constructor rebuilds it, and its defaulted members have to equal their defaults. */
  lemma RecordDecodedExactly(reg: Registry, name: string, nodes: map<string, Json>, decoded: map<string, Val>)
    requires reg.Valid() && name in reg.fields && nodes.Keys == reg.fields[name] + reg.defaults[name].Keys
    requires decoded.Keys == nodes.Keys && forall k | k in nodes :: Decode(reg, nodes[k]) == Some(decoded[k])
    ensures var given := map k | k in decoded && k in reg.fields[name] :: decoded[k];
            var expected := reg.defaults[name];
            Decode(reg, RecordNode(name, nodes))
            == if reg.accepts(name, given) && forall k | k in expected :: Equal(expected[k], decoded[k])
               then Some(Record(name, given + expected)) else None
  {
    RecordNodeDecodes(reg, name, nodes, decoded);
    RebuildsExactly(reg, name, decoded);
  }

  lemma RebuildsExactly(reg: Registry, name: string, decoded: map<string, Val>)
    requires reg.Valid() && name in reg.fields && decoded.Keys == reg.fields[name] + reg.defaults[name].Keys
    ensures var given := map k | k in decoded && k in reg.fields[name] :: decoded[k];
            var expected := reg.defaults[name];
            Rebuild(reg, name, decoded)
            == if reg.accepts(name, given) && forall k | k in expected :: Equal(expected[k], decoded[k])
               then Some(Record(name, given + expected)) else None
  {
    var given, expected := reg.InitPart(name, decoded), reg.defaults[name];
    assert forall k | k in expected :: (given + expected)[k] == expected[k];
  }

  lemma RecordNodeDecodes(reg: Registry, name: string, nodes: map<string, Json>, decoded: map<string, Val>)
    requires reg.Valid() && name in reg.fields && nodes.Keys == reg.fields[name] + reg.defaults[name].Keys
    requires decoded.Keys == nodes.Keys && forall k | k in nodes :: Decode(reg, nodes[k]) == Some(decoded[k])
    ensures Decode(reg, RecordNode(name, nodes)) == Rebuild(reg, name, decoded)
  {
    assert DecodeMembers(reg, Object(nodes)).value == decoded;
    assert RecordNode(name, nodes).fields.Keys == {"$type", "$value"};
  }
}
