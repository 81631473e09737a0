/**
 * Canonical decimal text: `_canonical_decimal` of tx_trade/orders/contracts.py,
 * with a reader for the grammar of tx_trade/orders/live_journal_codec.py:95-97.
 */
module DecimalText {
  import opened Wrappers
  import opened Decimals

  /** What `as_tuple` shows of a finite Decimal: no leading zero digit except in zero itself. */
  predicate WellFormed(d: Dec) {
    IsDigits(d.digits) && (d.digits[0] != 0 || d.digits == [0])
  }

  function Digit(d: nat): char
    requires d < 10
  {
    '0' + d as char
  }

  predicate IsDigitChar(c: char) {
    '0' <= c <= '9'
  }

  function Chars(digits: seq<nat>): string
    requires forall i :: 0 <= i < |digits| ==> digits[i] < 10
  {
    if digits == [] then "" else [Digit(digits[0])] + Chars(digits[1..])
  }

  function Zeros(n: nat): seq<nat> {
    seq(n, i => 0)
  }

  /** The digits of a natural number, most significant first. */
  function NatDigits(n: nat): (digits: seq<nat>)
    ensures IsDigits(digits) && (digits[0] != 0 || digits == [0])
    ensures Coefficient(digits) == n
  {
    if n < 10 then
      assert Coefficient([n]) == n by { assert [n][..0] == []; }
      [n]
    else
      var head := NatDigits(n / 10);
      assert (head + [n % 10])[..|head|] == head;
      head + [n % 10]
  }

  function IntText(n: int): string {
    if n < 0 then "-" + Chars(NatDigits(-n)) else Chars(NatDigits(n))
  }

  // ---- Printing -------------------------------------------------------------

  function DropZeros(d: Dec): (c: Dec)
    requires IsDigits(d.digits) && d.digits[0] != 0
    ensures Canonical(c) && c != Zero && Value(c) == Value(d) && c.negative == d.negative
    ensures |c.digits| <= |d.digits| && d.exponent <= c.exponent
    decreases |d.digits|
  {
    var n := |d.digits| - 1;
    if d.digits[n] != 0 then d
    else
      DropOneZero(d);
      assert n > 0;
      DropZeros(d.(digits := d.digits[..n], exponent := d.exponent + 1))
  }

  lemma DropOneZero(d: Dec)
    requires IsDigits(d.digits) && d.digits[|d.digits| - 1] == 0
    ensures Value(d.(digits := d.digits[..|d.digits| - 1], exponent := d.exponent + 1)) == Value(d)
  {
    var c := Coefficient(d.digits[..|d.digits| - 1]);
    ShiftOne(if d.negative then -(c as int) else c, d.exponent);
  }

  lemma ShiftOne(c: int, e: int)
    ensures At(10 * c, e) == At(c, e + 1)
  {
    ScaleSucc(e);
    MoveFactor(c as real, 10.0, Scale(e));
  }

  /** The canonical decimal of a value: the digits the printer works on. */
  function CanonicalOf(d: Dec): (c: Dec)
    requires WellFormed(d)
    ensures Canonical(c) && Value(c) == Value(d) && (c == Zero <==> d.digits == [0])
  {
    if d.digits == [0] then
      ZeroDigits(d);
      Zero
    else DropZeros(d)
  }

  lemma ZeroDigits(d: Dec)
    requires d.digits == [0]
    ensures Value(d) == 0.0 == Value(Zero)
  {
    assert Coefficient([0]) == 0 by { assert [0][..0] == []; }
  }

  function SignText(negative: bool): string {
    if negative then "-" else ""
  }

  predicate Printable(c: Dec) {
    IsDigits(c.digits) && c.digits[0] != 0
  }

  /** Sign, whole digits, fraction and exponent, spelled out; an empty fraction or a zero exponent leaves no trace. */
  function Spell(negative: bool, whole: seq<nat>, fraction: seq<nat>, exponent: int): string
    requires forall i :: 0 <= i < |whole| ==> whole[i] < 10
    requires forall i :: 0 <= i < |fraction| ==> fraction[i] < 10
  {
    SignText(negative) + (Chars(whole) + (FractionText(fraction) + ExponentText(exponent)))
  }

  function FractionText(fraction: seq<nat>): string
    requires forall i :: 0 <= i < |fraction| ==> fraction[i] < 10
  {
    if fraction == [] then "" else "." + Chars(fraction)
  }

  function ExponentText(exponent: int): string {
    if exponent == 0 then "" else "e" + IntText(exponent)
  }

  function Scientific(c: Dec): string
    requires Printable(c)
  {
    Spell(c.negative, c.digits[..1], c.digits[1..], c.exponent + |c.digits| - 1)
  }

  function Plain(c: Dec): string
    requires Printable(c)
  {
    var point := |c.digits| + c.exponent;
    if point <= 0 then Spell(c.negative, [0], Zeros(-point) + c.digits, 0)
    else if point >= |c.digits| then Spell(c.negative, c.digits + Zeros(c.exponent), [], 0)
    else Spell(c.negative, c.digits[..point], c.digits[point..], 0)
  }

  /** The shorter of the two spellings, plain on a tie. */
  function Text(d: Dec): string
    requires WellFormed(d)
  {
    var c := CanonicalOf(d);
    if c == Zero then "0" else if |Plain(c)| > |Scientific(c)| then Scientific(c) else Plain(c)
  }

  /** `_canonical_decimal`: pops trailing zeros, sizes the plain form without building it, builds one form. */
  method CanonicalDecimal(value: Dec) returns (text: string)
    requires WellFormed(value)
    ensures text == Text(value)
  {
    if value.digits == [0] {
      return "0";
    }
    var digits, exponent := value.digits, value.exponent;
    while digits[|digits| - 1] == 0
      invariant IsDigits(digits) && digits[0] != 0
      invariant DropZeros(Dec(value.negative, digits, exponent)) == CanonicalOf(value)
      decreases |digits|
    {
      digits, exponent := digits[..|digits| - 1], exponent + 1;
    }
    text := PrintStripped(Dec(value.negative, digits, exponent));
  }

  method PrintStripped(c: Dec) returns (text: string)
    requires Printable(c)
    ensures text == if |Plain(c)| > |Scientific(c)| then Scientific(c) else Plain(c)
  {
    var coefficient := Chars(c.digits);
    assert |coefficient| == |c.digits| by { CharsLength(c.digits); }
    var sign := SignText(c.negative);
    var scientific := PrintScientific(c, coefficient, sign);
    var point := |coefficient| + c.exponent;
    var plainLength :=
      if point <= 0 then |sign| + 2 - point + |coefficient|
      else if point >= |coefficient| then |sign| + point
      else |sign| + |coefficient| + 1;
    assert plainLength == |Plain(c)| by { PlainLength(c); }
    if plainLength > |scientific| {
      return scientific;
    }
    text := PrintPlain(c, coefficient, sign, point);
  }

  /** One digit, a point when more follow, and the exponent unless it is zero. */
  method PrintScientific(c: Dec, coefficient: string, sign: string) returns (text: string)
    requires Printable(c) && coefficient == Chars(c.digits) && |coefficient| == |c.digits| && sign == SignText(c.negative)
    ensures text == Scientific(c)
  {
    var adjusted := c.exponent + |coefficient| - 1;
    var mantissa := if |coefficient| == 1 then coefficient else [coefficient[0]] + "." + coefficient[1..];
    text := if adjusted == 0 then sign + mantissa else sign + mantissa + "e" + IntText(adjusted);
    ScientificBuilt(c, mantissa);
  }

  /** The plain form, built from the coefficient and zeros or a point. */
  method PrintPlain(c: Dec, coefficient: string, sign: string, point: int) returns (text: string)
    requires Printable(c) && coefficient == Chars(c.digits) && sign == SignText(c.negative) && point == |c.digits| + c.exponent
    ensures text == Plain(c)
  {
    if point <= 0 {
      PlainSmall(c);
      return sign + "0." + Repeat('0', -point) + coefficient;
    }
    if point >= |c.digits| {
      PlainWhole(c);
      return sign + coefficient + Repeat('0', c.exponent);
    }
    PlainMixed(c);
    text := sign + coefficient[..point] + "." + coefficient[point..];
  }

  lemma ScientificBuilt(c: Dec, mantissa: string)
    requires Printable(c)
    requires |Chars(c.digits)| == |c.digits|
    requires mantissa == if |c.digits| == 1 then Chars(c.digits) else [Chars(c.digits)[0]] + "." + Chars(c.digits)[1..]
    ensures var adjusted := c.exponent + |c.digits| - 1;
            Scientific(c) == if adjusted == 0 then SignText(c.negative) + mantissa
                             else SignText(c.negative) + mantissa + "e" + IntText(adjusted)
  {
    ghost var adjusted := c.exponent + |c.digits| - 1;
    assert mantissa == Chars(c.digits[..1]) + FractionText(c.digits[1..]) by { MantissaBuilt(c.digits, mantissa); }
    Regroup(SignText(c.negative), Chars(c.digits[..1]), FractionText(c.digits[1..]), ExponentText(adjusted), mantissa);
    if adjusted == 0 {
      DropEmpty(SignText(c.negative) + mantissa);
    } else {
      Associate(SignText(c.negative) + mantissa, "e", IntText(adjusted));
    }
  }

  lemma MantissaBuilt(digits: seq<nat>, mantissa: string)
    requires IsDigits(digits) && |Chars(digits)| == |digits|
    requires mantissa == if |digits| == 1 then Chars(digits) else [Chars(digits)[0]] + "." + Chars(digits)[1..]
    ensures mantissa == Chars(digits[..1]) + FractionText(digits[1..])
  {
    var head, tail := [Digit(digits[0])], Chars(digits[1..]);
    assert digits[..1] == [digits[0]];
    assert Chars([digits[0]]) == head by {
      assert [digits[0]][1..] == [];
      DropEmpty(head);
    }
    HeadAndTail(head, tail, Chars(digits));
    if |digits| == 1 {
      DropEmpty(head);
    } else {
      Associate(head, ".", tail);
    }
  }

  lemma HeadAndTail(head: string, tail: string, whole: string)
    requires whole == head + tail && |head| == 1
    ensures [whole[0]] == head && whole[1..] == tail
    ensures tail == "" ==> whole == head
  {
  }

  lemma Regroup(a: string, b: string, c: string, d: string, bc: string)
    requires bc == b + c
    ensures a + (b + (c + d)) == a + bc + d
  {
  }

  lemma DropEmpty(a: string)
    ensures a + "" == a
  {
  }

  lemma Associate(a: string, b: string, c: string)
    ensures a + (b + c) == a + b + c
  {
  }

  /** The plain form as the source builds it; its length is the one the source predicts. */
  lemma PlainSmall(c: Dec)
    requires Printable(c) && |c.digits| + c.exponent <= 0
    ensures var zeros := -(|c.digits| + c.exponent);
            && Plain(c) == SignText(c.negative) + "0." + Chars(Zeros(zeros)) + Chars(c.digits)
            && |Plain(c)| == |SignText(c.negative)| + 2 + zeros + |c.digits|
  {
    ghost var zeros := -(|c.digits| + c.exponent);
    assert |Chars(Zeros(zeros))| == zeros by { CharsLength(Zeros(zeros)); }
    assert |Chars(c.digits)| == |c.digits| by { CharsLength(c.digits); }
    CharsConcat(Zeros(zeros), c.digits);
    SmallShape(SignText(c.negative), Chars(Zeros(zeros)), Chars(c.digits), Chars(Zeros(zeros) + c.digits));
    assert Chars([0]) == "0";
  }

  lemma SmallShape(sign: string, a: string, b: string, ab: string)
    requires ab == a + b
    ensures sign + ("0" + ("." + ab + "")) == sign + "0." + a + b
    ensures |sign + ("0" + ("." + ab + ""))| == |sign| + 2 + |a| + |b|
  {
  }

  lemma PlainWhole(c: Dec)
    requires Printable(c) && c.exponent >= 0
    ensures Plain(c) == SignText(c.negative) + Chars(c.digits) + Chars(Zeros(c.exponent))
    ensures |Plain(c)| == |SignText(c.negative)| + |c.digits| + c.exponent
  {
    assert |Chars(Zeros(c.exponent))| == c.exponent by { CharsLength(Zeros(c.exponent)); }
    assert |Chars(c.digits)| == |c.digits| by { CharsLength(c.digits); }
    CharsConcat(c.digits, Zeros(c.exponent));
    WholeShape(SignText(c.negative), Chars(c.digits), Chars(Zeros(c.exponent)), Chars(c.digits + Zeros(c.exponent)));
  }

  lemma WholeShape(sign: string, a: string, b: string, ab: string)
    requires ab == a + b
    ensures sign + (ab + ("" + "")) == sign + a + b
  {
  }

  lemma PlainMixed(c: Dec)
    requires Printable(c) && 0 < |c.digits| + c.exponent < |c.digits|
    ensures |Chars(c.digits)| == |c.digits|
    ensures var point := |c.digits| + c.exponent;
            && Plain(c) == SignText(c.negative) + Chars(c.digits)[..point] + "." + Chars(c.digits)[point..]
            && |Plain(c)| == |SignText(c.negative)| + |c.digits| + 1
  {
    ghost var point := |c.digits| + c.exponent;
    CharsSlice(c.digits, point);
    MixedShape(SignText(c.negative), Chars(c.digits[..point]), Chars(c.digits[point..]));
  }

  lemma PlainLength(c: Dec)
    requires Printable(c)
    ensures var point := |c.digits| + c.exponent;
            |Plain(c)| == |SignText(c.negative)| + (if point <= 0 then 2 - point + |c.digits|
                                                    else if point >= |c.digits| then point else |c.digits| + 1)
  {
    var point := |c.digits| + c.exponent;
    if point <= 0 { PlainSmall(c); } else if point >= |c.digits| { PlainWhole(c); } else { PlainMixed(c); }
  }

  lemma MixedShape(sign: string, a: string, b: string)
    ensures sign + (a + ("." + b + "")) == sign + a + "." + b
  {
  }

  function Repeat(c: char, n: nat): (text: string)
    requires c == '0'
    ensures text == Chars(Zeros(n))
  {
    CharsOfZeros(n);
    seq(n, i => c)
  }

  lemma CharsOfZeros(n: nat)
    ensures Chars(Zeros(n)) == seq(n, i => '0')
  {
    if n > 0 {
      assert Zeros(n)[1..] == Zeros(n - 1);
      CharsOfZeros(n - 1);
      assert seq(n, i => '0') == ['0'] + seq(n - 1, i => '0');
    }
  }

  lemma CharsLength(digits: seq<nat>)
    requires forall i :: 0 <= i < |digits| ==> digits[i] < 10
    ensures |Chars(digits)| == |digits|
    ensures forall i :: 0 <= i < |digits| ==> Chars(digits)[i] == Digit(digits[i])
  {
    if digits != [] {
      CharsLength(digits[1..]);
    }
  }

  lemma CharsSlice(digits: seq<nat>, k: nat)
    requires k <= |digits| && forall i :: 0 <= i < |digits| ==> digits[i] < 10
    ensures |Chars(digits)| == |digits|
    ensures Chars(digits)[..k] == Chars(digits[..k]) && Chars(digits)[k..] == Chars(digits[k..])
  {
    CharsLength(digits);
    CharsLength(digits[..k]);
    CharsLength(digits[k..]);
  }

  // ---- Reading --------------------------------------------------------------

  /** The longest run of digit characters at the front, and what follows it. */
  function TakeDigits(s: string): (r: (seq<nat>, string))
    ensures forall i :: 0 <= i < |r.0| ==> r.0[i] < 10
    ensures |r.1| <= |s|
  {
    if s == "" || !IsDigitChar(s[0]) then ([], s)
    else
      var (digits, rest) := TakeDigits(s[1..]);
      ([(s[0] - '0') as nat] + digits, rest)
  }

  function TrimZeros(digits: seq<nat>): (t: seq<nat>)
    requires IsDigits(digits)
    ensures IsDigits(t) && (t[0] != 0 || t == [0])
    ensures |t| <= |digits|
  {
    if |digits| > 1 && digits[0] == 0 then TrimZeros(digits[1..]) else digits
  }

  function ReadInt(s: string): Option<int> {
    var negative := s != "" && s[0] == '-';
    var (digits, rest) := TakeDigits(if negative then s[1..] else s);
    if digits == [] || rest != "" then None
    else var n: int := Coefficient(digits); Some(if negative then -n else n)
  }

  /** Sign, integer digits, optional fraction, optional exponent: as `Decimal(text)` reads them. */
  function Read(s: string): (r: Option<Dec>)
    ensures r.Some? ==> WellFormed(r.value)
  {
    ReadUnsigned(s != "" && s[0] == '-', Unsigned(s))
  }

  function Unsigned(s: string): string {
    if s != "" && s[0] == '-' then s[1..] else s
  }

  function ReadUnsigned(negative: bool, s: string): (r: Option<Dec>)
    ensures r.Some? ==> WellFormed(r.value)
  {
    match PartsOf(s)
    case None => None
    case Some(parts) =>
      match ReadExponent(parts.tail)
      case None => None
      case Some(e) => Some(Dec(negative, TrimZeros(parts.whole + parts.fraction), e - |parts.fraction|))
  }

  datatype Parts = Parts(whole: seq<nat>, fraction: seq<nat>, tail: string)

  /** Unsigned text cut into whole digits, fraction digits and what follows. */
  function PartsOf(s: string): (r: Option<Parts>)
    ensures r.Some? ==> IsDigits(r.value.whole) && (r.value.fraction == [] || IsDigits(r.value.fraction))
  {
    var (whole, rest) := TakeDigits(s);
    var dot := rest != "" && rest[0] == '.';
    var (fraction, tail) := if dot then TakeDigits(rest[1..]) else ([], rest);
    if whole == [] || (dot && fraction == []) then None else Some(Parts(whole, fraction, tail))
  }

  function ReadExponent(s: string): Option<int> {
    if s == "" then Some(0) else if s[0] == 'e' then ReadInt(s[1..]) else None
  }

  lemma {:induction false} TakeDigitsChars(digits: seq<nat>, rest: string)
    requires forall i :: 0 <= i < |digits| ==> digits[i] < 10
    requires rest == "" || !IsDigitChar(rest[0])
    ensures TakeDigits(Chars(digits) + rest) == (digits, rest)
  {
    if digits == [] {
      assert Chars(digits) + rest == rest;
    } else {
      TakeDigitsChars(digits[1..], rest);
      var s := Chars(digits) + rest;
      assert s[1..] == Chars(digits[1..]) + rest;
      assert s[0] == Digit(digits[0]) && (s[0] - '0') as nat == digits[0];
      assert digits == [digits[0]] + digits[1..];
    }
  }

  lemma ReadIntText(n: int)
    ensures ReadInt(IntText(n)) == Some(n)
  {
    var digits := NatDigits(if n < 0 then -n else n);
    TakeDigitsChars(digits, "");
    assert Chars(digits) + "" == Chars(digits);
    CharsLength(digits);
    if n < 0 {
      assert IntText(n)[1..] == Chars(digits);
    } else {
      assert Chars(digits)[0] == Digit(digits[0]);
    }
  }

  /** Only a minus sign in front makes spelled text negative. */
  lemma SignSpelled(negative: bool, whole: seq<nat>, fraction: seq<nat>, exponent: int)
    requires IsDigits(whole) && forall i :: 0 <= i < |fraction| ==> fraction[i] < 10
    ensures var text := Spell(negative, whole, fraction, exponent);
            && text != "" && (text[0] == '-' <==> negative)
            && Unsigned(text) == Chars(whole) + (FractionText(fraction) + ExponentText(exponent))
  {
    var unsigned := Chars(whole) + (FractionText(fraction) + ExponentText(exponent));
    CharsLength(whole);
    assert unsigned[0] == Digit(whole[0]);
    if negative {
      assert Spell(negative, whole, fraction, exponent)[1..] == unsigned;
    } else {
      assert Spell(negative, whole, fraction, exponent) == unsigned;
    }
  }

  /** Reading back what was spelled. */
  lemma ReadSpelled(negative: bool, whole: seq<nat>, fraction: seq<nat>, exponent: int)
    requires IsDigits(whole) && forall i :: 0 <= i < |fraction| ==> fraction[i] < 10
    ensures Read(Spell(negative, whole, fraction, exponent))
            == Some(Dec(negative, TrimZeros(whole + fraction), exponent - |fraction|))
  {
    var text := Spell(negative, whole, fraction, exponent);
    SpelledParts(negative, whole, fraction, exponent, text);
    assert ReadExponent(ExponentText(exponent)) == Some(exponent) by { ReadExponentText(exponent); }
    ReadByParts(text, negative, whole, fraction, ExponentText(exponent), exponent);
  }

  lemma SpelledParts(negative: bool, whole: seq<nat>, fraction: seq<nat>, exponent: int, text: string)
    requires IsDigits(whole) && forall i :: 0 <= i < |fraction| ==> fraction[i] < 10
    requires text == Spell(negative, whole, fraction, exponent)
    ensures text != "" && (text[0] == '-' <==> negative)
    ensures PartsOf(Unsigned(text)) == Some(Parts(whole, fraction, ExponentText(exponent)))
  {
    SignSpelled(negative, whole, fraction, exponent);
    PartsSpelled(whole, fraction, exponent);
  }

  lemma ReadByParts(s: string, negative: bool, whole: seq<nat>, fraction: seq<nat>, tail: string, e: int)
    requires IsDigits(whole) && forall i :: 0 <= i < |fraction| ==> fraction[i] < 10
    requires s != "" && (s[0] == '-' <==> negative)
    requires PartsOf(Unsigned(s)) == Some(Parts(whole, fraction, tail)) && ReadExponent(tail) == Some(e)
    ensures Read(s) == Some(Dec(negative, TrimZeros(whole + fraction), e - |fraction|))
  {
  }

  lemma PartsSpelled(whole: seq<nat>, fraction: seq<nat>, exponent: int)
    requires IsDigits(whole) && forall i :: 0 <= i < |fraction| ==> fraction[i] < 10
    ensures PartsOf(Chars(whole) + (FractionText(fraction) + ExponentText(exponent)))
            == Some(Parts(whole, fraction, ExponentText(exponent)))
  {
    var tail := ExponentText(exponent);
    if fraction == [] {
      assert FractionText(fraction) + tail == tail;
      assert tail == "" || tail[0] == 'e' by { ReadExponentText(exponent); }
      assert TakeDigits(Chars(whole) + tail) == (whole, tail) by { TakeDigitsChars(whole, tail); }
      PartsJoined(Chars(whole) + tail, whole, tail, fraction, tail);
    } else {
      var rest := FractionText(fraction) + tail;
      assert rest != "" && rest[0] == '.' && TakeDigits(rest[1..]) == (fraction, tail) by {
        FractionReads(fraction, exponent);
      }
      assert TakeDigits(Chars(whole) + rest) == (whole, rest) by { TakeDigitsChars(whole, rest); }
      PartsJoined(Chars(whole) + rest, whole, rest, fraction, tail);
    }
  }

  lemma PartsJoined(s: string, whole: seq<nat>, rest: string, fraction: seq<nat>, tail: string)
    requires IsDigits(whole) && TakeDigits(s) == (whole, rest)
    requires if rest != "" && rest[0] == '.' then TakeDigits(rest[1..]) == (fraction, tail) && fraction != []
             else fraction == [] && rest == tail
    ensures PartsOf(s) == Some(Parts(whole, fraction, tail))
  {
  }

  lemma FractionReads(fraction: seq<nat>, exponent: int)
    requires IsDigits(fraction)
    ensures var rest := FractionText(fraction) + ExponentText(exponent);
            && rest != "" && rest[0] == '.'
            && TakeDigits(rest[1..]) == (fraction, ExponentText(exponent))
  {
    var tail := ExponentText(exponent);
    assert tail == "" || tail[0] == 'e' by { ReadExponentText(exponent); }
    CutDot(Chars(fraction), tail);
    TakeDigitsChars(fraction, tail);
  }

  lemma CutDot(a: string, b: string)
    ensures ("." + a + b)[0] == '.' && ("." + a + b)[1..] == a + b
  {
  }

  lemma ReadExponentText(exponent: int)
    ensures ReadExponent(ExponentText(exponent)) == Some(exponent)
    ensures exponent == 0 || (ExponentText(exponent) != "" && ExponentText(exponent)[0] == 'e')
  {
    if exponent != 0 {
      assert ExponentText(exponent)[1..] == IntText(exponent);
      ReadIntText(exponent);
    }
  }

  // ---- Values of the digit strings the printer writes ----------------------------

  lemma CoefficientConcat(a: seq<nat>, b: seq<nat>)
    ensures Coefficient(a + b) == Coefficient(a) * Pow10(|b|) + Coefficient(b)
  {
    if b == [] {
      assert a + b == a;
    } else {
      var n := |b| - 1;
      var all := a + b;
      assert all[..|all| - 1] == a + b[..n];
      CoefficientConcat(a, b[..n]);
      TimesTen(Coefficient(a), Pow10(n), Coefficient(b[..n]), b[n]);
    }
  }

  lemma CoefficientZeros(n: nat)
    ensures Coefficient(Zeros(n)) == 0
  {
    if n > 0 {
      assert Zeros(n)[..n - 1] == Zeros(n - 1);
      CoefficientZeros(n - 1);
    }
  }

  lemma TrimZerosKeepsCoefficient(digits: seq<nat>)
    requires IsDigits(digits)
    ensures Coefficient(TrimZeros(digits)) == Coefficient(digits)
  {
    if |digits| > 1 && digits[0] == 0 {
      TrimZerosKeepsCoefficient(digits[1..]);
      assert digits == [0] + digits[1..];
      CoefficientConcat([0], digits[1..]);
      assert Coefficient([0]) == 0 by { assert [0][..0] == []; }
    }
  }

  lemma ReadScientific(c: Dec)
    requires Printable(c)
    ensures Read(Scientific(c)) == Some(c)
  {
    ReadSpelled(c.negative, c.digits[..1], c.digits[1..], c.exponent + |c.digits| - 1);
    assert c.digits[..1] + c.digits[1..] == c.digits;
  }

  lemma {:induction false} CharsConcat(a: seq<nat>, b: seq<nat>)
    requires forall i :: 0 <= i < |a| ==> a[i] < 10
    requires forall i :: 0 <= i < |b| ==> b[i] < 10
    ensures forall i :: 0 <= i < |a + b| ==> (a + b)[i] < 10
    ensures Chars(a + b) == Chars(a) + Chars(b)
  {
    if a == [] {
      assert a + b == b;
      assert Chars(a) + Chars(b) == Chars(b);
    } else {
      CharsConcat(a[1..], b);
      assert (a + b)[1..] == a[1..] + b;
      Associate([Digit(a[0])], Chars(a[1..]), Chars(b));
    }
  }

  lemma ReadPlain(c: Dec) returns (r: Dec)
    requires Printable(c)
    ensures Read(Plain(c)) == Some(r) && Value(r) == Value(c)
    ensures r.exponent == if c.exponent < 0 then c.exponent else 0
  {
    var whole, fraction;
    whole, fraction, r := PlainParts(c);
    ReadSpelledAs(Plain(c), c.negative, whole, fraction, 0, r);
  }

  lemma ReadSpelledAs(text: string, negative: bool, whole: seq<nat>, fraction: seq<nat>, exponent: int, r: Dec)
    requires IsDigits(whole) && IsDigits(whole + fraction) && forall i :: 0 <= i < |fraction| ==> fraction[i] < 10
    requires text == Spell(negative, whole, fraction, exponent)
    requires r == Dec(negative, TrimZeros(whole + fraction), exponent - |fraction|)
    ensures Read(text) == Some(r)
  {
    ReadSpelled(negative, whole, fraction, exponent);
  }

  /** What the plain form spells, and the number those digits stand for. */
  lemma PlainParts(c: Dec) returns (whole: seq<nat>, fraction: seq<nat>, r: Dec)
    requires Printable(c)
    ensures IsDigits(whole) && IsDigits(whole + fraction) && forall i :: 0 <= i < |fraction| ==> fraction[i] < 10
    ensures Plain(c) == Spell(c.negative, whole, fraction, 0)
    ensures r == Dec(c.negative, TrimZeros(whole + fraction), 0 - |fraction|)
    ensures Value(r) == Value(c) && r.exponent == if c.exponent < 0 then c.exponent else 0
    ensures whole == [0] || whole[0] != 0
  {
    if |c.digits| + c.exponent <= 0 {
      whole, fraction, r := SmallParts(c);
    } else if c.exponent >= 0 {
      whole, fraction, r := WholeParts(c);
    } else {
      whole, fraction, r := MixedParts(c);
    }
  }

  lemma SmallParts(c: Dec) returns (whole: seq<nat>, fraction: seq<nat>, r: Dec)
    requires Printable(c) && |c.digits| + c.exponent <= 0
    ensures IsDigits(whole) && IsDigits(whole + fraction) && forall i :: 0 <= i < |fraction| ==> fraction[i] < 10
    ensures Plain(c) == Spell(c.negative, whole, fraction, 0)
    ensures r == Dec(c.negative, TrimZeros(whole + fraction), 0 - |fraction|)
    ensures Value(r) == Value(c) && r.exponent == c.exponent
    ensures whole == [0] || whole[0] != 0
  {
    var zeros := -(|c.digits| + c.exponent);
    whole, fraction := [0], Zeros(zeros) + c.digits;
    r := SmallValue(c, zeros);
  }

  lemma WholeParts(c: Dec) returns (whole: seq<nat>, fraction: seq<nat>, r: Dec)
    requires Printable(c) && c.exponent >= 0
    ensures IsDigits(whole) && IsDigits(whole + fraction) && fraction == []
    ensures Plain(c) == Spell(c.negative, whole, fraction, 0)
    ensures r == Dec(c.negative, TrimZeros(whole + fraction), 0)
    ensures Value(r) == Value(c) && r.exponent == 0
    ensures whole == [0] || whole[0] != 0
  {
    whole, fraction := c.digits + Zeros(c.exponent), [];
    r := WholeValue(c);
  }

  lemma MixedParts(c: Dec) returns (whole: seq<nat>, fraction: seq<nat>, r: Dec)
    requires Printable(c) && 0 < |c.digits| + c.exponent < |c.digits|
    ensures IsDigits(whole) && IsDigits(whole + fraction) && forall i :: 0 <= i < |fraction| ==> fraction[i] < 10
    ensures Plain(c) == Spell(c.negative, whole, fraction, 0)
    ensures r == Dec(c.negative, TrimZeros(whole + fraction), 0 - |fraction|) && r == c
    ensures whole == [0] || whole[0] != 0
  {
    var point := |c.digits| + c.exponent;
    whole, fraction := c.digits[..point], c.digits[point..];
    r := MixedValue(c, point);
  }

  lemma SmallValue(c: Dec, zeros: nat) returns (r: Dec)
    requires Printable(c) && zeros == -(|c.digits| + c.exponent)
    ensures IsDigits([0] + (Zeros(zeros) + c.digits))
    ensures r == Dec(c.negative, TrimZeros([0] + (Zeros(zeros) + c.digits)), 0 - |Zeros(zeros) + c.digits|)
    ensures r.exponent == c.exponent && Value(r) == Value(c)
  {
    LeadingZeros(zeros, c.digits);
    r := Dec(c.negative, TrimZeros([0] + (Zeros(zeros) + c.digits)), c.exponent);
  }

  lemma MixedValue(c: Dec, point: nat) returns (r: Dec)
    requires Printable(c) && point == |c.digits| + c.exponent && 0 < point < |c.digits|
    ensures IsDigits(c.digits[..point]) && IsDigits(c.digits[..point] + c.digits[point..])
    ensures r == Dec(c.negative, TrimZeros(c.digits[..point] + c.digits[point..]), 0 - |c.digits[point..]|) && r == c
  {
    assert c.digits[..point] + c.digits[point..] == c.digits;
    r := c;
  }

  lemma WholeValue(c: Dec) returns (r: Dec)
    requires Printable(c) && c.exponent >= 0
    ensures IsDigits(c.digits + Zeros(c.exponent)) && IsDigits(c.digits + Zeros(c.exponent) + [])
    ensures r == Dec(c.negative, TrimZeros(c.digits + Zeros(c.exponent) + []), 0)
    ensures r.exponent == 0 && Value(r) == Value(c)
  {
    ghost var digits := c.digits + Zeros(c.exponent);
    r := Dec(c.negative, digits, 0);
    assert digits + [] == digits;
    assert Coefficient(digits) == Coefficient(c.digits) * Pow10(c.exponent) by {
      CoefficientConcat(c.digits, Zeros(c.exponent));
      CoefficientZeros(c.exponent);
    }
    assert TrimZeros(digits) == digits;
    PadValue(c, r);
  }

  lemma LeadingZeros(n: nat, digits: seq<nat>)
    requires IsDigits(digits)
    ensures IsDigits([0] + (Zeros(n) + digits))
    ensures Coefficient(TrimZeros([0] + (Zeros(n) + digits))) == Coefficient(digits)
  {
    var padded := [0] + (Zeros(n) + digits);
    OneMoreZero(n, digits);
    TrimZerosKeepsCoefficient(padded);
    PaddedCoefficient(n + 1, digits);
  }

  lemma OneMoreZero(n: nat, digits: seq<nat>)
    ensures [0] + (Zeros(n) + digits) == Zeros(n + 1) + digits
  {
  }

  lemma PaddedCoefficient(n: nat, digits: seq<nat>)
    ensures Coefficient(Zeros(n) + digits) == Coefficient(digits)
  {
    CoefficientConcat(Zeros(n), digits);
    CoefficientZeros(n);
  }

  lemma PadValue(c: Dec, padded: Dec)
    requires c.exponent >= 0 && padded.exponent == 0 && padded.negative == c.negative
    requires Coefficient(padded.digits) == Coefficient(c.digits) * Pow10(c.exponent)
    ensures Value(padded) == Value(c)
  {
    SignedTimes(c, padded, Pow10(c.exponent));
    PadAt(Signed(c), Signed(padded), c.exponent);
  }

  lemma PadAt(a: int, b: int, e: nat)
    requires b == a * Pow10(e)
    ensures At(b, 0) == At(a, e)
  {
    ScaleAdd(0, e);
    MovedValue(a, b, Pow10(e), Scale(0), Scale(e));
  }

  lemma SignedTimes(c: Dec, padded: Dec, p: nat)
    requires padded.negative == c.negative && Coefficient(padded.digits) == Coefficient(c.digits) * p
    ensures Signed(padded) == Signed(c) * p
  {
    NegatedProduct(Coefficient(c.digits), p);
  }

  lemma NegatedProduct(a: int, p: int)
    ensures -(a * p) == (-a) * p
  {
  }

  lemma MovedValue(a: int, b: int, p: nat, k: real, l: real)
    requires b == a * p && l == k * p as real
    ensures b as real * k == a as real * l
  {
    MulCast(a, p);
    MoveFactor(a as real, p as real, k);
  }

  // ---- The printer's laws -------------------------------------------------------

  /** Reading the canonical text of any decimal gives back its number. */
  lemma TextReadsBack(d: Dec)
    requires WellFormed(d)
    ensures Read(Text(d)).Some? && Value(Read(Text(d)).value) == Value(d)
  {
    var c := CanonicalOf(d);
    if c == Zero {
      assert Spell(false, [0], [], 0) == "0" by { assert Chars([0]) == "0"; }
      assert [0] + [] == [0];
      ReadSpelled(false, [0], [], 0);
    } else {
      ReadScientific(c);
      var _ := ReadPlain(c);
    }
  }

  /** Equal numbers print alike and only equal numbers do, whatever their scale. */
  lemma TextIsCanonical(a: Dec, b: Dec)
    requires WellFormed(a) && WellFormed(b)
    ensures Text(a) == Text(b) <==> Value(a) == Value(b)
  {
    TextReadsBack(a);
    TextReadsBack(b);
    if Value(a) == Value(b) {
      CanonicalUnique(CanonicalOf(a), CanonicalOf(b));
    }
  }

  /** The text is never longer than either spelling of the number, and plain where both are as long. */
  lemma TextIsShortest(d: Dec)
    requires WellFormed(d) && CanonicalOf(d) != Zero
    ensures var c := CanonicalOf(d);
            && |Text(d)| == (if |Scientific(c)| < |Plain(c)| then |Scientific(c)| else |Plain(c)|)
            && (|Scientific(c)| == |Plain(c)| ==> Text(d) == Plain(c))
  {
  }
}
