/**
 * Finite JavaScript numbers and the text the language prints for them: Number::toString of section
 * 6.1.6.1.20 of ECMA-262, shared by the canonical JSON printer and by the exact price fraction.
 */
module JsNumber {
  import opened Common

  const MINUS: CodeUnit := 45
  const PLUS: CodeUnit := 43
  const POINT: CodeUnit := 46
  const ZERO_DIGIT: CodeUnit := 48
  const EXPONENT: CodeUnit := 101

  predicate IsDigit(u: CodeUnit) { 48 <= u <= 57 }

  predicate AllDigits(t: Text) { forall u <- t :: IsDigit(u) }

  /**
   * The standard describes a finite non-zero number by the shortest decimal digits k and the position n of
   * the decimal point: its magnitude is 0.DIGITS times ten to the power `point`.
   */
  datatype Number = PositiveZero | NegativeZero | NonZero(negative: bool, digits: Text, point: int)

  predicate Valid(x: Number) {
    x.NonZero? ==>
      && |x.digits| > 0 && AllDigits(x.digits)
      && x.digits[0] != ZERO_DIGIT && x.digits[|x.digits| - 1] != ZERO_DIGIT
  }

  type Finite = x: Number | Valid(x) witness PositiveZero

  function Zeros(count: nat): (t: Text)
    ensures |t| == count && AllDigits(t)
  {
    seq(count, _ => ZERO_DIGIT)
  }

  /** Decimal digits of a natural number, without leading zeros. */
  function NatText(m: nat): (t: Text)
    ensures |t| > 0 && AllDigits(t)
  {
    if m < 10 then [(48 + m) as CodeUnit] else NatText(m / 10) + [(48 + m % 10) as CodeUnit]
  }

  /** The natural number a digit string denotes. */
  function NatOf(t: Text): nat
    requires AllDigits(t)
  {
    if t == [] then 0
    else
      assert IsDigit(t[|t| - 1]);
      10 * NatOf(t[..|t| - 1]) + (t[|t| - 1] as int - 48)
  }

  lemma {:induction false} NatTextDenotes(m: nat)
    ensures NatOf(NatText(m)) == m
  {
    if m >= 10 {
      NatTextDenotes(m / 10);
      assert NatText(m)[..|NatText(m)| - 1] == NatText(m / 10);
    }
  }

  function Print(x: Finite): Text {
    match x
    case PositiveZero => [ZERO_DIGIT]
    case NegativeZero => [ZERO_DIGIT]
    case NonZero(negative, digits, n) => (if negative then [MINUS] else []) + PrintMagnitude(digits, n)
  }

  function WithPoint(whole: Text, fraction: Text): Text {
    if fraction == [] then whole else whole + ([POINT] + fraction)
  }

  function ExponentSuffix(e: int): Text {
    [EXPONENT, if e < 0 then MINUS else PLUS] + NatText(if e < 0 then -e else e)
  }

  function PrintMagnitude(digits: Text, n: int): Text
    requires |digits| > 0
  {
    if -5 <= n <= 21 then
      if n >= |digits| then digits + Zeros(n - |digits|)
      else if n > 0 then WithPoint(digits[..n], digits[n..])
      else WithPoint([ZERO_DIGIT], Zeros(-n) + digits)
    else WithPoint(digits[..1], digits[1..]) + ExponentSuffix(n - 1)
  }

  // ------------------------------------------------------------- reading

  /** What the pattern digits[.digits][e[sign]digits] captures. */
  datatype Decimal = Decimal(negative: bool, whole: Text, fraction: Text, exponent: int)

  predicate DecimalValid(d: Decimal) { AllDigits(d.whole) && AllDigits(d.fraction) }

  function DigitRun(s: Text): (n: nat)
    ensures n <= |s| && AllDigits(s[..n])
    ensures n < |s| ==> !IsDigit(s[n])
  {
    if s == [] || !IsDigit(s[0]) then 0
    else
      var n := 1 + DigitRun(s[1..]);
      assert s[..n] == [s[0]] + s[1..][..n - 1];
      n
  }

  lemma {:induction false} DigitRunStops(t: Text, rest: Text)
    requires AllDigits(t)
    requires rest == [] || !IsDigit(rest[0])
    ensures DigitRun(t + rest) == |t|
    ensures (t + rest)[..|t|] == t && (t + rest)[|t|..] == rest
  {
    if t == [] {
      assert t + rest == rest;
    } else {
      DigitRunStops(t[1..], rest);
      assert (t + rest)[1..] == t[1..] + rest;
    }
  }

  function Starts(s: Text, u: CodeUnit): bool { s != [] && s[0] == u }

  function ReadExponent(s: Text): Option<(int, Text)> {
    if !Starts(s, EXPONENT) then Some((0, s))
    else
      var signed := Starts(s[1..], MINUS) || Starts(s[1..], PLUS);
      var body := if signed then s[2..] else s[1..];
      var n := DigitRun(body);
      if n == 0 then None
      else
        var magnitude: int := NatOf(body[..n]);
        Some((if Starts(s[1..], MINUS) then -magnitude else magnitude, body[n..]))
  }

  function ReadFraction(s: Text): Option<(Text, Text)> {
    if !Starts(s, POINT) then Some(([], s))
    else
      var n := DigitRun(s[1..]);
      if n == 0 then None else Some((s[1..][..n], s[1..][n..]))
  }

  /** Longest decimal at the front of `s`, and what follows it. */
  function ReadDecimal(s: Text): (r: Option<(Decimal, Text)>)
    ensures r.Some? ==> DecimalValid(r.value.0) && |r.value.1| < |s|
  {
    var body := if Starts(s, MINUS) then s[1..] else s;
    var n := DigitRun(body);
    if n == 0 then None
    else
      match ReadFraction(body[n..])
      case None => None
      case Some((fraction, rest)) =>
        match ReadExponent(rest)
        case None => None
        case Some((exponent, rest')) => Some((Decimal(Starts(s, MINUS), body[..n], fraction, exponent), rest'))
  }

  function LeadingZeros(t: Text): (n: nat)
    ensures n <= |t|
  {
    if t == [] || t[0] != ZERO_DIGIT then 0 else 1 + LeadingZeros(t[1..])
  }

  function TrailingZeros(t: Text): (n: nat)
    ensures n <= |t|
  {
    if t == [] || t[|t| - 1] != ZERO_DIGIT then 0 else 1 + TrailingZeros(t[..|t| - 1])
  }

  lemma {:induction false} LeadingZerosStop(n: nat, t: Text)
    requires t != [] ==> t[0] != ZERO_DIGIT
    ensures LeadingZeros(Zeros(n) + t) == n
  {
    if n == 0 {
      assert Zeros(0) + t == t;
    } else {
      LeadingZerosStop(n - 1, t);
      assert (Zeros(n) + t)[1..] == Zeros(n - 1) + t;
    }
  }

  lemma {:induction false} TrailingZerosStop(t: Text, n: nat)
    requires t != [] && t[|t| - 1] != ZERO_DIGIT
    ensures TrailingZeros(t + Zeros(n)) == n
  {
    if n == 0 {
      assert t + Zeros(0) == t;
    } else {
      TrailingZerosStop(t, n - 1);
      assert (t + Zeros(n))[..|t + Zeros(n)| - 1] == t + Zeros(n - 1);
    }
  }

  /** The number a decimal denotes, in the standard's shortest form; a printed zero reads as +0. */
  function ToNumber(d: Decimal): Number
    requires DecimalValid(d)
  {
    var all := d.whole + d.fraction;
    var lead := LeadingZeros(all);
    var body := all[lead..];
    if body == [] then PositiveZero
    else NonZero(d.negative, body[..|body| - TrailingZeros(body)], |d.whole| + d.exponent - lead)
  }

  /** The two zeros print alike; nothing else is lost. */
  function DropSign(x: Finite): Finite {
    if x.NegativeZero? then PositiveZero else x
  }

  /** No character that could continue a number. */
  predicate EndsNumber(rest: Text) {
    rest != [] ==> !IsDigit(rest[0]) && rest[0] != POINT && rest[0] != EXPONENT
  }

  /** How the printed magnitude splits into the captures of the pattern. */
  function Captures(negative: bool, digits: Text, n: int): Decimal
    requires |digits| > 0
  {
    if -5 <= n <= 21 then
      if n >= |digits| then Decimal(negative, digits + Zeros(n - |digits|), [], 0)
      else if n > 0 then Decimal(negative, digits[..n], digits[n..], 0)
      else Decimal(negative, [ZERO_DIGIT], Zeros(-n) + digits, 0)
    else Decimal(negative, digits[..1], digits[1..], n - 1)
  }

  lemma ReadWholeAndFraction(whole: Text, fraction: Text, tail: Text)
    requires AllDigits(whole) && AllDigits(fraction) && whole != []
    requires tail == [] || (!IsDigit(tail[0]) && (fraction == [] ==> tail[0] != POINT))
    ensures var s := WithPoint(whole, fraction) + tail;
            && DigitRun(s) == |whole| && s[..|whole|] == whole
            && ReadFraction(s[|whole|..]) == Some((fraction, tail))
            && s[0] != MINUS
  {
    var middle := if fraction == [] then [] else [POINT] + fraction;
    var s := WithPoint(whole, fraction) + tail;
    assert s == whole + (middle + tail);
    DigitRunStops(whole, middle + tail);
    if fraction == [] {
      assert middle + tail == tail;
    } else {
      assert (middle + tail)[1..] == fraction + tail;
      DigitRunStops(fraction, tail);
    }
  }

  lemma ReadPrintedExponent(e: int, rest: Text)
    requires rest != [] ==> !IsDigit(rest[0])
    ensures ReadExponent(ExponentSuffix(e) + rest) == Some((e, rest))
  {
    var sign := if e < 0 then MINUS else PLUS;
    var magnitude := if e < 0 then -e else e;
    var s := ExponentSuffix(e) + rest;
    assert s[1..] == [sign] + (NatText(magnitude) + rest);
    assert s[2..] == NatText(magnitude) + rest;
    DigitRunStops(NatText(magnitude), rest);
    NatTextDenotes(magnitude);
  }

  function ExponentText(n: int): Text {
    if -5 <= n <= 21 then [] else ExponentSuffix(n - 1)
  }

  lemma CapturesValid(negative: bool, digits: Text, n: int)
    requires Valid(NonZero(negative, digits, n))
    ensures DecimalValid(Captures(negative, digits, n)) && Captures(negative, digits, n).whole != []
  {
  }

  lemma PlainShowsCaptures(negative: bool, digits: Text, n: int)
    requires |digits| > 0 && -5 <= n <= 21
    ensures var d := Captures(negative, digits, n); PrintMagnitude(digits, n) == WithPoint(d.whole, d.fraction)
  {
  }

  lemma PrintShowsCaptures(negative: bool, digits: Text, n: int, rest: Text)
    requires |digits| > 0
    ensures var d := Captures(negative, digits, n);
            PrintMagnitude(digits, n) + rest == WithPoint(d.whole, d.fraction) + (ExponentText(n) + rest)
  {
    hide ExponentSuffix;
    if -5 <= n <= 21 {
      PlainShowsCaptures(negative, digits, n);
      assert ExponentText(n) + rest == rest;
    } else {
      hide WithPoint;
      var mantissa := WithPoint(digits[..1], digits[1..]);
      assert (mantissa + ExponentText(n)) + rest == mantissa + (ExponentText(n) + rest);
    }
  }

  lemma ReadPrintedTail(n: int, rest: Text)
    requires EndsNumber(rest)
    ensures var tail := ExponentText(n) + rest;
            && ReadExponent(tail) == Some((if -5 <= n <= 21 then 0 else n - 1, rest))
            && (tail == [] || (!IsDigit(tail[0]) && tail[0] != POINT))
  {
    if -5 <= n <= 21 {
      assert ExponentText(n) + rest == rest;
    } else {
      ReadPrintedExponent(n - 1, rest);
    }
  }

  lemma ReadSigned(negative: bool, body: Text, n: nat, d: Decimal, tail: Text, rest: Text)
    requires d.negative == negative
    requires n == DigitRun(body) > 0 && body[..n] == d.whole && body[0] != MINUS
    requires ReadFraction(body[n..]) == Some((d.fraction, tail))
    requires ReadExponent(tail) == Some((d.exponent, rest))
    ensures ReadDecimal((if negative then [MINUS] else []) + body) == Some((d, rest))
  {
    var s := (if negative then [MINUS] else []) + body;
    if negative {
      assert s[1..] == body;
    } else {
      assert s == body;
    }
  }

  lemma ReadPrintedMagnitude(negative: bool, digits: Text, n: int, rest: Text)
    requires Valid(NonZero(negative, digits, n)) && EndsNumber(rest)
    ensures ReadDecimal((if negative then [MINUS] else []) + (PrintMagnitude(digits, n) + rest))
            == Some((Captures(negative, digits, n), rest))
  {
    var d := Captures(negative, digits, n);
    var tail := ExponentText(n) + rest;
    var body := WithPoint(d.whole, d.fraction) + tail;
    CapturesValid(negative, digits, n);
    PrintShowsCaptures(negative, digits, n, rest);
    ReadPrintedTail(n, rest);
    ReadWholeAndFraction(d.whole, d.fraction, tail);
    ReadSigned(negative, body, |d.whole|, d, tail, rest);
  }

  /** Zeros around the significant digits do not change the number. */
  lemma PaddingIsIgnored(d: Decimal, lead: nat, digits: Text, trail: nat)
    requires DecimalValid(d) && Valid(NonZero(d.negative, digits, 0))
    requires d.whole + d.fraction == Zeros(lead) + digits + Zeros(trail)
    ensures ToNumber(d) == NonZero(d.negative, digits, |d.whole| + d.exponent - lead)
  {
    var all := d.whole + d.fraction;
    assert all == Zeros(lead) + (digits + Zeros(trail));
    LeadingZerosStop(lead, digits + Zeros(trail));
    assert all[lead..] == digits + Zeros(trail);
    TrailingZerosStop(digits, trail);
    assert all[lead..][..|digits|] == digits;
  }

  lemma CapturesDenote(negative: bool, digits: Text, n: int)
    requires Valid(NonZero(negative, digits, n))
    ensures DecimalValid(Captures(negative, digits, n))
    ensures ToNumber(Captures(negative, digits, n)) == NonZero(negative, digits, n)
  {
    var d := Captures(negative, digits, n);
    var all := d.whole + d.fraction;
    if -5 <= n <= 21 && n >= |digits| {
      assert all == Zeros(0) + digits + Zeros(n - |digits|);
      PaddingIsIgnored(d, 0, digits, n - |digits|);
    } else if -5 <= n <= 0 {
      assert all == Zeros(1 - n) + digits + Zeros(0);
      PaddingIsIgnored(d, 1 - n, digits, 0);
    } else {
      assert all == Zeros(0) + digits + Zeros(0);
      PaddingIsIgnored(d, 0, digits, 0);
    }
  }

  lemma ReadPrintedZero(rest: Text)
    requires EndsNumber(rest)
    ensures ReadDecimal([ZERO_DIGIT] + rest) == Some((Decimal(false, [ZERO_DIGIT], [], 0), rest))
  {
    ReadWholeAndFraction([ZERO_DIGIT], [], rest);
    var body := [ZERO_DIGIT] + rest;
    assert WithPoint([ZERO_DIGIT], []) + rest == body;
    assert [] + body == body;
    ReadSigned(false, body, 1, Decimal(false, [ZERO_DIGIT], [], 0), rest, rest);
  }

  lemma PrintAssociates(negative: bool, digits: Text, n: int, rest: Text)
    requires Valid(NonZero(negative, digits, n))
    ensures Print(NonZero(negative, digits, n)) + rest
            == (if negative then [MINUS] else []) + (PrintMagnitude(digits, n) + rest)
  {
  }

  /** Printing loses only the sign of zero: the reader recovers the number and stops where it ended. */
  lemma ReadUndoesPrint(x: Finite, rest: Text)
    requires EndsNumber(rest)
    ensures var r := ReadDecimal(Print(x) + rest);
            r.Some? && r.value.1 == rest && ToNumber(r.value.0) == DropSign(x)
  {
    match x
    case NonZero(negative, digits, n) =>
      PrintAssociates(negative, digits, n, rest);
      ReadPrintedMagnitude(negative, digits, n, rest);
      CapturesDenote(negative, digits, n);
    case _ =>
      ReadPrintedZero(rest);
      assert [ZERO_DIGIT] + [] == [ZERO_DIGIT];
  }

  /** Every printed number starts with a digit or a minus sign. */
  lemma PrintStart(x: Finite)
    ensures Print(x) != [] && (IsDigit(Print(x)[0]) || Print(x)[0] == MINUS)
  {
    if x.NonZero? {
      var m := PrintMagnitude(x.digits, x.point);
      PrintShowsCaptures(x.negative, x.digits, x.point, []);
      CapturesValid(x.negative, x.digits, x.point);
      var d := Captures(x.negative, x.digits, x.point);
      assert m + [] == m;
      assert m[0] == d.whole[0];
    }
  }

  ghost predicate Ascii(t: Text) {
    forall i | 0 <= i < |t| :: t[i] < 128
  }

  lemma DigitsAreAscii(t: Text)
    requires AllDigits(t)
    ensures Ascii(t)
  {
    forall i | 0 <= i < |t| ensures t[i] < 128 { assert t[i] in t; }
  }

  lemma ConcatAscii(a: Text, b: Text)
    requires Ascii(a) && Ascii(b)
    ensures Ascii(a + b)
  {
  }

  lemma ExponentIsAscii(n: int)
    ensures Ascii(ExponentText(n))
  {
    var e := n - 1;
    DigitsAreAscii(NatText(if e < 0 then -e else e));
  }

  lemma PrintIsAscii(x: Finite)
    ensures Ascii(Print(x))
  {
    match x
    case NonZero(negative, digits, n) =>
      PrintShowsCaptures(negative, digits, n, []);
      CapturesValid(negative, digits, n);
      var d := Captures(negative, digits, n);
      DigitsAreAscii(d.whole);
      DigitsAreAscii(d.fraction);
      ConcatAscii([POINT], d.fraction);
      ConcatAscii(d.whole, [POINT] + d.fraction);
      ExponentIsAscii(n);
      assert ExponentText(n) + [] == ExponentText(n);
      ConcatAscii(WithPoint(d.whole, d.fraction), ExponentText(n));
      assert PrintMagnitude(digits, n) + [] == PrintMagnitude(digits, n);
      ConcatAscii(if negative then [MINUS] else [], PrintMagnitude(digits, n));
    case _ =>
  }
}
