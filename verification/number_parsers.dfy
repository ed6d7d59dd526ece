/** The integer mappers: `Byte.valueOf`, `Short.valueOf`, `Integer.valueOf`,
    `Long.valueOf` and `new BigInteger(input)`. All of them read an optional
    `+` or `-` followed by one or more decimal digits; the fixed-width ones then
    reject values outside their range. Failures are the JDK's
    `NumberFormatException`, which the mappers let through unwrapped. */
module NumberParsers {
  import opened JavaText
  import opened Types

  /** The width of a Java integer type. */
  datatype Width = W8 | W16 | W32 | W64

  /** `MIN_VALUE` of the type of width `w`. */
  function MinValue(w: Width): int {
    match w
    case W8 => -0x80
    case W16 => -0x8000
    case W32 => -0x8000_0000
    case W64 => -0x8000_0000_0000_0000
  }

  /** `MAX_VALUE` of the type of width `w`. */
  function MaxValue(w: Width): int {
    match w
    case W8 => 0x7F
    case W16 => 0x7FFF
    case W32 => 0x7FFF_FFFF
    case W64 => 0x7FFF_FFFF_FFFF_FFFF
  }

  predicate InRange(w: Width, v: int) {
    MinValue(w) <= v <= MaxValue(w)
  }

  /** `w1` is no wider than `w2`. */
  predicate NoWider(w1: Width, w2: Width) {
    MinValue(w2) <= MinValue(w1) && MaxValue(w1) <= MaxValue(w2)
  }

  const Zero: CodeUnit := '0' as int as CodeUnit
  const Minus: CodeUnit := '-' as int as CodeUnit
  const Plus: CodeUnit := '+' as int as CodeUnit

  predicate IsDigit(u: CodeUnit) {
    Zero <= u <= Zero + 9
  }

  predicate AllDigits(ds: JString) {
    forall i :: 0 <= i < |ds| ==> IsDigit(ds[i])
  }

  /** The value of a string of decimal digits, most significant first. */
  function DigitsValue(ds: JString): nat
    requires AllDigits(ds)
  {
    if ds == [] then 0
    else 10 * DigitsValue(ds[..|ds| - 1]) + (ds[|ds| - 1] - Zero) as int
  }

  /** The decimal grammar shared by the JDK's integer parsers: an optional
      sign, then at least one digit. `None` where they throw. */
  function ParseDecimal(s: JString): (r: Option<int>)
    ensures r.Some? ==> |s| > 0
    ensures r.Some? && s[0] == Minus ==> r.value <= 0
    ensures r.Some? && s[0] != Minus ==> r.value >= 0
  {
    if |s| == 0 then None
    else if s[0] == Minus || s[0] == Plus then
      var digits := s[1..];
      if digits == [] || !AllDigits(digits) then None
      else
        var magnitude: int := DigitsValue(digits);
        if s[0] == Minus then Some(-magnitude) else Some(magnitude)
    else if AllDigits(s) then Some(DigitsValue(s))
    else None
  }

  /** `Byte.valueOf` (W8), `Short.valueOf` (W16), `Integer.valueOf` (W32) and
      `Long.valueOf` (W64): the decimal value if the text is well formed and the
      value fits the width, otherwise the `NumberFormatException`. */
  function ParseFixed(w: Width, input: JString): (r: Result<int>)
    ensures r.Ok? ==> InRange(w, r.value)
    ensures r.Ok? <==> ParseDecimal(input).Some? && InRange(w, ParseDecimal(input).value)
    ensures r.Ok? ==> r.value == ParseDecimal(input).value
    ensures r.Err? ==> r.failure == NumberFormat(input) && !r.failure.IsParserException()
  {
    match ParseDecimal(input)
    case None => Err(NumberFormat(input))
    case Some(v) => if InRange(w, v) then Ok(v) else Err(NumberFormat(input))
  }

  /** `new BigInteger(input)`: the same grammar with no range limit. */
  function ParseBigInteger(input: JString): (r: Result<int>)
    ensures r.Ok? <==> ParseDecimal(input).Some?
    ensures r.Ok? ==> r.value == ParseDecimal(input).value
    ensures r.Err? ==> r.failure == NumberFormat(input) && !r.failure.IsParserException()
  {
    match ParseDecimal(input)
    case None => Err(NumberFormat(input))
    case Some(v) => Ok(v)
  }

  /** A fixed-width parser accepts exactly the texts `BigInteger` accepts whose
      value fits the width, and then agrees with it on the value. */
  lemma FixedIsBigIntegerInRange(w: Width, input: JString, v: int)
    ensures ParseFixed(w, input) == Ok(v) <==> ParseBigInteger(input) == Ok(v) && InRange(w, v)
  {
  }

  /** A text a narrower parser accepts is accepted, with the same value, by every
      wider one (a valid `byte` text is a valid `short`, `int` and `long` text). */
  lemma FixedWidens(w1: Width, w2: Width, input: JString)
    requires NoWider(w1, w2)
    ensures ParseFixed(w1, input).Ok? ==> ParseFixed(w2, input) == ParseFixed(w1, input)
  {
  }

  /** Leading zeros do not change the value of a digit string. */
  lemma {:induction false} LeadingZero(ds: JString)
    requires AllDigits(ds)
    ensures AllDigits([Zero] + ds)
    ensures DigitsValue([Zero] + ds) == DigitsValue(ds)
  {
    if ds != [] {
      var init := ds[..|ds| - 1];
      LeadingZero(init);
      assert ([Zero] + ds)[..|ds|] == [Zero] + init;
    }
  }

  /** The text with one more `0` in front of its digits, after any sign. */
  function WithLeadingZero(s: JString): JString {
    if |s| > 0 && (s[0] == Minus || s[0] == Plus) then [s[0], Zero] + s[1..]
    else [Zero] + s
  }

  /** A sign is read as such: for unsigned digits, `+` keeps the value and `-`
      negates it, and the digits alone are read as their decimal value. */
  lemma DecimalSigns(ds: JString)
    requires ds != [] && AllDigits(ds)
    ensures ParseDecimal(ds) == Some(DigitsValue(ds))
    ensures ParseDecimal([Plus] + ds) == ParseDecimal(ds)
    ensures ParseDecimal([Minus] + ds) == Some(-(DigitsValue(ds) as int))
  {
  }

  /** The grammar the JDK's integer parsers accept: an optional `+` or `-`,
      then one or more decimal digits, and nothing else. */
  ghost predicate WellFormed(s: JString) {
    exists ds :: ds != [] && AllDigits(ds) && (s == ds || s == [Plus] + ds || s == [Minus] + ds)
  }

  /** The parser accepts exactly the well-formed texts: nothing before the
      sign, nothing after the digits. */
  lemma DecimalAcceptsExactly(s: JString)
    ensures ParseDecimal(s).Some? <==> WellFormed(s)
  {
  }

  /** A leading zero changes nothing: an accepted text, of any size, has the
      same value with an extra `0` before its digits. */
  lemma DecimalLeadingZero(s: JString)
    ensures ParseDecimal(s).Some? ==> ParseDecimal(WithLeadingZero(s)) == ParseDecimal(s)
  {
    if ParseDecimal(s).Some? {
      var t := WithLeadingZero(s);
      if s[0] == Minus || s[0] == Plus {
        LeadingZero(s[1..]);
        assert t[1..] == [Zero] + s[1..];
      } else {
        LeadingZero(s);
      }
    }
  }

  /** The same for the fixed-width parsers. */
  lemma FixedLeadingZero(w: Width, s: JString)
    ensures ParseFixed(w, s).Ok? ==> ParseFixed(w, WithLeadingZero(s)) == ParseFixed(w, s)
  {
    DecimalLeadingZero(s);
  }

  /** Digits of a natural number, most significant first, without leading zeros. */
  function DigitsOf(n: nat): (r: JString)
    ensures |r| > 0 && AllDigits(r)
    decreases n
  {
    if n < 10 then [Zero + n as CodeUnit]
    else DigitsOf(n / 10) + [Zero + (n % 10) as CodeUnit]
  }

  /** Reading back the digits of `n` gives `n`. */
  lemma {:induction false} DigitsOfValue(n: nat)
    ensures DigitsValue(DigitsOf(n)) == n
    decreases n
  {
    if n >= 10 {
      DigitsOfValue(n / 10);
      var ds := DigitsOf(n);
      assert ds[..|ds| - 1] == DigitsOf(n / 10);
    }
  }

  /** The decimal text of an integer: `-` before the digits of a negative value. */
  function DecimalText(v: int): (r: JString)
    ensures |r| > 0
    ensures r[0] == Minus <==> v < 0
  {
    if v < 0 then [Minus] + DigitsOf(-v) else DigitsOf(v)
  }

  /** Every value of the width has a text the parser maps to it: no value in the
      range is out of reach. */
  lemma FixedReachesRange(w: Width, v: int)
    requires InRange(w, v)
    ensures ParseFixed(w, DecimalText(v)) == Ok(v)
  {
    if v < 0 {
      DigitsOfValue(-v);
      assert DecimalText(v)[1..] == DigitsOf(-v);
    } else {
      DigitsOfValue(v);
      assert IsDigit(DigitsOf(v)[0]);
    }
  }

  /** Every integer, however large, is the `BigInteger` read from its decimal text. */
  lemma BigIntegerReachesAll(v: int)
    ensures ParseBigInteger(DecimalText(v)) == Ok(v)
  {
    if v < 0 {
      DigitsOfValue(-v);
      assert DecimalText(v)[1..] == DigitsOf(-v);
    } else {
      DigitsOfValue(v);
      assert IsDigit(DigitsOf(v)[0]);
    }
  }

  /** Sample inputs: `5` is a byte; `300` is out of the byte range but a short. */
  lemma FixedExamplesInRange()
    ensures ParseFixed(W8, Ascii("5")) == Ok(5)
    ensures ParseFixed(W8, Ascii("300")).Err?
    ensures ParseFixed(W16, Ascii("300")) == Ok(300)
  {
    var s300 := Ascii("300");
    assert AllDigits(s300);
    assert s300[..2] == Ascii("30") && Ascii("30")[..1] == Ascii("3");
  }

  /** Sample inputs: signs are read, a sign alone or the empty text is rejected,
      and so is a stray non-digit. */
  lemma FixedExamplesSigns()
    ensures ParseFixed(W8, Ascii("-128")) == Ok(-128)
    ensures ParseFixed(W8, Ascii("+7")) == Ok(7)
    ensures ParseFixed(W32, Ascii("-")).Err?
    ensures ParseFixed(W64, Ascii("")).Err?
    ensures ParseFixed(W32, Ascii("1x")).Err?
  {
    var s128 := Ascii("128");
    assert Ascii("-128") == [Minus] + s128;
    assert s128[..2] == Ascii("12") && Ascii("12")[..1] == Ascii("1");
    assert DigitsValue(s128) == 128;
    DecimalSigns(s128);
    assert Ascii("+7") == [Plus] + Ascii("7");
    DecimalSigns(Ascii("7"));
    assert !IsDigit(Ascii("1x")[1]);
  }
}
