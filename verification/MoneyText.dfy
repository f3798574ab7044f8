/** Amounts as text: one parser and three printers, over integers of any length and any exponent. */
module MoneyText {
  import opened Wrappers
  import opened Arithmetic

  datatype TextError = NotAnInteger | UnsupportedCurrency | ExponentMismatch

  predicate IsDigit(c: char) {
    '0' <= c <= '9'
  }

  predicate AllDigits(s: string) {
    |s| > 0 && forall i :: 0 <= i < |s| ==> IsDigit(s[i])
  }

  predicate Negative(s: string) {
    |s| > 0 && s[0] == '-'
  }

  function Unsigned(s: string): string {
    if Negative(s) then s[1..] else s
  }

  predicate IsInteger(s: string) {
    AllDigits(Unsigned(s))
  }

  // Leading zeros go while a digit remains behind them.
  function StripZeros(s: string): (r: string)
    ensures AllDigits(s) ==> AllDigits(r)
  {
    if |s| > 1 && s[0] == '0' && IsDigit(s[1]) then StripZeros(s[1..]) else s
  }

  function Zeros(n: nat): (r: string)
    ensures |r| == n && forall i :: 0 <= i < n ==> r[i] == '0'
  {
    seq(n, i => '0')
  }

  function PadStart(s: string, n: nat): (r: string)
    ensures |r| == if |s| < n then n else |s|
    ensures AllDigits(s) ==> AllDigits(r)
  {
    if |s| < n then Zeros(n - |s|) + s else s
  }

  function Minus(negative: bool): string {
    if negative then "-" else ""
  }

  function Pointed(negative: bool, whole: string, fraction: string): string {
    Minus(negative) + (whole + "." + fraction)
  }

  function NormalizeInteger(value: string): string {
    var digits := StripZeros(Unsigned(value));
    if Negative(value) && digits != "0" then "-" + digits else digits
  }

  /** The ledger export's printer: digits are shifted, never divided. */
  function FormatMinorUnits(minor: string, exponent: Option<nat>): Result<string, TextError> {
    if !IsInteger(minor) then Err(NotAnInteger)
    else if exponent.None? then Err(UnsupportedCurrency)
    else
      var normalized := NormalizeInteger(minor);
      if exponent.value == 0 then Ok(normalized)
      else
        var padded := PadStart(Unsigned(normalized), exponent.value + 1);
        var cut := |padded| - exponent.value;
        Ok(Pointed(Negative(normalized), padded[..cut], padded[cut..]))
  }

  function IndexOf(s: string, c: char): (r: nat)
    ensures r <= |s| && (r < |s| ==> s[r] == c) && forall i :: 0 <= i < r ==> s[i] != c
  {
    if s == [] then 0 else if s[0] == c then 0 else 1 + IndexOf(s[1..], c)
  }

  /** A sign, digits, a point and exactly as many digits as the exponent says. */
  predicate IsDecimal(s: string, exponent: nat) {
    var u := Unsigned(s);
    var point := IndexOf(u, '.');
    point < |u| && AllDigits(u[..point]) && AllDigits(u[point + 1..]) && |u[point + 1..]| == exponent
  }

  function Whole(s: string): string {
    Unsigned(s)[..IndexOf(Unsigned(s), '.')]
  }

  function Fraction(s: string): string {
    var u := Unsigned(s);
    var point := IndexOf(u, '.');
    if point < |u| then u[point + 1..] else ""
  }

  function ParseDecimalToMinor(decimal: string, exponent: Option<nat>): Result<string, TextError> {
    if exponent.None? then Err(UnsupportedCurrency)
    else if exponent.value == 0 then
      if IsInteger(decimal) then Ok(NormalizeInteger(decimal)) else Err(ExponentMismatch)
    else if IsDecimal(decimal, exponent.value) then
      Ok(NormalizeInteger(Minus(Negative(decimal)) + (Whole(decimal) + Fraction(decimal))))
    else Err(ExponentMismatch)
  }

  function Pow10(n: nat): (r: nat)
    ensures r > 0
  {
    if n == 0 then 1 else 10 * Pow10(n - 1)
  }

  function DigitChar(d: nat): char
    requires d < 10
  {
    '0' + d as char
  }

  /** Decimal digits of a number, as a big integer prints them. */
  function NatText(v: nat): (r: string)
    ensures AllDigits(r)
  {
    if v < 10 then [DigitChar(v)] else NatText(v / 10) + [DigitChar(v % 10)]
  }

  function IntText(v: int): string {
    if v < 0 then "-" + NatText(-v) else NatText(v)
  }

  function WithSign(negative: bool, magnitude: int): int {
    if negative then -magnitude else magnitude
  }

  function DivBy(v: nat, p: nat): nat
    requires p > 0
  {
    v / p
  }

  function Quotient(v: nat, e: nat): nat {
    DivBy(v, Pow10(e))
  }

  function Remainder(v: nat, e: nat): (r: nat)
    ensures r < Pow10(e)
  {
    v % Pow10(e)
  }

  /** The assistant's printer: integer division by a power of ten. */
  function MinorToDecimal(value: int, digits: nat): string {
    var abs := Abs(value);
    if digits == 0 then Minus(value < 0) + NatText(abs)
    else
      Pointed(value < 0, NatText(Quotient(abs, digits)), PadStart(NatText(Remainder(abs, digits)), digits))
  }

  /** The prompt's printer, which ends in the currency code. */
  function FormatMinorAmount(amountMinor: string, currency: string, exponent: nat): Result<string, TextError> {
    if !IsInteger(amountMinor) then Err(NotAnInteger)
    else
      var digits := StripZeros(Unsigned(amountMinor));
      if exponent == 0 then Ok(Minus(Negative(amountMinor)) + digits + (" " + currency))
      else
        var padded := PadStart(digits, exponent + 1);
        var cut := |padded| - exponent;
        var zero := forall i :: 0 <= i < |digits| ==> digits[i] == '0';
        Ok(Pointed(Negative(amountMinor) && !zero, padded[..cut], padded[cut..]) + (" " + currency))
  }

  // What digits are worth.

  function DigitValue(c: char): nat
    requires IsDigit(c)
  {
    c as int - '0' as int
  }

  predicate Digits(s: string) {
    forall i :: 0 <= i < |s| ==> IsDigit(s[i])
  }

  function Value(s: string): nat
    requires Digits(s)
  {
    if s == [] then 0 else 10 * Value(s[..|s| - 1]) + DigitValue(s[|s| - 1])
  }

  function IntValue(s: string): int
    requires IsInteger(s)
  {
    WithSign(Negative(s), Value(Unsigned(s)))
  }

  lemma {:induction false} ValueAppend(a: string, b: string)
    requires Digits(a) && Digits(b)
    ensures Digits(a + b) && Value(a + b) == Value(a) * Pow10(|b|) + Value(b)
  {
    if b == [] {
      assert a + b == a;
    } else {
      var n := |b| - 1;
      ValueAppend(a, b[..n]);
      assert (a + b)[..|a| + n] == a + b[..n];
      Tenfold(Value(a), Pow10(n), Value(b[..n]));
    }
  }

  lemma Tenfold(a: nat, p: nat, b: nat)
    ensures 10 * (a * p + b) == a * (10 * p) + 10 * b
  {
  }

  lemma {:induction false} ValueBound(s: string)
    requires Digits(s)
    ensures Value(s) < Pow10(|s|)
  {
    if s != [] {
      ValueBound(s[..|s| - 1]);
    }
  }

  lemma ValueLast(s: string)
    requires Digits(s) && s != []
    ensures Value(s) == 10 * Value(s[..|s| - 1]) + DigitValue(s[|s| - 1]) && DigitValue(s[|s| - 1]) < 10
  {
  }

  lemma LastDigitUnique(x: nat, d: nat, y: nat, e: nat)
    requires 10 * x + d == 10 * y + e && d < 10 && e < 10
    ensures x == y && d == e
  {
  }

  /** Digit strings of one length and one value are the same. */
  lemma {:induction false} SameValueSameDigits(a: string, b: string)
    requires Digits(a) && Digits(b) && |a| == |b| && Value(a) == Value(b)
    ensures a == b
  {
    hide Value;
    if a != [] {
      var n := |a| - 1;
      ValueLast(a);
      ValueLast(b);
      LastDigitUnique(Value(a[..n]), DigitValue(a[n]), Value(b[..n]), DigitValue(b[n]));
      SameValueSameDigits(a[..n], b[..n]);
      assert a == a[..n] + [a[n]] && b == b[..n] + [b[n]];
    }
  }

  lemma {:induction false} NatTextValue(v: nat)
    ensures Value(NatText(v)) == v
  {
    if v >= 10 {
      NatTextValue(v / 10);
      assert NatText(v)[..|NatText(v)| - 1] == NatText(v / 10);
    } else {
      assert NatText(v)[..0] == [];
    }
  }

  predicate Stripped(s: string) {
    AllDigits(s) && (|s| == 1 || s[0] != '0')
  }

  lemma {:induction false} StrippedPositive(s: string)
    requires Stripped(s) && s[0] != '0'
    ensures Value(s) >= 1
  {
    if |s| > 1 {
      StrippedPositive(s[..|s| - 1]);
    }
  }

  /** Digits without leading zeros are the text of their value. */
  lemma {:induction false} StrippedIsText(s: string)
    requires Stripped(s)
    ensures s == NatText(Value(s))
  {
    var n := |s| - 1;
    if n == 0 {
      assert s[..0] == [];
      assert s == [s[0]];
    } else {
      StrippedIsText(s[..n]);
      StrippedPositive(s[..n]);
      assert Value(s) / 10 == Value(s[..n]) && Value(s) % 10 == DigitValue(s[n]);
      assert s == s[..n] + [s[n]];
    }
  }

  lemma {:induction false} StripZerosKeepsValue(s: string)
    requires AllDigits(s)
    ensures Stripped(StripZeros(s)) && Value(StripZeros(s)) == Value(s)
  {
    if |s| > 1 && s[0] == '0' {
      StripZerosKeepsValue(s[1..]);
      assert s == [s[0]] + s[1..];
      assert [s[0]][..0] == [];
      ValueAppend([s[0]], s[1..]);
    }
  }

  lemma StripIsText(s: string)
    requires AllDigits(s)
    ensures StripZeros(s) == NatText(Value(s))
  {
    StripZerosKeepsValue(s);
    StrippedIsText(StripZeros(s));
  }

  lemma ZeroText(v: nat)
    ensures NatText(v) == "0" <==> v == 0
  {
    NatTextValue(v);
    assert "0"[..0] == [];
    assert Value("0") == 0;
  }

  /** Normalising an integer gives the one text of its value. */
  lemma NormalizeIsValueText(s: string)
    requires IsInteger(s)
    ensures NormalizeInteger(s) == IntText(IntValue(s))
    ensures IsInteger(NormalizeInteger(s)) && IntValue(NormalizeInteger(s)) == IntValue(s)
  {
    StripIsText(Unsigned(s));
    ZeroText(Value(Unsigned(s)));
    IntTextValue(IntValue(s));
  }

  lemma NoMinus(s: string)
    requires AllDigits(s)
    ensures !Negative(s) && Unsigned(s) == s && Unsigned("-" + s) == s && Negative("-" + s)
  {
  }

  lemma IntTextValue(v: int)
    ensures IsInteger(IntText(v)) && IntValue(IntText(v)) == v
    ensures Negative(IntText(v)) == (v < 0) && Unsigned(IntText(v)) == NatText(Abs(v))
  {
    NoMinus(NatText(Abs(v)));
    NatTextValue(Abs(v));
  }

  /** Texts of integers normalise alike exactly when they mean the same amount. */
  lemma NormalizeSeparatesValues(s: string, t: string)
    requires IsInteger(s) && IsInteger(t)
    ensures NormalizeInteger(s) == NormalizeInteger(t) <==> IntValue(s) == IntValue(t)
  {
    NormalizeIsValueText(s);
    NormalizeIsValueText(t);
  }

  // Shifting digits divides by a power of ten.

  lemma {:induction false} PadValue(n: nat, s: string)
    requires Digits(s)
    ensures Digits(Zeros(n) + s) && Value(Zeros(n) + s) == Value(s)
  {
    ZerosValue(n);
    ValueAppend(Zeros(n), s);
  }

  lemma {:induction false} ZerosValue(n: nat)
    ensures Value(Zeros(n)) == 0
  {
    if n > 0 {
      ZerosValue(n - 1);
      assert Zeros(n)[..n - 1] == Zeros(n - 1);
    }
  }

  lemma PadStartValue(s: string, n: nat)
    requires AllDigits(s)
    ensures AllDigits(PadStart(s, n)) && Value(PadStart(s, n)) == Value(s)
  {
    if |s| < n {
      PadValue(n - |s|, s);
    }
  }

  lemma DivModUnique(v: nat, p: nat, q: nat, r: nat)
    requires p > 0 && v == q * p + r && r < p
    ensures v / p == q && v % p == r
  {
    var q', r' := v / p, v % p;
    assert v == p * q' + r' && 0 <= r' < p;
    LessThan(p, q, q');
    LessThan(p, q', q);
  }

  lemma LessThan(p: nat, a: int, b: int)
    ensures a < b ==> a * p + p <= b * p
  {
    if a < b {
      Factored(p, a, b - a - 1);
    }
  }

  lemma Factored(p: nat, a: int, d: nat)
    ensures (a + (d + 1)) * p == a * p + d * p + p && d * p >= 0
  {
  }

  /** Cutting a digit string e places from its end divides its value by ten to the e. */
  lemma CutDivides(s: string, e: nat)
    requires Digits(s) && |s| > e
    ensures var cut := |s| - e;
      && Value(s[..cut]) == Quotient(Value(s), e)
      && Value(s[cut..]) == Remainder(Value(s), e)
  {
    var cut := |s| - e;
    assert s == s[..cut] + s[cut..];
    ValueAppend(s[..cut], s[cut..]);
    ValueBound(s[cut..]);
    DivModUnique(Value(s), Pow10(e), Value(s[..cut]), Value(s[cut..]));
  }

  lemma {:induction false} TextLength(v: nat, e: nat)
    requires v < Pow10(e) && e > 0
    ensures |NatText(v)| <= e
  {
    if v >= 10 {
      TextLength(v / 10, e - 1);
    }
  }

  /** The digits of a fraction are its value padded to the exponent. */
  lemma FractionText(s: string)
    requires AllDigits(s)
    ensures PadStart(NatText(Value(s)), |s|) == s
  {
    ValueBound(s);
    TextLength(Value(s), |s|);
    PadStartValue(NatText(Value(s)), |s|);
    NatTextValue(Value(s));
    SameValueSameDigits(PadStart(NatText(Value(s)), |s|), s);
  }

  lemma TextIsStripped(v: nat)
    ensures Stripped(NatText(v))
  {
    NatTextValue(v);
    StripZerosKeepsValue(NatText(v));
    StrippedIsText(StripZeros(NatText(v)));
  }

  lemma PaddedIsStripped(v: nat, e: nat)
    ensures var padded := PadStart(NatText(v), e + 1); Stripped(padded[..|padded| - e])
  {
    TextIsStripped(v);
    hide NatText;
  }

  lemma ShiftIsDivision(v: nat, e: nat)
    requires e > 0
    ensures var padded := PadStart(NatText(v), e + 1);
      var cut := |padded| - e;
      && padded[..cut] == NatText(Quotient(v, e))
      && padded[cut..] == PadStart(NatText(Remainder(v, e)), e)
  {
    hide Pow10, Value, NatText, PadStart, Quotient, Remainder, Stripped;
    var padded := PadStart(NatText(v), e + 1);
    var cut := |padded| - e;
    PadStartValue(NatText(v), e + 1);
    NatTextValue(v);
    CutDivides(padded, e);
    PaddedIsStripped(v, e);
    StrippedIsText(padded[..cut]);
    FractionText(padded[cut..]);
  }

  /** The digit-shifting printer and the dividing printer print the same. */
  lemma PrintersAgree(minor: string, e: nat)
    requires IsInteger(minor)
    ensures FormatMinorUnits(minor, Some(e)) == Ok(MinorToDecimal(IntValue(minor), e))
  {
    hide NormalizeInteger, NatText, Quotient, Remainder, PadStart, IntValue, Pointed, Negative, Unsigned;
    NormalizeIsValueText(minor);
    IntTextValue(IntValue(minor));
    if e > 0 {
      ShiftIsDivision(Abs(IntValue(minor)), e);
    } else {
      IntTextSigned(IntValue(minor));
    }
  }

  lemma IntTextSigned(v: int)
    ensures IntText(v) == Minus(v < 0) + NatText(Abs(v))
  {
    assert "" + NatText(Abs(v)) == NatText(Abs(v));
  }

  lemma AllZeros(s: string)
    requires Stripped(s)
    ensures (forall i :: 0 <= i < |s| ==> s[i] == '0') <==> s == "0"
  {
  }

  lemma IntValueOf(s: string)
    requires IsInteger(s)
    ensures IntValue(s) == WithSign(Negative(s), Value(Unsigned(s)))
  {
  }

  /** The prompt's printer agrees too, except that at exponent 0 it keeps the sign of a negative zero. */
  lemma PromptPrinterAgreesExactly(minor: string, currency: string, e: nat)
    requires IsInteger(minor)
    ensures FormatMinorAmount(minor, currency, e) == Ok(MinorToDecimal(IntValue(minor), e) + (" " + currency))
      <==> !(e == 0 && Negative(minor) && IntValue(minor) == 0)
  {
    hide Value, StripZeros, Stripped, NatText, Quotient, Remainder, PadStart, IntValue, Pointed, Negative, Unsigned;
    var v := Value(Unsigned(minor));
    StripIsText(Unsigned(minor));
    TextIsStripped(v);
    ZeroText(v);
    AllZeros(NatText(v));
    IntValueOf(minor);
    if e > 0 {
      ShiftIsDivision(v, e);
    } else if Negative(minor) && v == 0 {
      ZeroText(0);
      assert (Minus(true) + NatText(v) + (" " + currency))[0] == '-';
      assert NatText(0) == "0";
      assert (Minus(false) + NatText(0) + (" " + currency))[0] == '0';
    }
  }

  // Round trips.

  lemma {:induction false} IndexOfPoint(a: string, b: string)
    requires forall i :: 0 <= i < |a| ==> a[i] != '.'
    ensures IndexOf(a + "." + b, '.') == |a|
  {
    var s := a + "." + b;
    assert s[|a|] == '.';
    assert forall i :: 0 <= i < |a| ==> s[i] == a[i];
  }

  lemma PartsOf(negative: bool, whole: string, fraction: string)
    requires AllDigits(whole) && AllDigits(fraction)
    ensures var s := Pointed(negative, whole, fraction);
      && Negative(s) == negative && IsDecimal(s, |fraction|) && Whole(s) == whole && Fraction(s) == fraction
  {
    var u := whole + "." + fraction;
    var s := Minus(negative) + u;
    assert u[0] == whole[0];
    assert Unsigned(s) == u;
    IndexOfPoint(whole, fraction);
    assert u[..|whole|] == whole && u[|whole| + 1..] == fraction;
  }

  lemma SignedValue(negative: bool, digits: string)
    requires AllDigits(digits)
    ensures var s := Minus(negative) + digits;
      IsInteger(s) && IntValue(s) == WithSign(negative, Value(digits))
  {
    NoMinus(digits);
    assert "" + digits == digits;
  }

  lemma ShiftedValue(whole: string, fraction: string)
    requires AllDigits(whole) && AllDigits(fraction)
    ensures AllDigits(whole + fraction)
    ensures var v := Value(whole + fraction);
      Quotient(v, |fraction|) == Value(whole) && Remainder(v, |fraction|) == Value(fraction)
  {
    ValueAppend(whole, fraction);
    ValueBound(fraction);
    DivModUnique(Value(whole + fraction), Pow10(|fraction|), Value(whole), Value(fraction));
  }

  lemma PrintedDigits(v: nat, e: nat)
    requires e > 0
    ensures var whole, fraction := NatText(Quotient(v, e)), PadStart(NatText(Remainder(v, e)), e);
      |fraction| == e && AllDigits(whole + fraction) && Value(whole + fraction) == v
  {
    hide Value, Quotient, Remainder, Pow10;
    TextLength(Remainder(v, e), e);
    NatTextValue(Quotient(v, e));
    NatTextValue(Remainder(v, e));
    PadStartValue(NatText(Remainder(v, e)), e);
    ValueAppend(NatText(Quotient(v, e)), PadStart(NatText(Remainder(v, e)), e));
    QuotientRemainder(v, e);
  }

  lemma ParseOfParts(negative: bool, whole: string, fraction: string)
    requires AllDigits(whole) && AllDigits(fraction)
    ensures ParseDecimalToMinor(Pointed(negative, whole, fraction), Some(|fraction|))
         == Ok(IntText(WithSign(negative, Value(whole + fraction))))
  {
    PartsOf(negative, whole, fraction);
    SignedValue(negative, whole + fraction);
    NormalizeIsValueText(Minus(negative) + (whole + fraction));
  }

  /** Parsing what the dividing printer prints gives the amount back. */
  lemma ParseOfPrinted(v: int, e: nat)
    ensures ParseDecimalToMinor(MinorToDecimal(v, e), Some(e)) == Ok(IntText(v))
  {
    hide Value, Quotient, Remainder, Pow10, NatText, PadStart, NormalizeInteger;
    if e == 0 {
      SignedValue(v < 0, NatText(Abs(v)));
      NatTextValue(Abs(v));
      NormalizeIsValueText(MinorToDecimal(v, 0));
    } else {
      PrintedDigits(Abs(v), e);
      hide ParseDecimalToMinor;
      ParseOfParts(v < 0, NatText(Quotient(Abs(v), e)), PadStart(NatText(Remainder(Abs(v), e)), e));
    }
  }

  lemma QuotientRemainder(v: nat, e: nat)
    ensures Quotient(v, e) * Pow10(e) + Remainder(v, e) == v
  {
  }

  /** Parsing a printed amount returns the normalised integer. */
  lemma PrintedParsesBack(minor: string, e: nat)
    requires IsInteger(minor)
    ensures FormatMinorUnits(minor, Some(e)).Ok?
    ensures ParseDecimalToMinor(FormatMinorUnits(minor, Some(e)).value, Some(e)) == Ok(NormalizeInteger(minor))
  {
    PrintersAgree(minor, e);
    ParseOfPrinted(IntValue(minor), e);
    NormalizeIsValueText(minor);
  }

  /** No two amounts print alike. */
  lemma PrintingIsInjective(v: int, w: int, e: nat)
    requires MinorToDecimal(v, e) == MinorToDecimal(w, e)
    ensures v == w
  {
    ParseOfPrinted(v, e);
    ParseOfPrinted(w, e);
    IntTextValue(v);
    IntTextValue(w);
  }

  /** A decimal without leading zeros, and without a sign on zero. */
  function CanonicalDecimal(decimal: string, e: nat): string
    requires if e == 0 then IsInteger(decimal) else IsDecimal(decimal, e)
  {
    if e == 0 then NormalizeInteger(decimal)
    else
      var zero := forall i :: 0 <= i < |Whole(decimal) + Fraction(decimal)| ==>
        (Whole(decimal) + Fraction(decimal))[i] == '0';
      Pointed(Negative(decimal) && !zero, StripZeros(Whole(decimal)), Fraction(decimal))
  }

  lemma {:induction false} ZeroDigits(s: string)
    requires Digits(s)
    ensures Value(s) == 0 <==> forall i :: 0 <= i < |s| ==> s[i] == '0'
  {
    if s != [] {
      var n := |s| - 1;
      ZeroDigits(s[..n]);
      assert forall i :: 0 <= i < n ==> s[i] == s[..n][i];
    }
  }

  lemma PrintedParts(negative: bool, whole: string, fraction: string)
    requires AllDigits(whole) && AllDigits(fraction)
    ensures AllDigits(whole + fraction)
    ensures var zero := forall i :: 0 <= i < |whole + fraction| ==> (whole + fraction)[i] == '0';
      MinorToDecimal(WithSign(negative, Value(whole + fraction)), |fraction|)
        == Pointed(negative && !zero, StripZeros(whole), fraction)
  {
    assert AllDigits(whole + fraction);
    hide Value, Pow10, Quotient, Remainder, NatText, PadStart, StripZeros, Pointed;
    ShiftedValue(whole, fraction);
    StripIsText(whole);
    FractionText(fraction);
    ZeroDigits(whole + fraction);
  }

  lemma CanonicalIsPrinted(decimal: string, e: nat)
    requires e > 0 && IsDecimal(decimal, e)
    ensures var s := Minus(Negative(decimal)) + (Whole(decimal) + Fraction(decimal));
      IsInteger(s) && MinorToDecimal(IntValue(s), e) == CanonicalDecimal(decimal, e)
  {
    hide Whole, Fraction, Value, Negative, IsDecimal, Pointed, MinorToDecimal, IntValue, StripZeros;
    DecimalParts(decimal, e);
    PrintedParts(Negative(decimal), Whole(decimal), Fraction(decimal));
    SignedValue(Negative(decimal), Whole(decimal) + Fraction(decimal));
  }

  lemma DecimalParts(decimal: string, e: nat)
    requires IsDecimal(decimal, e)
    ensures AllDigits(Whole(decimal)) && AllDigits(Fraction(decimal)) && |Fraction(decimal)| == e
  {
  }

  /** Printing a parsed decimal returns its canonical form, and every decimal of the right shape parses. */
  lemma ParsedPrintsCanonical(decimal: string, e: nat)
    ensures ParseDecimalToMinor(decimal, Some(e)).Ok? <==> if e == 0 then IsInteger(decimal) else IsDecimal(decimal, e)
    ensures var parsed := ParseDecimalToMinor(decimal, Some(e));
      parsed.Ok? ==> FormatMinorUnits(parsed.value, Some(e)) == Ok(CanonicalDecimal(decimal, e))
  {
    var parsed := ParseDecimalToMinor(decimal, Some(e));
    if parsed.Ok? {
      if e == 0 {
        NormalizeIsValueText(decimal);
        NormalizeIsValueText(parsed.value);
      } else {
        CanonicalIsPrinted(decimal, e);
        NormalizeIsValueText(Minus(Negative(decimal)) + (Whole(decimal) + Fraction(decimal)));
        PrintersAgree(parsed.value, e);
      }
    }
  }
}
