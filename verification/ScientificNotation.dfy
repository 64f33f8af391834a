// parseScientificNotation: decimal mantissas with an exponent, rewritten as
// plain decimals.
module ScientificNotation {
  import opened Options

  predicate IsDigit(c: char) { '0' <= c <= '9' }

  predicate AllDigits(s: string) { forall i | 0 <= i < |s| :: IsDigit(s[i]) }

  function DigitOf(c: char): nat
    requires IsDigit(c)
  {
    (c as int) - ('0' as int)
  }

  /** The number a digit string stands for. */
  function Num(ds: string): nat
    requires AllDigits(ds)
  {
    if ds == [] then 0 else 10 * Num(ds[..|ds| - 1]) + DigitOf(ds[|ds| - 1])
  }

  function Pow10(n: nat): (p: int)
    ensures p >= 1
  {
    if n == 0 then 1 else 10 * Pow10(n - 1)
  }

  /** The number m * 10^e. */
  datatype Scaled = Scaled(m: int, e: int)

  /** Equality of scaled numbers: equal once brought to the smaller exponent. */
  predicate Same(a: Scaled, b: Scaled) {
    if a.e >= b.e then a.m * Pow10(a.e - b.e) == b.m else a.m == b.m * Pow10(b.e - a.e)
  }

  function TimesPower(a: Scaled, e: int): Scaled { Scaled(a.m, a.e + e) }

  function IndexOf(s: string, c: char): (k: nat)
    ensures k <= |s| && c !in s[..k] && (k < |s| ==> s[k] == c)
  {
    if s == [] then 0
    else if s[0] == c then 0
    else
      var k := 1 + IndexOf(s[1..], c);
      assert s[..k] == [s[0]] + s[1..][..k - 1];
      k
  }

  // ------------------------------------------------------------------
  // Decimals
  // ------------------------------------------------------------------

  /** A numeral split at its sign and its point. */
  datatype Parts = Parts(neg: bool, whole: string, frac: string)

  function StripSign(s: string): string {
    if s != "" && (s[0] == '-' || s[0] == '+') then s[1..] else s
  }

  function Split(s: string): Parts {
    var body := StripSign(s);
    var dot := IndexOf(body, '.');
    Parts(s != "" && s[0] == '-', body[..dot], if dot == |body| then "" else body[dot + 1..])
  }

  /** An optional sign, digits, and at most one point among them. */
  predicate IsDecimal(s: string) {
    var p := Split(s);
    AllDigits(p.whole) && AllDigits(p.frac) && p.whole + p.frac != ""
  }

  lemma DigitsJoin(a: string, b: string)
    requires AllDigits(a) && AllDigits(b)
    ensures AllDigits(a + b)
  {
  }

  /** The number a decimal denotes. */
  function Value(s: string): Scaled
    requires IsDecimal(s)
  {
    var p := Split(s);
    DigitsJoin(p.whole, p.frac);
    var v := Num(p.whole + p.frac);
    Scaled(if p.neg then 0 - v else v, -|p.frac|)
  }

  predicate IsSeparator(c: char) { c == '.' || c == '/' }

  predicate IsInt(s: string) {
    AllDigits(StripSign(s)) && StripSign(s) != ""
  }

  /** Digits, at least one, and at most one point or slash. */
  predicate DigitsAndSeparator(body: string) {
    && (forall i | 0 <= i < |body| :: IsDigit(body[i]) || IsSeparator(body[i]))
    && (forall i, j | 0 <= i < j < |body| :: !(IsSeparator(body[i]) && IsSeparator(body[j])))
    && (exists i :: 0 <= i < |body| && IsDigit(body[i]))
  }

  predicate IsOctal(s: string) { forall i | 0 <= i < |s| :: '0' <= s[i] <= '7' }

  /** The number a digit string stands for in base eight. */
  function Octal(ds: string): nat
    requires AllDigits(ds)
  {
    if ds == [] then 0 else 8 * Octal(ds[..|ds| - 1]) + DigitOf(ds[|ds| - 1])
  }

  /** mpz_class reads a denominator in base zero: after a leading zero it is
      octal, and refused if a digit is not. */
  function Denominator(ds: string): (v: Option<nat>)
    requires AllDigits(ds)
  {
    if ds == "" then None
    else if ds[0] == '0' then if IsOctal(ds) then Some(Octal(ds)) else None
    else Some(Num(ds))
  }

  predicate DenominatorOk(d: string) { AllDigits(d) && Denominator(d).Some? && Denominator(d).value != 0 }

  /** Around a slash stand two integers, the second not zero as it is read. */
  predicate SlashOk(s: string) {
    var k := IndexOf(s, '/');
    k < |s| && IsInt(s[..k]) && IsInt(s[k + 1..]) && DenominatorOk(StripSign(s[k + 1..]))
  }

  predicate IsReal(s: string) {
    DigitsAndSeparator(StripSign(s)) && ('/' in StripSign(s) ==> SlashOk(s))
  }

  // ------------------------------------------------------------------
  // The rewriting
  // ------------------------------------------------------------------

  function FirstExponent(s: string): (k: nat)
    ensures k <= |s|
  {
    if s == [] then 0 else if s[0] == 'e' || s[0] == 'E' then 0 else 1 + FirstExponent(s[1..])
  }

  predicate IsSpace(c: char) { c == ' ' || 9 <= c as int <= 13 }

  function WithoutSpaces(s: string): string {
    if s == "" then "" else (if IsSpace(s[0]) then "" else [s[0]]) + WithoutSpaces(s[1..])
  }

  /** Spaces go, and so does one pair of parentheses, closed or not. */
  function CleanExponent(s: string): string {
    var x := WithoutSpaces(s);
    if x != "" && x[0] == '(' then
      var close := IndexOf(x, ')');
      if close < |x| then x[1..close] else x[1..]
    else x
  }

  function DigitPrefix(s: string): (d: string)
    ensures AllDigits(d)
  {
    if s == "" || !IsDigit(s[0]) then "" else [s[0]] + DigitPrefix(s[1..])
  }

  /** std::stoi: the leading integer, if there is one and it fits 32 bits. */
  function Stoi(s: string): (r: Option<int>)
    ensures r.Some? ==> -0x8000_0000 <= r.value <= 0x7FFF_FFFF
  {
    var digits := DigitPrefix(StripSign(s));
    if digits == "" then None
    else
      var v := if s[0] == '-' then 0 - Num(digits) else Num(digits);
      if -0x8000_0000 <= v <= 0x7FFF_FFFF then Some(v) else None
  }

  /** Leading zeros go; at least one digit stays. */
  function StripZeros(s: string): string {
    if s == "" then "0" else if s[0] == '0' then StripZeros(s[1..]) else s
  }

  function Zeros(n: nat): string { seq(n, i => '0') }

  /** Moving the point: zeros behind, a point inside, or zeros in front. */
  function Shifted(digits: string, exponent: int): string {
    if exponent >= 0 then digits + Zeros(exponent)
    else if -exponent < |digits| then
      digits[..|digits| + exponent] + "." + digits[|digits| + exponent..]
    else "0." + Zeros(-exponent - |digits|) + digits
  }

  function Rescale(mantissa: string, exponent: int): string {
    var p := Split(mantissa);
    var r := Shifted(StripZeros(p.whole) + p.frac, exponent - |p.frac|);
    if p.neg && r != "0" then "-" + r else r
  }

  function ParseScientificNotation(s: string): string {
    var k := FirstExponent(s);
    if k == |s| then s
    else if !IsReal(s[..k]) then s
    else
      match Stoi(CleanExponent(s[k + 1..]))
      case None => s
      case Some(e) => Rescale(s[..k], e)
  }

  // ------------------------------------------------------------------
  // Numbers
  // ------------------------------------------------------------------

  lemma {:induction false} Pow10Add(a: nat, b: nat)
    ensures Pow10(a + b) == Pow10(a) * Pow10(b)
  {
    if b > 0 {
      Pow10Add(a, b - 1);
      assert a + b - 1 == a + (b - 1);
      assert 10 * (Pow10(a) * Pow10(b - 1)) == Pow10(a) * (10 * Pow10(b - 1));
    }
  }

  lemma TenTimes(a: int, p: int)
    ensures 10 * (a * p) == a * (10 * p)
  {
  }

  lemma {:induction false} NumConcat(a: string, b: string)
    requires AllDigits(a) && AllDigits(b)
    ensures AllDigits(a + b) && Num(a + b) == Num(a) * Pow10(|b|) + Num(b)
    decreases |b|
  {
    if b == [] {
      assert a + b == a;
    } else {
      var n := |b| - 1;
      assert (a + b)[..|a + b| - 1] == a + b[..n];
      NumConcat(a, b[..n]);
      assert Num(a + b) == 10 * Num(a + b[..n]) + DigitOf(b[n]);
      assert Num(b) == 10 * Num(b[..n]) + DigitOf(b[n]) && Pow10(|b|) == 10 * Pow10(n);
      hide Num, Pow10;
      TenTimes(Num(a), Pow10(n));
    }
  }

  lemma {:induction false} NumZeros(n: nat)
    ensures AllDigits(Zeros(n)) && Num(Zeros(n)) == 0
  {
    if n > 0 {
      assert Zeros(n)[..n - 1] == Zeros(n - 1);
      NumZeros(n - 1);
    }
  }

  lemma {:induction false} StripKeepsNum(s: string)
    requires AllDigits(s)
    ensures AllDigits(StripZeros(s)) && StripZeros(s) != "" && Num(StripZeros(s)) == Num(s)
  {
    if s == "" {
      assert "0"[..0] == "";
    } else if s[0] == '0' {
      StripKeepsNum(s[1..]);
      assert s == [s[0]] + s[1..];
      NumConcat([s[0]], s[1..]);
      assert [s[0]][..0] == [];
    }
  }

  // ------------------------------------------------------------------
  // The value is kept
  // ------------------------------------------------------------------

  lemma NoSeparator(ds: string)
    requires AllDigits(ds)
    ensures '.' !in ds && '-' !in ds && '+' !in ds && '/' !in ds && 'e' !in ds && 'E' !in ds
  {
  }

  lemma {:induction false} IndexOfAbsent(a: string, c: char, b: string)
    requires c !in a
    ensures IndexOf(a + b, c) == |a| + IndexOf(b, c)
  {
    if a == "" {
      assert a + b == b;
    } else {
      IndexOfAbsent(a[1..], c, b);
      assert (a + b)[1..] == a[1..] + b;
    }
  }

  /** How a plain decimal of the two shapes splits. */
  lemma SplitPlain(whole: string, frac: string)
    requires AllDigits(whole) && AllDigits(frac) && whole != ""
    ensures Split(whole) == Parts(false, whole, "")
    ensures Split(whole + "." + frac) == Parts(false, whole, frac)
  {
    NoSeparator(whole);
    assert whole[0] in whole;
    var s := whole + "." + frac;
    assert s[0] == whole[0];
    assert StripSign(s) == s && StripSign(whole) == whole;
    IndexOfAbsent(whole, '.', "");
    assert whole + "" == whole;
    IndexOfAbsent(whole, '.', "." + frac);
    assert s == whole + ("." + frac);
  }

  lemma SignedSplit(s: string)
    requires s != "" && s[0] != '-' && s[0] != '+'
    ensures Split("-" + s) == Split(s).(neg := true)
  {
    assert ("-" + s)[1..] == s;
  }

  /** What a plain decimal denotes. */
  lemma PlainValue(whole: string, frac: string)
    requires AllDigits(whole) && AllDigits(frac) && whole != "" && AllDigits(whole + frac)
    ensures IsPlain(whole) && Value(whole) == Scaled(Num(whole), 0)
    ensures IsPlain(whole + "." + frac) && Value(whole + "." + frac) == Scaled(Num(whole + frac), -|frac|)
  {
    hide Num;
    SplitPlain(whole, frac);
    NoSeparator(whole);
    assert whole[0] in whole && (whole + "." + frac)[0] == whole[0];
    assert whole + "" == whole;
  }

  /** A decimal without a sign. */
  predicate IsPlain(s: string) { s != "" && s[0] != '-' && s[0] != '+' && IsDecimal(s) && !Split(s).neg }

  /** Moving the point multiplies by the power of ten. */
  lemma ShiftedValue(digits: string, e: int)
    requires AllDigits(digits) && digits != ""
    ensures ShiftedOk(digits, e)
  {
    hide ShiftedOk;
    if e >= 0 {
      ZerosBehind(digits, e);
    } else if -e < |digits| {
      PointInside(digits, e);
    } else {
      ZerosInFront(digits, e);
    }
  }

  predicate ShiftedOk(digits: string, e: int)
    requires AllDigits(digits)
  {
    var r := Shifted(digits, e);
    IsPlain(r) && Same(Value(r), Scaled(Num(digits), e)) && (r == "0" ==> Num(digits) == 0)
  }

  lemma ZerosBehind(digits: string, e: nat)
    requires AllDigits(digits) && digits != ""
    ensures ShiftedOk(digits, e)
  {
    hide Num, Value, IsPlain;
    var r := digits + Zeros(e);
    NumZeros(e);
    NumConcat(digits, Zeros(e));
    assert r + "" == r;
    PlainValue(r, "");
    NumOfZero();
    if r == "0" {
      assert |digits| + e == 1;
      assert digits == "0";
    }
  }

  lemma PointInside(digits: string, e: int)
    requires AllDigits(digits) && 0 < -e < |digits|
    ensures ShiftedOk(digits, e)
  {
    hide Num, Value, IsPlain, Same;
    var whole, frac := digits[..|digits| + e], digits[|digits| + e..];
    assert whole + frac == digits;
    PlainValue(whole, frac);
    SameScale(Num(digits), e);
    assert (whole + "." + frac)[|whole|] == '.';
  }

  lemma ZerosInFront(digits: string, e: int)
    requires AllDigits(digits) && digits != "" && -e >= |digits|
    ensures ShiftedOk(digits, e)
  {
    hide Num, Value, IsPlain, Same;
    var zeros := Zeros(-e - |digits|);
    var frac := zeros + digits;
    NumZeros(-e - |digits|);
    NumConcat(zeros, digits);
    NumConcat("0", frac);
    NumOfZero();
    PlainValue("0", frac);
    SameScale(Num(digits), e);
    assert "0." + zeros + digits == "0" + "." + frac;
  }

  lemma NumOfZero()
    ensures AllDigits("0") && Num("0") == 0
  {
    assert "0"[..0] == "";
  }

  lemma SameScale(m: int, e: int)
    ensures Same(Scaled(m, e), Scaled(m, e))
  {
  }

  lemma NegatedDecimal(r: string)
    requires IsPlain(r)
    ensures IsDecimal("-" + r) && Value("-" + r) == Scaled(-Value(r).m, Value(r).e)
  {
    SignedSplit(r);
  }

  lemma SameNegated(a: Scaled, b: Scaled)
    requires Same(a, b)
    ensures Same(Scaled(-a.m, a.e), Scaled(-b.m, b.e))
  {
    var d := if a.e >= b.e then Pow10(a.e - b.e) else Pow10(b.e - a.e);
    assert (-a.m) * d == -(a.m * d) && (-b.m) * d == -(b.m * d);
  }

  /** Rescaling a decimal is multiplication by ten to the exponent. */
  lemma RescaleValue(m: string, e: int)
    requires IsDecimal(m)
    ensures IsDecimal(Rescale(m, e)) && Same(Value(Rescale(m, e)), TimesPower(Value(m), e))
  {
    hide Num, Shifted, StripZeros, Split, Same;
    var p := Split(m);
    var digits := StripZeros(p.whole) + p.frac;
    StripKeepsNum(p.whole);
    NumConcat(StripZeros(p.whole), p.frac);
    NumConcat(p.whole, p.frac);
    var r := Shifted(digits, e - |p.frac|);
    ShiftedValue(digits, e - |p.frac|);
    if p.neg {
      NegatedRescale(r, Num(digits), e - |p.frac|);
    }
  }

  lemma NegatedRescale(r: string, n: int, e: int)
    requires IsPlain(r) && Same(Value(r), Scaled(n, e)) && (r == "0" ==> n == 0)
    ensures var t := if r != "0" then "-" + r else r;
            IsDecimal(t) && Same(Value(t), Scaled(-n, e))
  {
    hide Same, Value, IsDecimal;
    NegatedDecimal(r);
    SameNegated(Value(r), Scaled(n, e));
    if r == "0" {
      NegatedZero(r, n, e);
    }
  }

  lemma NegatedZero(r: string, n: int, e: int)
    requires IsDecimal(r) && Same(Value(r), Scaled(n, e)) && n == 0
    ensures Same(Value(r), Scaled(-n, e))
  {
  }

  lemma DecimalIsReal(m: string)
    requires IsDecimal(m)
    ensures IsReal(m) && 'e' !in m && 'E' !in m
  {
    hide DigitsAndSeparator, IndexOf, Num;
    var body, p := StripSign(m), Split(m);
    NoSeparator(p.whole);
    NoSeparator(p.frac);
    BodyParts(m);
    if body == p.whole {
      PlainDigits(body);
    } else {
      OneSeparator(p.whole, '.', p.frac);
    }
  }

  lemma BodyParts(m: string)
    ensures var body, p := StripSign(m), Split(m);
            (body == p.whole && p.frac == "") || body == p.whole + "." + p.frac
  {
  }

  lemma PlainDigits(s: string)
    requires AllDigits(s) && s != ""
    ensures DigitsAndSeparator(s)
  {
    assert IsDigit(s[0]);
  }

  lemma {:induction false} ExponentAfter(m: string, x: string)
    requires 'e' !in m && 'E' !in m && x != "" && (x[0] == 'e' || x[0] == 'E')
    ensures FirstExponent(m + x) == |m|
  {
    if m == "" {
      assert m + x == x;
    } else {
      ExponentAfter(m[1..], x);
      assert (m + x)[1..] == m[1..] + x;
    }
  }

  /** For every decimal mantissa and every exponent text that reads as an
      integer, the result is a decimal of the value mantissa times ten to the
      exponent. */
  lemma NotationKeepsValue(m: string, mark: char, x: string, e: int)
    requires IsDecimal(m) && (mark == 'e' || mark == 'E') && Stoi(CleanExponent(x)) == Some(e)
    ensures var r := ParseScientificNotation(m + [mark] + x);
            IsDecimal(r) && Same(Value(r), TimesPower(Value(m), e))
  {
    hide IsReal, IsDecimal, Rescale, Value, CleanExponent, Same;
    var s := m + [mark] + x;
    DecimalIsReal(m);
    assert s == m + ([mark] + x);
    ExponentAfter(m, [mark] + x);
    assert s[..|m|] == m && s[|m| + 1..] == x;
    RescaleValue(m, e);
  }

  // ------------------------------------------------------------------
  // Rational mantissas
  // ------------------------------------------------------------------

  function Trimmed(n: string): string {
    if n != "" && n[0] == '0' then Trimmed(n[1..]) else n
  }

  lemma {:induction false} TrimmedKeepsNum(n: string)
    requires AllDigits(n)
    ensures AllDigits(Trimmed(n)) && Num(Trimmed(n)) == Num(n)
    ensures Trimmed(n) == "" <==> Num(n) == 0
  {
    hide Num;
    if n != "" && n[0] == '0' {
      TrimmedKeepsNum(n[1..]);
      assert n == "0" + n[1..];
      NumConcat("0", n[1..]);
      NumOfZero();
    } else if n != "" {
      LeadingDigit(n);
    } else {
      NumOfNothing();
    }
  }

  lemma LeadingDigit(n: string)
    requires AllDigits(n) && n != "" && n[0] != '0'
    ensures Num(n) != 0
  {
    assert n == [n[0]] + n[1..];
    NumConcat([n[0]], n[1..]);
    assert [n[0]][..0] == [];
    assert Num([n[0]]) == DigitOf(n[0]) >= 1;
    Positive(Num([n[0]]), Pow10(|n[1..]|));
  }

  lemma {:induction false} StripBeforeSlash(n: string, d: string)
    requires AllDigits(n)
    ensures StripZeros(n + "/" + d) == Trimmed(n) + "/" + d
  {
    var m := n + "/" + d;
    if n != "" && n[0] == '0' {
      StripBeforeSlash(n[1..], d);
      assert m[1..] == n[1..] + "/" + d;
    }
  }

  predicate IsSign(s: string) { s == "" || s == "-" || s == "+" }

  /** What comes of a mantissa n/d, which passes isReal too. A nonnegative
      exponent appends its zeros to the denominator; the result is a number
      exactly if the numerator is not zero, whose digits are all stripped. A
      negative exponent puts a point beside the slash, and the result is no
      number at all. */
  lemma RationalMantissa(sign: string, n: string, d: string, e: int)
    requires IsSign(sign) && AllDigits(n) && DenominatorOk(d) && n != ""
    ensures IsReal(sign + n + "/" + d)
    ensures var r := Rescale(sign + n + "/" + d, e);
            && (IsReal(r) <==> e >= 0 && Num(n) != 0)
            && (e >= 0 ==> r == (if sign == "-" then "-" else "") + Trimmed(n) + "/" + (d + Zeros(e)))
  {
    hide Num, IsReal, Shifted, Rescale, Trimmed, Denominator;
    var t := Trimmed(n);
    RationalIsReal(sign, n, d);
    TrimmedKeepsNum(n);
    ShiftedRational(t, d, e);
    RescaledRational(sign, n, d, e);
    var r := Shifted(t + "/" + d, e);
    if e >= 0 {
      SignedText(sign, t, d + Zeros(e));
    }
  }

  lemma SignedText(sign: string, t: string, d: string)
    requires IsSign(sign)
    ensures (if sign == "-" then "-" + (t + "/" + d) else t + "/" + d) == (if sign == "-" then "-" else "") + t + "/" + d
  {
    assert "-" + (t + "/" + d) == "-" + t + "/" + d && t + "/" + d == "" + t + "/" + d;
  }

  lemma RescaledRational(sign: string, n: string, d: string, e: int)
    requires IsSign(sign) && AllDigits(n) && AllDigits(d) && n != "" && Shifted(Trimmed(n) + "/" + d, e) != "0"
    ensures var r := Shifted(Trimmed(n) + "/" + d, e);
            Rescale(sign + n + "/" + d, e) == if sign == "-" then "-" + r else r
  {
    hide Shifted, Split, StripZeros, Trimmed;
    RationalSplit(sign, n, d);
    StripBeforeSlash(n, d);
    assert (Trimmed(n) + "/" + d) + "" == Trimmed(n) + "/" + d;
  }

  /** The digits t before the slash have no leading zeros. */
  lemma ShiftedRational(t: string, d: string, e: int)
    requires AllDigits(t) && DenominatorOk(d)
    ensures var r := Shifted(t + "/" + d, e);
            && r != "0"
            && (e >= 0 ==> r == t + "/" + (d + Zeros(e)))
            && (IsReal(r) <==> e >= 0 && t != "")
            && (IsReal("-" + r) <==> e >= 0 && t != "")
  {
    hide Num, IsReal, Shifted, Denominator;
    if e < 0 {
      PointBesideSlash(t, d, e);
    } else {
      ZerosAppended(t, d, e);
      DenominatorGrows(d, e);
      RationalOrNot(t, d + Zeros(e));
    }
  }

  lemma RationalOrNot(t: string, d: string)
    requires AllDigits(t) && DenominatorOk(d)
    ensures var r := t + "/" + d;
            && r != "0"
            && (IsReal(r) <==> t != "")
            && (IsReal("-" + r) <==> t != "")
  {
    hide Num, IsReal, Denominator;
    var r := t + "/" + d;
    assert r[|t|] == '/';
    if t == "" {
      NoNumerator(r);
    } else {
      RationalIsReal("", t, d);
      RationalIsReal("-", t, d);
      assert "" + t + "/" + d == r && "-" + t + "/" + d == "-" + r;
    }
  }

  /** The base a denominator is read in. */
  function Radix(d: string): nat { if d != "" && d[0] == '0' then 8 else 10 }

  function Power(b: nat, n: nat): nat { if n == 0 then 1 else b * Power(b, n - 1) }

  lemma {:induction false} PowerOfTen(n: nat)
    ensures Power(10, n) == Pow10(n)
  {
    if n > 0 {
      PowerOfTen(n - 1);
    }
  }

  lemma {:induction false} PowerPositive(b: nat, n: nat)
    requires b > 1
    ensures Power(b, n) >= 1 && (Power(b, n) == 1 <==> n == 0)
  {
    if n > 0 {
      PowerPositive(b, n - 1);
      assert Power(b, n) == b * Power(b, n - 1);
      AtLeast(b, Power(b, n - 1));
    }
  }

  lemma AtLeast(b: nat, p: nat)
    requires p >= 1
    ensures b * p >= b
  {
  }

  lemma EightTimes(a: int, p: int)
    ensures 8 * (a * p) == a * (8 * p)
  {
  }

  lemma {:induction false} OctalZeros(d: string, e: nat)
    requires AllDigits(d) && IsOctal(d)
    ensures AllDigits(d + Zeros(e)) && IsOctal(d + Zeros(e)) && Octal(d + Zeros(e)) == Octal(d) * Power(8, e)
  {
    if e == 0 {
      assert d + Zeros(0) == d;
    } else {
      var r := d + Zeros(e);
      assert r[..|r| - 1] == d + Zeros(e - 1) && r[|r| - 1] == '0';
      OctalZeros(d, e - 1);
      assert Octal(r) == 8 * Octal(d + Zeros(e - 1));
      EightTimes(Octal(d), Power(8, e - 1));
    }
  }

  /** Zeros behind a denominator multiply it by powers of its base. */
  lemma {:induction false} DenominatorGrows(d: string, e: nat)
    requires DenominatorOk(d)
    ensures DenominatorOk(d + Zeros(e))
    ensures Denominator(d + Zeros(e)).value == Denominator(d).value * Power(Radix(d), e)
  {
    hide Num, Octal, Power;
    var r := d + Zeros(e);
    assert r[0] == d[0];
    PowerPositive(Radix(d), e);
    Positive(Denominator(d).value, Power(Radix(d), e));
    if d[0] == '0' {
      OctalZeros(d, e);
    } else {
      NumZeros(e);
      NumConcat(d, Zeros(e));
      PowerOfTen(e);
    }
  }

  /** Where the result is a number, the denominator d is multiplied by a power of
      the base it is read in, and the value is the right one, (n * 10^e)/d,
      exactly if the exponent is zero. */
  lemma RationalValue(n: string, d: string, e: nat)
    requires AllDigits(n) && DenominatorOk(d) && Num(n) != 0
    ensures AllDigits(Trimmed(n)) && Num(Trimmed(n)) == Num(n)
    ensures DenominatorOk(d + Zeros(e)) && Denominator(d + Zeros(e)).value == Denominator(d).value * Power(Radix(d), e)
    ensures Num(Trimmed(n)) * Denominator(d).value == Num(n) * Pow10(e) * Denominator(d + Zeros(e)).value <==> e == 0
  {
    hide Num, Pow10, Denominator, Power;
    TrimmedKeepsNum(n);
    DenominatorGrows(d, e);
    PowerPositive(Radix(d), e);
    AtLeastTen(e);
    CrossProducts(Num(n), Denominator(d).value, Pow10(e), Power(Radix(d), e));
  }

  lemma ZerosAppended(t: string, d: string, e: nat)
    ensures Shifted(t + "/" + d, e) == t + "/" + (d + Zeros(e))
  {
  }

  lemma NoNumerator(r: string)
    requires r != "" && r[0] == '/'
    ensures !IsReal(r) && !IsReal("-" + r)
  {
    hide DigitsAndSeparator;
    var m := "-" + r;
    assert StripSign(r) == r && StripSign(m) == r;
    assert r[0] in r && m[1] in m;
    assert IndexOf(r, '/') == 0 && m[1..] == r && IndexOf(m, '/') == 1;
    assert r[..0] == "" && m[..1] == "-";
  }

  /** Two separators make no number. */
  lemma TwoSeparators(r: string, i: nat, j: nat)
    requires i < j < |r| && IsSeparator(r[i]) && IsSeparator(r[j]) && r[0] != '-' && r[0] != '+'
    ensures !IsReal(r) && !IsReal("-" + r)
  {
    assert StripSign(r) == r && StripSign("-" + r) == r;
  }

  lemma PointBesideSlash(t: string, d: string, e: int)
    requires AllDigits(t) && AllDigits(d) && e < 0
    ensures var r := Shifted(t + "/" + d, e);
            r != "0" && !IsReal(r) && !IsReal("-" + r)
  {
    hide IsReal;
    var s := t + "/" + d;
    var r := Shifted(s, e);
    assert s[|t|] == '/';
    assert forall i | 0 <= i < |s| && i != |t| :: IsDigit(s[i]);
    if -e < |s| {
      var k := |s| + e;
      assert r == s[..k] + "." + s[k..] && r[k] == '.' && r[0] == s[0];
      if |t| < k {
        assert r[|t|] == '/';
        TwoSeparators(r, |t|, k);
      } else {
        assert r[|t| + 1] == '/';
        TwoSeparators(r, k, |t| + 1);
      }
    } else {
      var z := -e - |s|;
      assert r[0] == '0' && r[1] == '.' && r[2 + z + |t|] == '/';
      TwoSeparators(r, 1, 2 + z + |t|);
    }
  }

  lemma AtLeastTen(e: nat)
    ensures Pow10(e) == 1 <==> e == 0
  {
    if e > 0 {
      assert Pow10(e) == 10 * Pow10(e - 1) >= 10;
    }
  }

  lemma RationalIsReal(sign: string, n: string, d: string)
    requires IsSign(sign) && AllDigits(n) && DenominatorOk(d) && n != ""
    ensures IsReal(sign + n + "/" + d)
  {
    hide Num, SlashOk, DigitsAndSeparator, IndexOf, Denominator;
    SlashIsOk(sign, n, d);
    OneSeparator(n, '/', d);
    SignGoes(sign, n + "/" + d);
    assert sign + n + "/" + d == sign + (n + "/" + d);
  }

  lemma SlashIsOk(sign: string, n: string, d: string)
    requires IsSign(sign) && AllDigits(n) && DenominatorOk(d) && n != ""
    ensures SlashOk(sign + n + "/" + d)
  {
    hide Num, IndexOf, StripSign, Octal;
    SlashPosition(sign, n, d);
    assert d != "";
    NoSign(d);
    SignGoes(sign, n);
  }

  lemma SignGoes(sign: string, s: string)
    requires IsSign(sign) && s != "" && IsDigit(s[0])
    ensures StripSign(sign + s) == s
  {
  }

  lemma OneSeparator(n: string, c: char, d: string)
    requires AllDigits(n) && AllDigits(d) && n + d != "" && IsSeparator(c)
    ensures DigitsAndSeparator(n + [c] + d)
  {
    var m := n + [c] + d;
    assert forall i | 0 <= i < |m| :: if i == |n| then m[i] == c else IsDigit(m[i]);
    if n != "" {
      assert IsDigit(m[0]);
    } else {
      assert IsDigit(m[1]);
    }
  }

  lemma NoSign(s: string)
    requires s != "" && IsDigit(s[0])
    ensures StripSign(s) == s
  {
  }

  lemma SlashPosition(sign: string, n: string, d: string)
    requires IsSign(sign) && AllDigits(n) && n != ""
    ensures var m := sign + n + "/" + d;
            IndexOf(m, '/') == |sign + n| && m[..|sign + n|] == sign + n && m[|sign + n| + 1..] == d
  {
    NoSeparator(n);
    assert '/' !in sign + n;
    IndexOfAbsent(sign + n, '/', "/" + d);
    assert sign + n + "/" + d == (sign + n) + ("/" + d);
  }

  lemma NumOfNothing()
    ensures Num("") == 0
  {
  }

  lemma RationalSplit(sign: string, n: string, d: string)
    requires IsSign(sign) && AllDigits(n) && AllDigits(d) && n != ""
    ensures Split(sign + n + "/" + d) == Parts(sign == "-", n + "/" + d, "")
  {
    var m := n + "/" + d;
    NoSeparator(n);
    NoSeparator(d);
    SignGoes(sign, m);
    assert sign + n + "/" + d == sign + m;
    assert n[0] in n && m[0] == n[0];
    assert '.' !in m;
    IndexOfAbsent(m, '.', "");
    assert m + "" == m;
  }

  lemma CrossProducts(n: int, d: int, p: int, q: int)
    requires n > 0 && d > 0 && p >= 1 && q >= 1 && (p == 1 <==> q == 1)
    ensures n * d == n * p * (d * q) <==> p == 1
  {
    var k := n * d;
    assert n * p * (d * q) == k * (p * q);
    Positive(n, d);
    if p > 1 {
      AtLeast(p, q);
      assert p * q > 1;
      GrowsBy(k, p * q);
    }
  }

  lemma Positive(a: int, b: int)
    requires a > 0 && b > 0
    ensures a * b > 0
  {
  }

  lemma GrowsBy(k: int, q: int)
    requires k > 0 && q > 1
    ensures k * q > k
  {
  }
}
