// Which numbers the exponent and the denominator are, and which strings are
// numbers at all: the readers against printed numerals.
module Exponents {
  import opened Numerals
  import opened Options
  import opened ScientificNotation

  lemma DigitRead(d: nat)
    requires d < 10
    ensures IsDigit(LOWER[d]) && DigitOf(LOWER[d]) == d && (d < 8 ==> '0' <= LOWER[d] <= '7') && (d > 0 ==> LOWER[d] != '0')
  {
  }

  /** Printed in base ten, a number is read back. */
  lemma {:induction false} DecimalRead(v: nat)
    ensures AllDigits(Numeral(v, 10)) && Num(Numeral(v, 10)) == v
    ensures v > 0 ==> Numeral(v, 10)[0] != '0'
  {
    var s := Numeral(v, 10);
    hide DigitOf, IsDigit;
    DigitRead(v % 10);
    if v < 10 {
      assert s[..0] == "" && Num("") == 0;
    } else {
      DecimalRead(v / 10);
      assert s[..|s| - 1] == Numeral(v / 10, 10);
    }
  }

  /** And in base eight. */
  lemma {:induction false} OctalRead(v: nat)
    ensures AllDigits(Numeral(v, 8)) && IsOctal(Numeral(v, 8)) && Octal(Numeral(v, 8)) == v
  {
    var s := Numeral(v, 8);
    hide DigitOf, IsDigit;
    DigitRead(v % 8);
    if v < 8 {
      assert s[..0] == "" && Octal("") == 0;
    } else {
      OctalRead(v / 8);
      assert s[..|s| - 1] == Numeral(v / 8, 8);
    }
  }

  lemma {:induction false} OctalConcat(a: string, b: string)
    requires AllDigits(a) && AllDigits(b) && Octal(a) == 0
    ensures AllDigits(a + b) && Octal(a + b) == Octal(b)
    decreases |b|
  {
    if b == [] {
      assert a + b == a;
    } else {
      var n := |b| - 1;
      assert (a + b)[..|a + b| - 1] == a + b[..n];
      OctalConcat(a, b[..n]);
    }
  }

  /** A denominator is decimal, and octal after a zero. */
  lemma DenominatorRead(v: nat)
    ensures v > 0 ==> DenominatorOk(Numeral(v, 10)) && Denominator(Numeral(v, 10)) == Some(v)
    ensures var d := "0" + Numeral(v, 8); AllDigits(d) && Denominator(d) == Some(v)
  {
    hide Num, Octal;
    DecimalRead(v);
    OctalRead(v);
    ZeroIsZero();
    OctalConcat("0", Numeral(v, 8));
  }

  lemma ZeroIsZero()
    ensures AllDigits("0") && Octal("0") == 0 && IsOctal("0")
  {
    assert "0"[..0] == "";
  }

  // ------------------------------------------------------------------
  // Exponents
  // ------------------------------------------------------------------

  function Signed(sign: string, v: nat): int { if sign == "-" then 0 - v else v }

  lemma {:induction false} PrefixOfDigits(d: string, rest: string)
    requires AllDigits(d) && (rest == "" || !IsDigit(rest[0]))
    ensures DigitPrefix(d + rest) == d
  {
    if d == "" {
      assert d + rest == rest;
    } else {
      assert (d + rest)[1..] == d[1..] + rest;
      PrefixOfDigits(d[1..], rest);
    }
  }

  /** An optional sign, zeros, and a printed number, whatever follows. */
  lemma StoiReads(sign: string, zeros: nat, v: nat, rest: string)
    requires IsSign(sign) && (rest == "" || !IsDigit(rest[0]))
    ensures Stoi(sign + Zeros(zeros) + Numeral(v, 10) + rest) ==
            if -0x8000_0000 <= Signed(sign, v) <= 0x7FFF_FFFF then Some(Signed(sign, v)) else None
  {
    hide Num, Zeros, Numeral;
    var d := Zeros(zeros) + Numeral(v, 10);
    DecimalRead(v);
    NumZeros(zeros);
    NumConcat(Zeros(zeros), Numeral(v, 10));
    assert Num(d) == v by { hide Pow10; }
    PrefixOfDigits(d, rest);
    var s := sign + Zeros(zeros) + Numeral(v, 10) + rest;
    assert s == sign + (d + rest);
    assert d[0] in d;
    NoSeparator(d);
    assert (d + rest)[0] == d[0];
    if sign != "" {
      assert s[1..] == d + rest && s[0] == sign[0];
    } else {
      assert s == d + rest;
    }
  }

  /** A text with white space put in anywhere. */
  predicate Spaced(w: string, x: string) {
    if w == "" then x == ""
    else if w[0] in " \t\n\r" || w[0] == 11 as char || w[0] == 12 as char then Spaced(w[1..], x)
    else x != "" && w[0] == x[0] && Spaced(w[1..], x[1..])
  }

  lemma {:induction false} SpacesGo(w: string, x: string)
    requires Spaced(w, x)
    ensures WithoutSpaces(w) == x
  {
    if w != "" {
      if w[0] in " \t\n\r" || w[0] == 11 as char || w[0] == 12 as char {
        SpacesGo(w[1..], x);
      } else {
        SpacesGo(w[1..], x[1..]);
        assert x == [x[0]] + x[1..];
      }
    }
  }

  /** The exponent as written: spaces anywhere, parentheses around it or not. */
  predicate WritesExponent(w: string, sign: string, zeros: nat, v: nat) {
    var x := sign + Zeros(zeros) + Numeral(v, 10);
    Spaced(w, x) || Spaced(w, "(" + x + ")") || Spaced(w, "(" + x)
  }

  lemma ExponentRead(w: string, sign: string, zeros: nat, v: nat)
    requires IsSign(sign) && WritesExponent(w, sign, zeros, v)
    ensures Stoi(CleanExponent(w)) ==
            if -0x8000_0000 <= Signed(sign, v) <= 0x7FFF_FFFF then Some(Signed(sign, v)) else None
  {
    hide Num, Zeros, Numeral, Stoi, Spaced, WithoutSpaces;
    var x := sign + Zeros(zeros) + Numeral(v, 10);
    StoiReads(sign, zeros, v, "");
    assert x + "" == x;
    NoParentheses(sign, zeros, v);
    if Spaced(w, x) {
      SpacesGo(w, x);
      assert x[0] in x;
    } else if Spaced(w, "(" + x + ")") {
      SpacesGo(w, "(" + x + ")");
      IndexOfAbsent("(" + x, ')', ")");
      assert ("(" + x + ")")[1..|x| + 1] == x;
    } else {
      SpacesGo(w, "(" + x);
      IndexOfAbsent("(" + x, ')', "");
      assert "(" + x + "" == "(" + x && ("(" + x)[1..] == x;
    }
  }

  lemma NoParentheses(sign: string, zeros: nat, v: nat)
    requires IsSign(sign)
    ensures var x := sign + Zeros(zeros) + Numeral(v, 10); x != "" && '(' !in x && ')' !in x
  {
    DecimalRead(v);
    NumZeros(zeros);
    hide Numeral, Num;
    var x := sign + Zeros(zeros) + Numeral(v, 10);
    forall c | c in x
      ensures c != '(' && c != ')'
    {
      assert c in sign || c in Zeros(zeros) || c in Numeral(v, 10);
    }
  }

  /** A decimal mantissa and a written exponent denote mantissa times ten to
      the exponent, as long as it fits 32 bits; otherwise the text stays. */
  lemma NotationDenotes(m: string, mark: char, w: string, sign: string, zeros: nat, v: nat)
    requires IsDecimal(m) && (mark == 'e' || mark == 'E') && IsSign(sign) && WritesExponent(w, sign, zeros, v)
    ensures var e, r := Signed(sign, v), ParseScientificNotation(m + [mark] + w);
            if -0x8000_0000 <= e <= 0x7FFF_FFFF then IsDecimal(r) && Same(Value(r), TimesPower(Value(m), e))
            else r == m + [mark] + w
  {
    hide IsDecimal, Value, Same, Stoi, CleanExponent, WritesExponent, IsReal, Rescale;
    var e, s := Signed(sign, v), m + [mark] + w;
    ExponentRead(w, sign, zeros, v);
    if -0x8000_0000 <= e <= 0x7FFF_FFFF {
      NotationKeepsValue(m, mark, w, e);
    } else {
      DecimalIsReal(m);
      assert s == m + ([mark] + w);
      ExponentAfter(m, [mark] + w);
      assert s[|m| + 1..] == w;
    }
  }

  // ------------------------------------------------------------------
  // What is a real
  // ------------------------------------------------------------------

  /** An optional sign, a numerator, a slash and a denominator. */
  ghost predicate IsRational(s: string) {
    exists sign, n, d ::
      IsSign(sign) && AllDigits(n) && n != "" && DenominatorOk(d) && s == sign + n + "/" + d
  }

  /** The parser's test accepts exactly the decimals and the rationals. */
  lemma RealExact(s: string)
    ensures IsReal(s) <==> IsDecimal(s) || IsRational(s)
  {
    hide IsReal, IsDecimal, DenominatorOk;
    if IsDecimal(s) {
      DecimalIsReal(s);
    }
    if IsRational(s) {
      var sign, n, d :| IsSign(sign) && AllDigits(n) && n != "" && DenominatorOk(d) && s == sign + n + "/" + d;
      RationalIsReal(sign, n, d);
    }
    if IsReal(s) {
      if '/' in StripSign(s) {
        SlashIsRational(s);
      } else {
        PointIsDecimal(s);
      }
    }
  }

  function SignOf(s: string): (sign: string)
    ensures IsSign(sign) && s == sign + StripSign(s)
  {
    if s != "" && (s[0] == '-' || s[0] == '+') then s[..1] else ""
  }

  lemma SlashIsRational(s: string)
    requires IsReal(s) && '/' in StripSign(s)
    ensures IsRational(s)
  {
    hide DenominatorOk, DigitsAndSeparator, IndexOf, StripSign;
    var k := IndexOf(s, '/');
    SlashInside(s);
    UnsignedAfterSlash(s, k);
    Assembled(s, k);
  }

  lemma Assembled(s: string, k: nat)
    requires k < |s| && s[k] == '/' && IsInt(s[..k]) && DenominatorOk(s[k + 1..])
    ensures IsRational(s)
  {
    hide DenominatorOk, StripSign, IsSign;
    var sign, n, d := SignOf(s[..k]), StripSign(s[..k]), s[k + 1..];
    assert s == s[..k] + "/" + d;
    assert s == sign + n + "/" + d;
  }

  lemma SlashInside(s: string)
    requires '/' in StripSign(s)
    ensures IndexOf(s, '/') < |s|
  {
    var i :| 0 <= i < |StripSign(s)| && StripSign(s)[i] == '/';
    assert '/' in s by { assert s[|s| - |StripSign(s)| + i] == '/'; }
    assert s[..|s|] == s;
  }

  /** No second sign: only the first character may be one. */
  lemma UnsignedAfterSlash(s: string, k: nat)
    requires DigitsAndSeparator(StripSign(s)) && k < |s| && s[k] == '/'
    ensures StripSign(s[k + 1..]) == s[k + 1..]
  {
    var body := StripSign(s);
    if k + 1 < |s| {
      assert s[k + 1] == body[k + 1 - (|s| - |body|)];
    }
  }

  lemma PointIsDecimal(s: string)
    requires IsReal(s) && '/' !in StripSign(s)
    ensures IsDecimal(s)
  {
    var body, p := StripSign(s), Split(s);
    var dot := IndexOf(body, '.');
    assert forall i | 0 <= i < |body| :: IsDigit(body[i]) || body[i] == '.';
    forall i | 0 <= i < |p.whole|
      ensures IsDigit(p.whole[i])
    {
      assert p.whole[i] == body[i] && body[i] in body[..dot];
    }
    if dot < |body| {
      forall i | 0 <= i < |p.frac|
        ensures IsDigit(p.frac[i])
      {
        assert p.frac[i] == body[dot + 1 + i];
      }
    }
    var i :| 0 <= i < |body| && IsDigit(body[i]);
    assert i < dot ==> p.whole[i] == body[i];
    assert i > dot ==> p.frac[i - dot - 1] == body[i];
  }
}
