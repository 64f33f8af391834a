// String literals: the escaper and the unescaper, on bytes.
module StringLiterals {
  import opened Numerals

  type Byte = b: int | 0 <= b < 256

  const QUOTE: Byte := 34
  const BACKSLASH: Byte := 92
  const LOWER_U: Byte := 117
  const OPEN_BRACE: Byte := 123
  const CLOSE_BRACE: Byte := 125

  /** A lower-case hexadecimal digit. */
  function HexDigit(d: int): Byte
    requires 0 <= d < 16
  {
    if d < 10 then 48 + d else 87 + d
  }

  /** Numerals without leading zeros, as a stream prints it. */
  function Hex(v: nat): seq<Byte>
  {
    if v < 16 then [HexDigit(v)] else Hex(v / 16) + [HexDigit(v % 16)]
  }

  predicate IsHex(c: Byte) { 48 <= c <= 57 || 97 <= c <= 102 || 65 <= c <= 70 }

  function DigitValue(c: Byte): (v: int)
    requires IsHex(c)
    ensures 0 <= v < 16
  {
    if c <= 57 then c - 48 else if c >= 97 then c - 87 else c - 55
  }

  predicate AllHex(s: seq<Byte>) { forall i | 0 <= i < |s| :: IsHex(s[i]) }

  /** Numerals number reading. */
  function HexValue(s: seq<Byte>): nat
    requires AllHex(s)
  {
    if s == [] then 0 else 16 * HexValue(s[..|s| - 1]) + DigitValue(s[|s| - 1])
  }

  /** \u{...} around a number. */
  function Braced(v: nat): seq<Byte> { [BACKSLASH, LOWER_U, OPEN_BRACE] + Hex(v) + [CLOSE_BRACE] }

  function EscapeByte(c: Byte): seq<Byte> {
    if c == QUOTE then [QUOTE, QUOTE]
    else if c == BACKSLASH then [BACKSLASH, LOWER_U, OPEN_BRACE, 53, 99, CLOSE_BRACE]
    else if c >= 32 then [c]
    else Braced(c)
  }

  function Escape(s: seq<Byte>): seq<Byte> {
    if s == [] then [] else EscapeByte(s[0]) + Escape(s[1..])
  }

  /** UTF-8. */
  function Utf8(cp: nat): seq<Byte>
    requires cp < 0x10_0000
  {
    if cp <= 0x7F then [cp]
    else if cp <= 0x7FF then [0xC0 + cp / 64, 0x80 + cp % 64]
    else if cp <= 0xFFFF then [0xE0 + cp / 4096, 0x80 + (cp / 64) % 64, 0x80 + cp % 64]
    else [0xF0 + cp / 262144, 0x80 + (cp / 4096) % 64, 0x80 + (cp / 64) % 64, 0x80 + cp % 64]
  }

  /** First closing brace at `from` or later, or the length. */
  function FindClose(s: seq<Byte>, from: nat): (k: nat)
    ensures from <= |s| ==> from <= k <= |s|
    ensures k < |s| ==> s[k] == CLOSE_BRACE
    decreases |s| - from
  {
    if from >= |s| then |s| else if s[from] == CLOSE_BRACE then from else FindClose(s, from + 1)
  }

  /** Whether \u{H+} with one to five digits starts here. */
  predicate BracedEscape(s: seq<Byte>) {
    && |s| > 2 && s[0] == BACKSLASH && s[1] == LOWER_U && s[2] == OPEN_BRACE
    && var close := FindClose(s, 3);
       close < |s| && close > 3 && close - 3 <= 5 && AllHex(s[3..close])
  }

  /** Whether \uHHHH starts here. */
  predicate PlainEscape(s: seq<Byte>) {
    |s| > 5 && s[0] == BACKSLASH && s[1] == LOWER_U && s[2] != OPEN_BRACE && AllHex(s[2..6])
  }

  lemma {:induction false} HexBound(s: seq<Byte>, n: nat)
    requires AllHex(s) && |s| <= n
    ensures HexValue(s) < Pow16(n)
  {
    if s != [] {
      HexBound(s[..|s| - 1], n - 1);
    }
  }

  function CodePoint(digits: seq<Byte>): (cp: nat)
    requires AllHex(digits) && |digits| <= 5
    ensures cp < 0x10_0000
  {
    HexBound(digits, 5);
    assert Pow16(5) == 0x10_0000;
    HexValue(digits)
  }

  function Unescape(s: seq<Byte>): seq<Byte>
    decreases |s|
  {
    if s == [] then []
    else if s[0] == QUOTE && |s| > 1 && s[1] == QUOTE then [QUOTE] + Unescape(s[2..])
    else if BracedEscape(s) then
      var close := FindClose(s, 3);
      Utf8(CodePoint(s[3..close])) + Unescape(s[close + 1..])
    else if PlainEscape(s) then Utf8(CodePoint(s[2..6])) + Unescape(s[6..])
    else [s[0]] + Unescape(s[1..])
  }

  // ------------------------------------------------------------------
  // Round trip
  // ------------------------------------------------------------------

  /** Small numbers are read back from their braces. */
  lemma BracedReadsBack(v: nat, rest: seq<Byte>)
    requires v < 128
    ensures Unescape(Braced(v) + rest) == [v] + Unescape(rest)
  {
    var s := Braced(v) + rest;
    SmallHex(v);
    var h := |Hex(v)|;
    assert s[3..3 + h] == Hex(v);
    assert s[3 + h] == CLOSE_BRACE;
    assert forall i | 3 <= i < 3 + h :: s[i] == Hex(v)[i - 3];
    CloseAfter(s, 3, 3 + h);
    assert s[3 + h + 1..] == rest;
  }

  lemma SmallHex(v: nat)
    requires v < 128
    ensures 1 <= |Hex(v)| <= 2 && AllHex(Hex(v)) && HexValue(Hex(v)) == v
  {
    if v < 16 {
      assert Hex(v)[..0] == [];
    } else {
      assert Hex(v) == [HexDigit(v / 16), HexDigit(v % 16)];
      assert Hex(v)[..1] == [HexDigit(v / 16)];
      assert HexValue([HexDigit(v / 16)]) == 16 * HexValue([]) + v / 16;
    }
  }

  lemma {:induction false} CloseAfter(s: seq<Byte>, from: nat, to: nat)
    requires from <= to < |s| && s[to] == CLOSE_BRACE
    requires forall i | from <= i < to :: s[i] != CLOSE_BRACE
    ensures FindClose(s, from) == to
    decreases |s| - from
  {
    if from < to {
      CloseAfter(s, from + 1, to);
    }
  }

  /** One escaped byte is read back, whatever follows. */
  lemma ByteReadsBack(c: Byte, rest: seq<Byte>)
    ensures Unescape(EscapeByte(c) + rest) == [c] + Unescape(rest)
  {
    var s := EscapeByte(c) + rest;
    if c == QUOTE {
      assert s[2..] == rest;
    } else if c == BACKSLASH {
      assert HexDigit(5) == 53 && HexDigit(12) == 99;
      assert Hex(92) == Hex(5) + [HexDigit(12)] == [53, 99];
      assert EscapeByte(c) == Braced(92);
      BracedReadsBack(92, rest);
    } else if c >= 32 {
      assert s[1..] == rest;
    } else {
      BracedReadsBack(c, rest);
    }
  }

  /** Unescaping undoes escaping, for every byte string. */
  lemma {:induction false} RoundTrip(s: seq<Byte>)
    ensures Unescape(Escape(s)) == s
  {
    hide Unescape, EscapeByte;
    if s != [] {
      RoundTrip(s[1..]);
      ByteReadsBack(s[0], Escape(s[1..]));
    } else {
      NothingToRead();
    }
  }

  lemma NothingToRead()
    ensures Unescape([]) == []
  {
  }

  /** Different strings have different literals. */
  lemma EscapeInjective(a: seq<Byte>, b: seq<Byte>)
    requires Escape(a) == Escape(b)
    ensures a == b
  {
    RoundTrip(a);
    RoundTrip(b);
  }

  /** Every quote stands next to its double. */
  predicate QuotesDoubled(s: seq<Byte>)
    decreases |s|
  {
    if s == [] then true
    else if s[0] == QUOTE then |s| > 1 && s[1] == QUOTE && QuotesDoubled(s[2..])
    else QuotesDoubled(s[1..])
  }

  lemma {:induction false} NoQuotes(a: seq<Byte>, b: seq<Byte>)
    requires QuotesDoubled(b) && forall i | 0 <= i < |a| :: a[i] != QUOTE
    ensures QuotesDoubled(a + b)
  {
    if a == [] {
      assert a + b == b;
    } else {
      NoQuotes(a[1..], b);
      assert (a + b)[1..] == a[1..] + b;
    }
  }

  /** What the escaper writes can stand between quotes: no control bytes and no
      quote that would end the literal. */
  lemma {:induction false} EscapedIsLiteral(s: seq<Byte>)
    ensures QuotesDoubled(Escape(s)) && forall i | 0 <= i < |Escape(s)| :: Escape(s)[i] >= 32
  {
    hide EscapeByte;
    if s != [] {
      EscapedIsLiteral(s[1..]);
      EscapedByte(s[0]);
      QuoteEscaped();
      var c, rest := s[0], Escape(s[1..]);
      if c == QUOTE {
        assert ([QUOTE, QUOTE] + rest)[2..] == rest;
      } else {
        NoQuotes(EscapeByte(c), rest);
      }
    }
  }

  lemma QuoteEscaped()
    ensures EscapeByte(QUOTE) == [QUOTE, QUOTE]
  {
  }

  lemma EscapedByte(c: Byte)
    ensures forall i | 0 <= i < |EscapeByte(c)| :: EscapeByte(c)[i] >= 32 && (c != QUOTE ==> EscapeByte(c)[i] != QUOTE)
  {
    if c < 32 {
      SmallHex(c);
    }
  }

  // ------------------------------------------------------------------
  // What escapes stand for
  // ------------------------------------------------------------------

  function Ascii(s: string): (bs: seq<Byte>)
    requires forall i | 0 <= i < |s| :: s[i] < 128 as char
    ensures |bs| == |s|
  {
    seq(|s|, i requires 0 <= i < |s| => s[i] as int)
  }

  /** A printed number, as bytes. */
  function HexBytes(v: nat, upper: seq<bool>): (bs: seq<Byte>)
    ensures |bs| == |upper|
  {
    PrintedAscii(v, upper);
    Ascii(Printed(v, upper))
  }

  lemma {:induction false} PrintedAscii(v: nat, upper: seq<bool>)
    ensures forall i | 0 <= i < |Printed(v, upper)| :: Printed(v, upper)[i] < 128 as char
  {
    if upper != [] {
      PrintedAscii(v / 16, upper[..|upper| - 1]);
      DigitRead(v % 16, upper[|upper| - 1]);
    }
  }

  lemma LastHexByte(v: nat, upper: seq<bool>)
    requires upper != []
    ensures var n := |upper| - 1;
            && HexBytes(v, upper)[..n] == HexBytes(v / 16, upper[..n])
            && HexBytes(v, upper)[n] == DigitChar(v % 16, upper[n]) as int
  {
  }

  lemma DigitRead(d: nat, upper: bool)
    requires d < 16
    ensures var c := DigitChar(d, upper) as int;
            c < 128 && IsHex(c) && DigitValue(c) == d && (!upper ==> c == HexDigit(d))
  {
  }

  /** Printed digits are read back. */
  lemma {:induction false} PrintedRead(v: nat, upper: seq<bool>)
    requires v < Pow16(|upper|)
    ensures AllHex(HexBytes(v, upper)) && HexValue(HexBytes(v, upper)) == v
  {
    if upper != [] {
      hide HexBytes, DigitValue, IsHex, DigitChar;
      var n := |upper| - 1;
      LastHexByte(v, upper);
      PrintedRead(v / 16, upper[..n]);
      DigitRead(v % 16, upper[n]);
    }
  }

  lemma HexIsNoBrace(c: Byte)
    requires IsHex(c)
    ensures c != OPEN_BRACE && c != CLOSE_BRACE
  {
  }

  /** \u{...} with one to five digits. */
  function BracedForm(v: nat, upper: seq<bool>): seq<Byte> {
    [BACKSLASH, LOWER_U, OPEN_BRACE] + HexBytes(v, upper) + [CLOSE_BRACE]
  }

  /** \uHHHH. */
  function PlainForm(v: nat, upper: seq<bool>): seq<Byte> { [BACKSLASH, LOWER_U] + HexBytes(v, upper) }

  /** A number between braces stands for its encoding, in either case. */
  lemma BracedUnescapes(v: nat, upper: seq<bool>, rest: seq<Byte>)
    requires 1 <= |upper| <= 5 && v < Pow16(|upper|)
    ensures v < 0x10_0000 && Unescape(BracedForm(v, upper) + rest) == Utf8(v) + Unescape(rest)
  {
    hide IsHex, DigitValue, HexBytes, HexValue, Utf8;
    var s, h := BracedForm(v, upper) + rest, HexBytes(v, upper);
    PrintedRead(v, upper);
    FiveDigits(v, |upper|);
    assert s[3..3 + |h|] == h && s[3 + |h|] == CLOSE_BRACE;
    forall i | 3 <= i < 3 + |h|
      ensures s[i] != CLOSE_BRACE
    {
      assert s[i] == h[i - 3];
      HexIsNoBrace(h[i - 3]);
    }
    CloseAfter(s, 3, 3 + |h|);
    assert s[3 + |h| + 1..] == rest;
  }

  lemma FiveDigits(v: nat, n: nat)
    requires n <= 5 && v < Pow16(n)
    ensures v < 0x10_0000
  {
    assert Pow16(5) == 0x10_0000 && Pow16(4) == 0x1_0000 && Pow16(3) == 0x1000 && Pow16(2) == 0x100 && Pow16(1) == 16;
  }

  /** So do four digits without braces. */
  lemma PlainUnescapes(v: nat, upper: seq<bool>, rest: seq<Byte>)
    requires |upper| == 4 && v < Pow16(4)
    ensures v < 0x10_0000 && Unescape(PlainForm(v, upper) + rest) == Utf8(v) + Unescape(rest)
  {
    hide IsHex, DigitValue, HexBytes, HexValue, Utf8;
    var s, h := PlainForm(v, upper) + rest, HexBytes(v, upper);
    PrintedRead(v, upper);
    FiveDigits(v, 4);
    assert s[2..6] == h && s[2] == h[0];
    HexIsNoBrace(h[0]);
    assert s[6..] == rest;
  }

  /** An escape of either form at the start of a string. */
  ghost predicate StartsEscape(s: seq<Byte>) {
    || (exists v: nat, upper: seq<bool> ::
          1 <= |upper| <= 5 && v < Pow16(|upper|) && BracedForm(v, upper) <= s)
    || (exists v: nat, upper: seq<bool> ::
          |upper| == 4 && v < Pow16(4) && PlainForm(v, upper) <= s)
  }

  lemma BracedIsEscape(s: seq<Byte>)
    requires BracedEscape(s)
    ensures StartsEscape(s)
  {
    hide IsHex, DigitValue, HexBytes, HexValue, Pow16;
    var close := FindClose(s, 3);
    var v, upper := AsPrinted(s[3..close]);
    assert BracedForm(v, upper) == s[..close + 1];
  }

  lemma PlainIsEscape(s: seq<Byte>)
    requires PlainEscape(s)
    ensures StartsEscape(s)
  {
    hide IsHex, DigitValue, HexBytes, HexValue, Pow16, BracedForm;
    var v, upper := AsPrinted(s[2..6]);
    assert PlainForm(v, upper) == s[..6];
  }

  /** Everything else stays as it is: other backslashes, single quotes. */
  lemma OthersStay(s: seq<Byte>)
    requires s != [] && !StartsEscape(s) && !([QUOTE, QUOTE] <= s)
    ensures Unescape(s) == [s[0]] + Unescape(s[1..])
  {
    hide StartsEscape, BracedEscape, PlainEscape;
    if BracedEscape(s) {
      BracedIsEscape(s);
    } else if PlainEscape(s) {
      PlainIsEscape(s);
    } else if |s| > 1 {
      assert s[..2] == [s[0], s[1]];
    }
  }

  predicate IsUpper(c: Byte) { 65 <= c <= 70 }

  /** Every string of hexadecimal digits is some printed number. */
  lemma {:induction false} AsPrinted(ds: seq<Byte>) returns (v: nat, upper: seq<bool>)
    requires AllHex(ds)
    ensures |upper| == |ds| && v < Pow16(|ds|) && HexBytes(v, upper) == ds
  {
    if ds == [] {
      v, upper := 0, [];
    } else {
      hide IsHex, DigitValue, HexBytes, IsUpper, DigitChar;
      var n := |ds| - 1;
      var rest, front := AsPrinted(ds[..n]);
      var d: nat := DigitValue(ds[n]);
      OneMoreDigit(rest, d, front, IsUpper(ds[n]));
      DigitPrinted(ds[n]);
      v, upper := 16 * rest + d, front + [IsUpper(ds[n])];
      assert ds == ds[..n] + [ds[n]];
    }
  }

  lemma OneMoreDigit(v: nat, d: nat, upper: seq<bool>, u: bool)
    requires d < 16 && v < Pow16(|upper|)
    ensures 16 * v + d < Pow16(|upper| + 1)
    ensures HexBytes(16 * v + d, upper + [u]) == HexBytes(v, upper) + [DigitChar(d, u) as int]
  {
    hide HexBytes, DigitChar;
    var w, all := 16 * v + d, upper + [u];
    LastDigit(v, d);
    LastHexByte(w, all);
    assert all[..|upper|] == upper;
    var hs := HexBytes(w, all);
    assert hs == hs[..|upper|] + [hs[|upper|]];
  }

  lemma LastDigit(v: nat, d: nat)
    requires d < 16
    ensures (16 * v + d) / 16 == v && (16 * v + d) % 16 == d
  {
  }

  lemma DigitPrinted(c: Byte)
    requires IsHex(c)
    ensures DigitChar(DigitValue(c), IsUpper(c)) as int == c
  {
  }

  // ------------------------------------------------------------------
  // How strings are escaped
  // ------------------------------------------------------------------

  /** Bytes that need no escape. */
  predicate IsPlain(c: Byte) { c >= 32 && c != QUOTE && c != BACKSLASH }

  /** A control byte becomes its number in lower case without leading zeros, a
      backslash that of a backslash, a quote two. */
  lemma EscapeForms(c: Byte)
    ensures Escape([c]) ==
            if c == QUOTE then [QUOTE, QUOTE]
            else if IsPlain(c) then [c]
            else BracedForm(c, if c < 16 then [false] else [false, false])
  {
    hide Hex, HexBytes;
    assert Escape([c]) == EscapeByte(c) + Escape([c][1..]);
    HexPrinted(c);
    if c == BACKSLASH {
      HexPrinted(5);
      HexPrinted(92);
      Hex92();
    }
  }

  lemma Hex92()
    ensures Hex(92) == [53, 99]
  {
    assert HexDigit(5) == 53 && HexDigit(12) == 99;
    assert Hex(92) == Hex(5) + [HexDigit(12)];
  }

  /** A stream prints a byte in lower case without leading zeros. */
  lemma HexPrinted(c: Byte)
    ensures Hex(c) == HexBytes(c, if c < 16 then [false] else [false, false])
  {
    hide HexBytes, HexDigit, DigitChar;
    if c < 16 {
      LastHexByte(c, [false]);
      DigitRead(c, false);
    } else {
      LastHexByte(c, [false, false]);
      LastHexByte(c / 16, [false]);
      assert [false, false][..1] == [false];
      DigitRead(c / 16, false);
      DigitRead(c % 16, false);
      assert Hex(c) == Hex(c / 16) + [HexDigit(c % 16)];
    }
  }

  /** Nothing is escaped that need not be. */
  lemma {:induction false} PlainUnescaped(s: seq<Byte>)
    ensures Escape(s) == s <==> forall i | 0 <= i < |s| :: IsPlain(s[i])
    ensures |Escape(s)| >= |s|
  {
    if s != [] {
      PlainUnescaped(s[1..]);
      assert s == [s[0]] + s[1..];
      EscapedLength(s[0]);
      if Escape(s) == s {
        assert |EscapeByte(s[0])| == 1;
        assert EscapeByte(s[0]) == [s[0]];
        assert Escape(s)[1..] == Escape(s[1..]);
        forall i | 0 <= i < |s|
          ensures IsPlain(s[i])
        {
          assert i > 0 ==> s[i] == s[1..][i - 1];
        }
      } else if forall i | 0 <= i < |s| :: IsPlain(s[i]) {
        forall i | 0 <= i < |s[1..]|
          ensures IsPlain(s[1..][i])
        {
          assert s[1..][i] == s[i + 1];
        }
      }
    }
  }

  lemma EscapedLength(c: Byte)
    ensures if IsPlain(c) then EscapeByte(c) == [c] else |EscapeByte(c)| > 1
  {
  }

  // ------------------------------------------------------------------
  // The loops
  // ------------------------------------------------------------------

  method EscapeString(s: seq<Byte>) returns (result: seq<Byte>)
    ensures result == Escape(s)
  {
    hide Hex, EscapeByte, Braced;
    result := [];
    for i := 0 to |s|
      invariant Escape(s) == result + Escape(s[i..])
    {
      var c := s[i];
      ghost var before := result;
      assert s[i..][1..] == s[i + 1..];
      ByteCases(c);
      if c == QUOTE {
        result := result + [QUOTE, QUOTE];
      } else if c == BACKSLASH {
        result := result + [BACKSLASH, LOWER_U, OPEN_BRACE, 53, 99, CLOSE_BRACE];
      } else if c >= 32 {
        result := result + [c];
      } else {
        result := result + Braced(c);
      }
      assert result == before + EscapeByte(c);
    }
  }

  lemma ByteCases(c: Byte)
    ensures EscapeByte(c) ==
            if c == QUOTE then [QUOTE, QUOTE]
            else if c == BACKSLASH then [BACKSLASH, LOWER_U, OPEN_BRACE, 53, 99, CLOSE_BRACE]
            else if c >= 32 then [c]
            else Braced(c)
  {
  }

  method UnescapeString(s: seq<Byte>) returns (result: seq<Byte>)
    ensures result == Unescape(s)
  {
    hide AllHex, Utf8, CodePoint;
    result := [];
    var i := 0;
    while i < |s|
      invariant i <= |s|
      invariant Unescape(s) == result + Unescape(s[i..])
    {
      ghost var rest := s[i..];
      var piece, next := Piece(s, i);
      assert s[next..] == rest[next - i..];
      result := result + piece;
      i := next;
    }
  }

  /** One round of the loop: the bytes to append and the next position. */
  method Piece(s: seq<Byte>, i: nat) returns (piece: seq<Byte>, next: nat)
    requires i < |s|
    ensures i < next <= |s|
    ensures Unescape(s[i..]) == piece + Unescape(s[i..][next - i..])
  {
    hide AllHex, Utf8, CodePoint;
    ghost var rest := s[i..];
    if s[i] == QUOTE && i + 1 < |s| && s[i + 1] == QUOTE {
      return [QUOTE], i + 2;
    }
    if s[i] == BACKSLASH && i + 1 < |s| && s[i + 1] == LOWER_U {
      if i + 2 < |s| && s[i + 2] == OPEN_BRACE {
        var close := FindClose(s, i + 3);
        FindShifted(s, i, 3);
        if close < |s| && close > i + 3 && close - (i + 3) <= 5 {
          var digits := s[i + 3..close];
          assert rest[3..close - i] == digits;
          if AllHex(digits) {
            return Utf8(CodePoint(digits)), close + 1;
          }
        }
      } else if i + 5 < |s| && AllHex(s[i + 2..i + 6]) {
        assert rest[2..6] == s[i + 2..i + 6];
        return Utf8(CodePoint(s[i + 2..i + 6])), i + 6;
      }
    }
    assert i + 5 < |s| ==> rest[2..6] == s[i + 2..i + 6];
    return [s[i]], i + 1;
  }

  /** Searching in a suffix. */
  lemma {:induction false} FindShifted(s: seq<Byte>, i: nat, from: nat)
    requires i + from <= |s|
    ensures FindClose(s, i + from) == i + FindClose(s[i..], from)
    decreases |s| - from
  {
    if i + from < |s| && s[i + from] != CLOSE_BRACE {
      FindShifted(s, i, from + 1);
    }
  }
}
