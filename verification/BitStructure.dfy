// Shifts, extraction, concatenation and extension: straight cuts and joins of
// the digit string.
module BitStructure {
  import opened BitStrings
  import opened BitVectors
  import opened Numerals
  import opened Options

  function Fill(n: nat, c: char): string { seq(n, i => c) }

  function BvToNat(bv: string): nat
    requires IsBv(bv)
  {
    Nat(Digits(bv))
  }

  /** A bit-vector literal, binary or hexadecimal. */
  predicate IsLiteral(s: string) { IsBv(s) || IsHexBv(s) }

  predicate IsHexBv(s: string) { |s| >= 2 && s[0] == '#' && s[1] == 'x' }

  /** Characters that are no hexadecimal digits count as zero. */
  function HexValue(c: char): (d: nat)
    ensures d < 16
  {
    if '0' <= c <= '9' then c as int - '0' as int
    else if 'a' <= c <= 'f' then c as int - 'a' as int + 10
    else if 'A' <= c <= 'F' then c as int - 'A' as int + 10
    else 0
  }

  function Nibble(d: nat): string { [Digit(d / 8), Digit(d / 4), Digit(d / 2), Digit(d)] }

  function HexBits(hs: string): string {
    if hs == "" then "" else HexBits(hs[..|hs| - 1]) + Nibble(HexValue(hs[|hs| - 1]))
  }

  /** Four binary digits for each hexadecimal one. */
  function NormBvBin(s: string): string
    requires IsLiteral(s)
  {
    if IsBv(s) then s else Literal(HexBits(s[2..]))
  }

  /** What a literal denotes: its width and its unsigned value. */
  function Width(s: string): nat
    requires IsLiteral(s)
  {
    if IsBv(s) then |s| - 2 else 4 * (|s| - 2)
  }

  function HexNat(hs: string): nat {
    if hs == "" then 0 else 16 * HexNat(hs[..|hs| - 1]) + HexValue(hs[|hs| - 1])
  }

  function Unsigned(s: string): nat
    requires IsLiteral(s)
  {
    if IsBv(s) then Nat(s[2..]) else HexNat(s[2..])
  }

  /** And its value in two's complement. */
  function TwosComplement(s: string): int
    requires IsLiteral(s)
  {
    if 2 * Unsigned(s) >= Pow2(Width(s)) then Unsigned(s) - Pow2(Width(s)) else Unsigned(s)
  }

  lemma NibbleMeans(d: nat)
    requires d < 16
    ensures IsBits(Nibble(d)) && |Nibble(d)| == 4 && Nat(Nibble(d)) == d
  {
    var ds := Nibble(d);
    assert ds[..3][..2][..1] == [ds[0]] && ds[..3][..2] == [ds[0], ds[1]] && ds[..3] == [ds[0], ds[1], ds[2]];
    assert Nat([ds[0]]) == Bit(ds[0]);
    assert Nat([ds[0], ds[1]]) == 2 * Bit(ds[0]) + Bit(ds[1]);
    assert Nat(ds[..3]) == 2 * Nat([ds[0], ds[1]]) + Bit(ds[2]);
  }

  lemma {:induction false} HexBitsMean(hs: string)
    ensures IsBits(HexBits(hs)) && |HexBits(hs)| == 4 * |hs| && Nat(HexBits(hs)) == HexNat(hs)
  {
    if hs != "" {
      hide Nat, Nibble, HexValue;
      var rest, d := HexBits(hs[..|hs| - 1]), HexValue(hs[|hs| - 1]);
      HexBitsMean(hs[..|hs| - 1]);
      NibbleMeans(d);
      JoinIsBits(rest, Nibble(d));
      NatConcat(rest, Nibble(d));
      assert Pow2(4) == 16;
    }
  }

  /** Printed in base two, a number is the value of its digits. */
  lemma {:induction false} BinaryRead(v: nat)
    ensures IsBits(Numeral(v, 2)) && Nat(Numeral(v, 2)) == v
  {
    var s := Numeral(v, 2);
    if v < 2 {
      assert s[..0] == "" && Nat("") == 0;
    } else {
      BinaryRead(v / 2);
      assert s[..|s| - 1] == Numeral(v / 2, 2);
    }
  }

  lemma DigitRead(d: nat, upper: bool)
    requires d < 16
    ensures HexValue(DigitChar(d, upper)) == d
  {
  }

  lemma {:induction false} PrintedRead(v: nat, upper: seq<bool>)
    requires v < Pow2(4 * |upper|)
    ensures HexNat(Printed(v, upper)) == v
  {
    if upper != [] {
      hide HexValue, DigitChar;
      var n := |upper| - 1;
      Pow2Add(4 * n, 4);
      assert Pow2(4) == 16;
      PrintedRead(v / 16, upper[..n]);
      DigitRead(v % 16, upper[n]);
    }
  }

  /** A number printed in hexadecimal, in either case, is the operand that the
      operations see: its width, its value, and its binary digits. */
  lemma PrintedDenotes(v: nat, upper: seq<bool>)
    requires v < Pow2(4 * |upper|)
    ensures var s := "#x" + Printed(v, upper);
            && IsLiteral(s) && Width(s) == 4 * |upper| && Unsigned(s) == v
            && NormBvBin(s) == Literal(ToBits(v, 4 * |upper|))
  {
    hide HexNat, HexBits, Nat, ToBits;
    var hs := Printed(v, upper);
    var s := "#x" + hs;
    assert s[2..] == hs;
    PrintedRead(v, upper);
    HexBitsMean(hs);
    ToBitsOfNat(HexBits(hs));
  }

  /** The binary form denotes the same. */
  lemma NormBvBinMeans(s: string)
    requires IsLiteral(s)
    ensures var b := NormBvBin(s);
            && IsBv(b) && |b| == Width(s) + 2 && BvToNat(b) == Unsigned(s) < Pow2(Width(s))
            && (Width(s) > 0 ==> Signed(Digits(b)) == TwosComplement(s))
  {
    hide Nat, HexNat, HexBits;
    if !IsBv(s) {
      HexBitsMean(s[2..]);
    }
    var ds := Digits(NormBvBin(s));
    NatBound(ds);
    if ds != "" {
      TopBit(ds);
      assert Pow2(|ds|) == 2 * Pow2(|ds| - 1);
    }
  }

  /** The shift amount as an unsigned long; larger values raise an overflow
      error. */
  predicate FitsLong(v: nat) { v < WORD }

  function ShlBits(ds: string, shift: nat): string {
    if shift >= |ds| then Fill(|ds|, '0') else ds[shift..] + Fill(shift, '0')
  }

  function LshrBits(ds: string, shift: nat): string {
    if shift >= |ds| then Fill(|ds|, '0') else Fill(shift, '0') + ds[..|ds| - shift]
  }

  function AshrBits(ds: string, shift: nat): string
    requires ds != ""
  {
    if shift >= |ds| then Fill(|ds|, ds[0]) else Fill(shift, ds[0]) + ds[..|ds| - shift]
  }

  function BvShl(bv: string, n: string): Option<string>
    requires IsLiteral(bv) && IsLiteral(n)
  {
    NormBvBinMeans(bv);
    NormBvBinMeans(n);
    var ds, shift := Digits(NormBvBin(bv)), BvToNat(NormBvBin(n));
    if FitsLong(shift) then Some(Literal(ShlBits(ds, shift))) else None
  }

  function BvLshr(bv: string, n: string): Option<string>
    requires IsLiteral(bv) && IsLiteral(n)
  {
    NormBvBinMeans(bv);
    NormBvBinMeans(n);
    var ds, shift := Digits(NormBvBin(bv)), BvToNat(NormBvBin(n));
    if FitsLong(shift) then Some(Literal(LshrBits(ds, shift))) else None
  }

  function BvAshr(bv: string, n: string): Option<string>
    requires IsLiteral(bv) && IsLiteral(n) && |bv| > 2
  {
    NormBvBinMeans(bv);
    NormBvBinMeans(n);
    var ds, shift := Digits(NormBvBin(bv)), BvToNat(NormBvBin(n));
    if FitsLong(shift) then Some(Literal(AshrBits(ds, shift))) else None
  }

  function BvConcat(a: string, b: string): string
    requires IsBv(a) && IsBv(b)
  {
    Literal(Digits(a) + Digits(b))
  }

  /** Bits i down to j, of a literal wide enough to have them. */
  function BvExtract(bv: string, i: nat, j: nat): string
    requires IsBv(bv) && j <= i < |bv| - 2
  {
    var start := |bv| - 2 - 1 - i;
    Literal(Digits(bv)[start..start + (i - j + 1)])
  }

  function BvZeroExtend(bv: string, n: nat): string
    requires IsBv(bv)
  {
    Literal(Fill(n, '0') + Digits(bv))
  }

  function BvSignExtend(bv: string, n: nat): string
    requires IsBv(bv) && |bv| > 2
  {
    Literal(Fill(n, bv[2]) + Digits(bv))
  }

  // ------------------------------------------------------------------
  // What they mean
  // ------------------------------------------------------------------

  lemma FillIsBits(n: nat, c: char)
    requires c == '0' || c == '1'
    ensures IsBits(Fill(n, c)) && Nat(Fill(n, c)) == if c == '0' then 0 else Pow2(n) - 1
  {
    if c == '0' {
      assert Fill(n, c) == seq(n, i => '0');
      NatZeros(n);
    } else {
      assert Fill(n, c) == seq(n, i => '1');
      NatOnes(n);
    }
  }

  lemma JoinIsBits(a: string, b: string)
    requires IsBits(a) && IsBits(b)
    ensures IsBits(a + b)
  {
  }

  /** A string cut in two. */
  lemma Cut(ds: string, k: nat)
    requires IsBits(ds) && k <= |ds|
    ensures IsBits(ds[..k]) && IsBits(ds[k..])
    ensures Nat(ds) == Nat(ds[..k]) * Pow2(|ds| - k) + Nat(ds[k..])
    ensures Nat(ds[k..]) < Pow2(|ds| - k) && Nat(ds[..k]) < Pow2(k)
  {
    assert ds == ds[..k] + ds[k..];
    NatConcat(ds[..k], ds[k..]);
    NatBound(ds[k..]);
    NatBound(ds[..k]);
  }

  lemma ShlBitsMean(ds: string, k: nat)
    requires IsBits(ds)
    ensures var r := ShlBits(ds, k); IsBits(r) && |r| == |ds| && Nat(r) == (Nat(ds) * Pow2(k)) % Pow2(|ds|)
  {
    hide Nat, Pow2;
    var w := |ds|;
    if k >= w {
      FillIsBits(w, '0');
      Pow2Add(w, k - w);
      MultipleIsZero(Nat(ds), Pow2(w), Pow2(k - w));
    } else {
      var hi, lo := ds[..k], ds[k..];
      Cut(ds, k);
      FillIsBits(k, '0');
      JoinIsBits(lo, Fill(k, '0'));
      NatConcat(lo, Fill(k, '0'));
      Pow2Add(w - k, k);
      ShiftedPart(Nat(hi), Nat(lo), Pow2(w - k), Pow2(k));
    }
  }

  /** shl is multiplication by 2^k modulo 2^w. */
  lemma ShlMeans(bv: string, n: string)
    requires IsLiteral(bv) && IsLiteral(n)
    ensures BvShl(bv, n).Some? <==> FitsLong(Unsigned(n))
    ensures FitsLong(Unsigned(n)) ==>
              var r := BvShl(bv, n).value;
              IsBv(r) && |r| == Width(bv) + 2 && BvToNat(r) == (Unsigned(bv) * Pow2(Unsigned(n))) % Pow2(Width(bv))
  {
    hide Nat, Pow2, Fill;
    NormBvBinMeans(bv);
    NormBvBinMeans(n);
    ShlBitsMean(Digits(NormBvBin(bv)), BvToNat(NormBvBin(n)));
  }

  lemma MultipleIsZero(v: nat, d: int, e: int)
    requires d > 0 && e > 0
    ensures (v * (d * e)) % d == 0
  {
    assert v * (d * e) == (v * e) * d;
    ModShift(0, v * e, d);
    ModSame(0, d);
  }

  lemma ShiftedPart(hi: nat, lo: nat, p: int, e: int)
    requires p > 0 && e > 0 && lo < p
    ensures ((hi * p + lo) * e) % (p * e) == lo * e
  {
    assert (hi * p + lo) * e == hi * (p * e) + lo * e;
    assert lo * e < p * e && p * e > 0;
    DivModUnique((hi * p + lo) * e, p * e, hi, lo * e);
  }

  lemma LshrBitsMean(ds: string, k: nat)
    requires IsBits(ds)
    ensures var r := LshrBits(ds, k); IsBits(r) && |r| == |ds| && Nat(r) == Nat(ds) / Pow2(k)
  {
    hide Nat, Pow2;
    var w := |ds|;
    if k >= w {
      FillIsBits(w, '0');
      NatBound(ds);
      Pow2Monotonic(w, k);
      ModSame(Nat(ds), Pow2(k));
    } else {
      var hi, lo := ds[..w - k], ds[w - k..];
      Cut(ds, w - k);
      FillIsBits(k, '0');
      JoinIsBits(Fill(k, '0'), hi);
      NatConcat(Fill(k, '0'), hi);
      DivModUnique(Nat(ds), Pow2(k), Nat(hi), Nat(lo));
    }
  }

  /** lshr is division by 2^k. */
  lemma LshrMeans(bv: string, n: string)
    requires IsLiteral(bv) && IsLiteral(n)
    ensures BvLshr(bv, n).Some? <==> FitsLong(Unsigned(n))
    ensures FitsLong(Unsigned(n)) ==>
              var r := BvLshr(bv, n).value;
              IsBv(r) && |r| == Width(bv) + 2 && BvToNat(r) == Unsigned(bv) / Pow2(Unsigned(n))
  {
    hide Nat, Pow2, Fill;
    NormBvBinMeans(bv);
    NormBvBinMeans(n);
    LshrBitsMean(Digits(NormBvBin(bv)), BvToNat(NormBvBin(n)));
  }

  lemma SignOfJoin(c: char, n: nat, ds: string)
    requires IsBits(ds) && ds != "" && (c == '0' || c == '1') && c == ds[0]
    ensures IsBits(Fill(n, c) + ds) && Signed(Fill(n, c) + ds) == Signed(ds)
  {
    hide Nat, Pow2;
    var all := Fill(n, c) + ds;
    FillIsBits(n, c);
    JoinIsBits(Fill(n, c), ds);
    NatConcat(Fill(n, c), ds);
    assert all[0] == c;
    if c == '1' {
      Pow2Add(n, |ds|);
      Distribute(Pow2(n), 1, Pow2(|ds|));
    }
  }

  lemma AshrBitsMean(ds: string, k: nat)
    requires IsBits(ds) && ds != ""
    ensures var r := AshrBits(ds, k); IsBits(r) && |r| == |ds| && Signed(r) == Signed(ds) / Pow2(k)
  {
    hide Nat, Pow2;
    var w := |ds|;
    if k >= w {
      FillIsBits(w, ds[0]);
      NatBound(ds);
      Pow2Monotonic(w, k);
      AllSign(ds, k);
    } else {
      var hi, lo := ds[..w - k], ds[w - k..];
      Cut(ds, w - k);
      SignOfJoin(ds[0], k, hi);
      SignedCut(ds, k);
      DivModUnique(Signed(ds), Pow2(k), Signed(hi), Nat(lo));
    }
  }

  /** ashr is the signed value over 2^k, rounded down. */
  lemma AshrMeans(bv: string, n: string)
    requires IsLiteral(bv) && IsLiteral(n) && |bv| > 2
    ensures BvAshr(bv, n).Some? <==> FitsLong(Unsigned(n))
    ensures FitsLong(Unsigned(n)) ==>
              var r := BvAshr(bv, n).value;
              IsBv(r) && |r| == Width(bv) + 2 && Signed(Digits(r)) == TwosComplement(bv) / Pow2(Unsigned(n))
  {
    hide Nat, Pow2, Fill;
    NormBvBinMeans(bv);
    NormBvBinMeans(n);
    AshrBitsMean(Digits(NormBvBin(bv)), BvToNat(NormBvBin(n)));
  }

  lemma AllSign(ds: string, k: nat)
    requires IsBits(ds) && ds != "" && |ds| <= k && Nat(ds) < Pow2(|ds|) <= Pow2(k)
    ensures Signed(Fill(|ds|, ds[0])) == Signed(ds) / Pow2(k)
  {
    FillIsBits(|ds|, ds[0]);
    if ds[0] == '1' {
      TopBit(ds);
      DivModUnique(Signed(ds), Pow2(k), -1, Signed(ds) + Pow2(k));
    } else {
      ModSame(Nat(ds), Pow2(k));
    }
  }

  lemma SignedCut(ds: string, k: nat)
    requires IsBits(ds) && k < |ds|
    ensures var hi, lo := ds[..|ds| - k], ds[|ds| - k..];
            Signed(ds) == Signed(hi) * Pow2(k) + Nat(lo)
  {
    hide Nat, Pow2;
    var hi := ds[..|ds| - k];
    Cut(ds, |ds| - k);
    if ds[0] == '1' {
      Pow2Add(|hi|, k);
      Distribute(Nat(hi), Pow2(|hi|), Pow2(k));
    }
  }

  lemma Distribute(a: int, b: int, p: int)
    ensures (a - b) * p == a * p - b * p
  {
  }

  /** concat puts the first operand above the second. */
  lemma ConcatMeans(a: string, b: string)
    requires IsBv(a) && IsBv(b)
    ensures var r := BvConcat(a, b);
            IsBv(r) && |r| == |a| + |b| - 2 && BvToNat(r) == BvToNat(a) * Pow2(|b| - 2) + BvToNat(b)
  {
    JoinIsBits(Digits(a), Digits(b));
    NatConcat(Digits(a), Digits(b));
  }

  /** extract i j is (v div 2^j) mod 2^(i - j + 1). */
  lemma ExtractMeans(bv: string, i: nat, j: nat)
    requires IsBv(bv) && j <= i < |bv| - 2
    ensures var r := BvExtract(bv, i, j);
            IsBv(r) && |r| == i - j + 3 && BvToNat(r) == (BvToNat(bv) / Pow2(j)) % Pow2(i - j + 1)
  {
    hide Nat, Pow2;
    var ds := Digits(bv);
    var w := |ds|;
    var upper := ds[..w - j];
    Cut(ds, w - j);
    DivModUnique(Nat(ds), Pow2(j), Nat(upper), Nat(ds[w - j..]));
    var start := w - 1 - i;
    Cut(upper, start);
    assert upper[start..] == ds[start..start + (i - j + 1)];
    DivModUnique(Nat(upper), Pow2(i - j + 1), Nat(upper[..start]), Nat(upper[start..]));
  }

  /** Zero extension keeps the unsigned value, sign extension the signed one. */
  lemma ExtendMeans(bv: string, n: nat)
    requires IsBv(bv) && |bv| > 2
    ensures IsBv(BvZeroExtend(bv, n)) && |BvZeroExtend(bv, n)| == |bv| + n
    ensures BvToNat(BvZeroExtend(bv, n)) == BvToNat(bv)
    ensures IsBv(BvSignExtend(bv, n)) && |BvSignExtend(bv, n)| == |bv| + n
    ensures Signed(Digits(BvSignExtend(bv, n))) == Signed(Digits(bv))
  {
    var ds := Digits(bv);
    FillIsBits(n, '0');
    JoinIsBits(Fill(n, '0'), ds);
    NatConcat(Fill(n, '0'), ds);
    SignOfJoin(ds[0], n, ds);
  }

  /** Extraction undoes concatenation. */
  lemma ExtractOfConcat(a: string, b: string)
    requires IsBv(a) && IsBv(b) && |a| > 2 && |b| > 2
    ensures var r := BvConcat(a, b);
            IsBv(r) && BvExtract(r, |r| - 3, |b| - 2) == a && BvExtract(r, |b| - 3, 0) == b
  {
    var r := BvConcat(a, b);
    JoinIsBits(Digits(a), Digits(b));
    var da, db := Digits(a), Digits(b);
    assert Digits(r) == da + db;
    assert (da + db)[0..|da|] == da && (da + db)[|da|..|da| + |db|] == db;
    assert a == Literal(da) && b == Literal(db);
  }
}
