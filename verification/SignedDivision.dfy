// bvSdiv, bvSrem and bvSmod on two's complement values.
module SignedDivision {
  import opened BitStrings

  function Abs(a: int): (r: int)
    ensures r >= 0 && (r == 0 <==> a == 0)
  {
    if a < 0 then -a else a
  }

  /** Division truncating toward zero. */
  function TruncDiv(a: int, b: int): int
    requires b != 0
  {
    var q := Abs(a) / Abs(b);
    if (a < 0) != (b < 0) then -q else q
  }

  /** intToBv at a positive width, on digits. */
  function Encode(i: int, n: nat): (ds: string)
    ensures |ds| == n && IsBits(ds)
  {
    EuclideanPair(i, Pow2(n));
    ToBits(i % Pow2(n), n)
  }

  function MinSigned(n: nat): int
    requires n >= 1
  {
    -Pow2(n - 1)
  }

  function Sdiv(da: string, db: string): string
    requires da != "" && db != ""
  {
    var n, a, b := |da|, Signed(da), Signed(db);
    if b == 0 then
      if n == 1 then "1" else if a < 0 then Encode(1, n) else Encode(a, n)
    else if a == MinSigned(n) && b == -1 then Encode(MinSigned(n), n)
    else Encode(TruncDiv(a, b), n)
  }

  function Srem(da: string, db: string): string
    requires da != "" && db != ""
  {
    var n, a, b := |da|, Signed(da), Signed(db);
    if b == 0 then da else Encode(a - TruncDiv(a, b) * b, n)
  }

  lemma TruncDivLaw(a: int, b: int)
    requires b != 0
    ensures var r := a - TruncDiv(a, b) * b;
            && Abs(r) < Abs(b)
            && (r == 0 || (r < 0 <==> a < 0))
            && Abs(TruncDiv(a, b)) <= Abs(a)
            && (Abs(b) > 1 && a != 0 ==> Abs(TruncDiv(a, b)) < Abs(a))
  {
    hide TruncDiv;
    var x, y := Abs(a), Abs(b);
    EuclideanPair(x, y);
    QuotientSmall(x, y);
    TruncProduct(a, b);
  }

  lemma TruncProduct(a: int, b: int)
    requires b != 0
    ensures TruncDiv(a, b) * b == if a < 0 then -((Abs(a) / Abs(b)) * Abs(b)) else (Abs(a) / Abs(b)) * Abs(b)
    ensures Abs(TruncDiv(a, b)) == Abs(Abs(a) / Abs(b))
  {
    SignProduct(Abs(a) / Abs(b), Abs(b));
  }

  lemma SignProduct(q: int, y: int)
    ensures (-q) * y == -(q * y) && q * (-y) == -(q * y) && (-q) * (-y) == q * y
  {
  }

  lemma QuotientSmall(x: int, y: int)
    requires x >= 0 && y >= 1
    ensures 0 <= x / y <= x && (y > 1 && x > 0 ==> x / y < x)
  {
    EuclideanPair(x, y);
    var q := x / y;
    if q < 0 {
      MulAtLeast(-q, y);
      SignProduct(q, y);
    } else if q >= 1 {
      assert q * y == q + q * (y - 1);
      if y > 1 {
        MulAtLeast(q, y - 1);
        MulAtLeast(y - 1, q);
      }
    }
  }

  lemma SignedEncode(i: int, n: nat)
    requires n >= 1 && -Pow2(n - 1) <= i < Pow2(n - 1)
    ensures Signed(Encode(i, n)) == i
  {
    SignedOfToBits(i, n);
  }

  /** The quotient fits its width except for the smallest value over -1. */
  lemma QuotientFits(a: int, b: int, n: nat)
    requires n >= 1 && b != 0 && -Pow2(n - 1) <= a < Pow2(n - 1) && -Pow2(n - 1) <= b < Pow2(n - 1)
    ensures -Pow2(n - 1) <= TruncDiv(a, b) < Pow2(n - 1) <==> !(a == MinSigned(n) && b == -1)
    ensures -Pow2(n - 1) <= a - TruncDiv(a, b) * b < Pow2(n - 1)
  {
    TruncDivLaw(a, b);
    if Abs(b) == 1 {
      assert Abs(a) / 1 == Abs(a);
    }
  }

  /** The signed values of the two results. */
  lemma SignedResults(da: string, db: string)
    requires IsBits(da) && IsBits(db) && |da| == |db| >= 1 && Signed(db) != 0
    ensures var n, a, b := |da|, Signed(da), Signed(db);
            && Signed(Sdiv(da, db)) == (if a == MinSigned(n) && b == -1 then a else TruncDiv(a, b))
            && Signed(Srem(da, db)) == a - TruncDiv(a, b) * b
  {
    hide Encode, TruncDiv, Signed, Pow2;
    var n, a, b := |da|, Signed(da), Signed(db);
    TopBit(da);
    TopBit(db);
    QuotientFits(a, b, n);
    SignedEncode(a - TruncDiv(a, b) * b, n);
    if a == MinSigned(n) && b == -1 {
      SignedEncode(a, n);
    } else {
      SignedEncode(TruncDiv(a, b), n);
    }
  }

  /** The division law: the remainder is smaller than the divisor and has the
      dividend's sign, and quotient times divisor plus remainder is the
      dividend, exactly unless the quotient overflows and modulo 2^w always. */
  lemma SignedDivisionLaw(da: string, db: string)
    requires IsBits(da) && IsBits(db) && |da| == |db| >= 1 && Signed(db) != 0
    ensures var n, a, b := |da|, Signed(da), Signed(db);
            var q, r := Signed(Sdiv(da, db)), Signed(Srem(da, db));
            && Abs(r) < Abs(b) && (r == 0 || (r < 0 <==> a < 0))
            && (q * b + r) % Pow2(n) == Nat(da)
            && (q * b + r == a <==> !(a == MinSigned(n) && b == -1))
  {
    hide TruncDiv, Signed, Pow2, Sdiv, Srem;
    var n, a, b := |da|, Signed(da), Signed(db);
    SignedResults(da, db);
    TruncDivLaw(a, b);
    TopBit(da);
    if a == MinSigned(n) && b == -1 {
      OverflowLaw(n);
    }
  }

  /** min / -1 = min with remainder 0: off by exactly 2^w. */
  lemma OverflowLaw(n: nat)
    requires n >= 1
    ensures var a := MinSigned(n);
            && a - TruncDiv(a, -1) * -1 == 0
            && a * -1 == a + Pow2(n) && (a * -1) % Pow2(n) == a % Pow2(n)
  {
    ModShift(MinSigned(n), 1, Pow2(n));
  }

  /** Division by zero follows the standard (1 for a negative dividend, all
      ones otherwise) exactly at width one and for negative dividends. */
  lemma SdivByZero(da: string, db: string)
    requires IsBits(da) && IsBits(db) && |da| == |db| >= 1 && Signed(db) == 0
    ensures var n, a := |da|, Signed(da);
            Sdiv(da, db) == Encode(if a < 0 then 1 else -1, n) <==> n == 1 || a < 0
    ensures Srem(da, db) == da
  {
    var n, a := |da|, Signed(da);
    TopBit(da);
    if n == 1 {
      WidthOne(da);
    } else if a >= 0 {
      SignedEncode(a, n);
      Pow2Monotonic(1, n - 1);
      assert Pow2(1) == 2;
      SignedEncode(-1, n);
    }
  }

  /** What division by zero gives instead: the dividend itself where the
      standard has all ones, and one digit is always a one. */
  lemma SdivByZeroValue(da: string, db: string)
    requires IsBits(da) && IsBits(db) && |da| == |db| >= 1 && Signed(db) == 0
    ensures |da| == 1 ==> Sdiv(da, db) == "1"
    ensures |da| > 1 && Signed(da) >= 0 ==> Sdiv(da, db) == da
    ensures |da| > 1 && Signed(da) < 0 ==> Signed(Sdiv(da, db)) == 1
  {
    hide Pow2, Nat, ToBits;
    var n, a := |da|, Signed(da);
    TopBit(da);
    NatBound(da);
    if a >= 0 {
      ModSame(Nat(da), Pow2(n));
      ToBitsOfNat(da);
    } else if n > 1 {
      Pow2Monotonic(1, n - 1);
      assert Pow2(1) == 2 by { TwoIsPow2(); }
      SignedEncode(1, n);
    }
  }

  lemma TwoIsPow2()
    ensures Pow2(1) == 2
  {
  }

  lemma WidthOne(da: string)
    requires |da| == 1
    ensures Encode(1, 1) == "1" && Encode(-1, 1) == "1"
  {
    assert Pow2(1) == 2;
    DivModUnique(-1, 2, -1, 1);
    assert ToBits(1, 1) == ToBits(0, 0) + ['1'];
  }

  // ------------------------------------------------------------------
  // bvSmod
  // ------------------------------------------------------------------

  /** What bvSmod computes for a nonzero divisor: `mathMod` of the dividend by
      the divisor's size, then a sign fix. */
  function SmodValue(a: int, b: int): int
    requires b != 0
  {
    SmodFrom(a, b, a % Abs(b))
  }

  function SmodFrom(a: int, b: int, m: int): int {
    if m == 0 then 0
    else if (a > 0 && b > 0) || (a < 0 && b < 0) then m
    else if b < 0 then -(Abs(b) - m)
    else Abs(b) - m
  }

  /** The standard's bvsmod, on the magnitudes. */
  function StandardSmod(a: int, b: int): int
    requires b != 0
  {
    StandardFrom(a, b, Abs(a) % Abs(b))
  }

  function StandardFrom(a: int, b: int, u: int): int {
    if u == 0 then 0
    else if a >= 0 && b >= 0 then u
    else if a < 0 && b >= 0 then -u + b
    else if a >= 0 then u + b
    else -u
  }

  lemma NegatedMod(a: int, y: int)
    requires a < 0 && y >= 1
    ensures (-a) % y == 0 <==> a % y == 0
    ensures a % y != 0 ==> (-a) % y == y - a % y
  {
    EuclideanPair(a, y);
    var q, m := a / y, a % y;
    SignProduct(q, y);
    if m == 0 {
      DivModUnique(-a, y, -q, 0);
    } else {
      assert (-q - 1) * y == (-q) * y - y;
      DivModUnique(-a, y, -q - 1, y - m);
    }
  }

  /** bvSmod is the standard's exactly for nonnegative dividends, exact
      divisions, and the case where both remainders are half the divisor. */
  lemma SmodExact(a: int, b: int)
    requires b != 0
    ensures SmodValue(a, b) == StandardSmod(a, b) <==> a >= 0 || a % Abs(b) == 0 || (b > 0 && 2 * (a % b) == b)
  {
    var y := Abs(b);
    EuclideanPair(a, y);
    ModSame(0, y);
    if a < 0 {
      NegatedMod(a, y);
      SmodCases(a, b, a % y, (-a) % y);
    } else {
      SmodCases(a, b, a % y, a % y);
    }
  }

  /** The comparison with the two remainders named. */
  lemma SmodCases(a: int, b: int, m: int, u: int)
    requires b != 0 && 0 <= m < Abs(b) && (a == 0 ==> m == 0)
    requires if a >= 0 || m == 0 then u == m else u == Abs(b) - m
    ensures SmodFrom(a, b, m) == StandardFrom(a, b, u) <==> a >= 0 || m == 0 || (b > 0 && 2 * m == b)
  {
  }

  /** bvSmod on digit strings of one width. */
  function Smod(da: string, db: string): string
    requires IsBits(da) && IsBits(db) && |da| == |db| >= 1
  {
    if Signed(db) == 0 then da else Encode(SmodValue(Signed(da), Signed(db)), |da|)
  }

  /** Numbers less than 2^n apart have different strings. */
  lemma EncodeApart(i: int, j: int, n: nat)
    requires n >= 1 && -Pow2(n) < i - j < Pow2(n)
    ensures Encode(i, n) == Encode(j, n) <==> i == j
  {
    hide Pow2, ToBits;
    var p := Pow2(n);
    EuclideanPair(i, p);
    EuclideanPair(j, p);
    NatOfToBits(i % p, n);
    NatOfToBits(j % p, n);
    ModSame(i % p, p);
    ModSame(j % p, p);
    if i % p == j % p {
      SameRemainder(i, j, p);
    }
  }

  lemma SameRemainder(i: int, j: int, p: int)
    requires p > 0 && -p < i - j < p && i % p == j % p
    ensures i == j
  {
    var q := i / p - j / p;
    EuclideanPair(i, p);
    EuclideanPair(j, p);
    assert q * p == (i / p) * p - (j / p) * p;
    MultipleInside(q, p, i - j);
  }

  lemma MultipleInside(q: int, p: int, d: int)
    requires p > 0 && d == q * p && -p < d < p
    ensures d == 0
  {
    assert (q >= 1 ==> q * p >= p) && (q <= -1 ==> q * p <= -p);
  }

  /** The two remainders are less than twice the divisor apart, so the same
      condition decides whether the strings agree. Division by zero gives the
      dividend, as the standard has it. */
  lemma SmodStringExact(da: string, db: string)
    requires IsBits(da) && IsBits(db) && |da| == |db| >= 1
    ensures Signed(db) == 0 ==> Smod(da, db) == da
    ensures var a, b := Signed(da), Signed(db);
            b != 0 ==>
              (Smod(da, db) == Encode(StandardSmod(a, b), |da|) <==>
               a >= 0 || a % Abs(b) == 0 || (b > 0 && 2 * (a % b) == b))
  {
    var n, a, b := |da|, Signed(da), Signed(db);
    if b != 0 {
      TopBit(db);
      SmodExact(a, b);
      SmodRange(a, b);
      assert Pow2(n) == 2 * Pow2(n - 1);
      EncodeApart(SmodValue(a, b), StandardSmod(a, b), n);
    }
  }

  lemma SmodRange(a: int, b: int)
    requires b != 0
    ensures -2 * Abs(b) < SmodValue(a, b) - StandardSmod(a, b) < 2 * Abs(b)
  {
    var y := Abs(b);
    EuclideanPair(a, y);
    EuclideanPair(Abs(a), y);
    if a < 0 {
      NegatedMod(a, y);
    }
  }

  /** What bvSmod gives where it departs: the remainder of the magnitudes for a
      positive divisor, and the nonnegative remainder for a negative one, a
      divisor's size above the standard's. */
  lemma SmodDeparts(a: int, b: int)
    requires b != 0
    ensures a >= 0 ==> SmodValue(a, b) == StandardSmod(a, b)
    ensures a < 0 && b > 0 ==> SmodValue(a, b) == Abs(a) % b
    ensures a < 0 && b < 0 ==> SmodValue(a, b) == a % Abs(b)
    ensures a < 0 && b < 0 && a % Abs(b) != 0 ==> SmodValue(a, b) == StandardSmod(a, b) + Abs(b)
  {
    var y := Abs(b);
    EuclideanPair(a, y);
    SmodExact(a, b);
    if a < 0 {
      NegatedMod(a, y);
    }
  }

  /** On bit strings: that number, in two's complement. */
  lemma SmodStringValue(da: string, db: string)
    requires IsBits(da) && IsBits(db) && |da| == |db| >= 1 && Signed(db) != 0
    ensures Signed(Smod(da, db)) == SmodValue(Signed(da), Signed(db))
  {
    hide Pow2, Nat, Encode, SmodValue;
    TopBit(db);
    SmodBound(Signed(da), Signed(db));
    SignedEncode(SmodValue(Signed(da), Signed(db)), |da|);
  }

  lemma SmodBound(a: int, b: int)
    requires b != 0
    ensures -Abs(b) < SmodValue(a, b) < Abs(b)
  {
    EuclideanPair(a, Abs(b));
  }
}
