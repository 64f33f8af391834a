// Bit strings, most significant bit first, and the numbers they stand for.
module BitStrings {

  predicate IsBits(ds: string) { forall i | 0 <= i < |ds| :: ds[i] == '0' || ds[i] == '1' }

  function Bit(c: char): nat { if c == '1' then 1 else 0 }

  function Digit(b: nat): char { if b % 2 == 1 then '1' else '0' }

  function Pow2(n: nat): (p: int)
    ensures p >= 1
  {
    if n == 0 then 1 else 2 * Pow2(n - 1)
  }

  /** The unsigned value. */
  function Nat(ds: string): nat {
    if ds == [] then 0 else 2 * Nat(ds[..|ds| - 1]) + Bit(ds[|ds| - 1])
  }

  /** The two's complement value. */
  function Signed(ds: string): int {
    if ds != [] && ds[0] == '1' then Nat(ds) - Pow2(|ds|) else Nat(ds)
  }

  /** The low `w` bits of a number. */
  function ToBits(v: nat, w: nat): (ds: string)
    ensures |ds| == w && IsBits(ds)
    decreases w
  {
    if w == 0 then "" else ToBits(v / 2, w - 1) + [Digit(v)]
  }

  lemma {:induction false} Pow2Add(a: nat, b: nat)
    ensures Pow2(a + b) == Pow2(a) * Pow2(b)
  {
    if b > 0 {
      Pow2Add(a, b - 1);
      assert a + b - 1 == a + (b - 1);
      Twice(Pow2(a), Pow2(b - 1));
    }
  }

  lemma Twice(a: nat, b: nat)
    ensures 2 * (a * b) == a * (2 * b)
  {
  }

  lemma {:induction false} Pow2Monotonic(a: nat, b: nat)
    requires a <= b
    ensures Pow2(a) <= Pow2(b)
  {
    if a < b {
      Pow2Monotonic(a, b - 1);
    }
  }

  lemma {:induction false} NatBound(ds: string)
    ensures Nat(ds) < Pow2(|ds|)
  {
    if ds != [] {
      NatBound(ds[..|ds| - 1]);
    }
  }

  /** Concatenation shifts the first part up. */
  lemma {:induction false} NatConcat(a: string, b: string)
    ensures Nat(a + b) == Nat(a) * Pow2(|b|) + Nat(b)
    decreases |b|
  {
    if b == [] {
      assert a + b == a;
    } else {
      var n := |b| - 1;
      hide IsBits;
      assert (a + b)[..|a + b| - 1] == a + b[..n];
      NatConcat(a, b[..n]);
      Twice(Nat(a), Pow2(n));
    }
  }

  lemma {:induction false} NatZeros(n: nat)
    ensures Nat(seq(n, i => '0')) == 0
  {
    if n > 0 {
      assert seq(n, i => '0')[..n - 1] == seq(n - 1, i => '0');
      NatZeros(n - 1);
    }
  }

  lemma {:induction false} NatOnes(n: nat)
    ensures Nat(seq(n, i => '1')) == Pow2(n) - 1
  {
    if n > 0 {
      assert seq(n, i => '1')[..n - 1] == seq(n - 1, i => '1');
      NatOnes(n - 1);
    }
  }

  // ------------------------------------------------------------------
  // Division facts
  // ------------------------------------------------------------------

  lemma MulAtLeast(x: int, d: int)
    requires x >= 1 && d >= 1
    ensures x * d >= d
  {
    assert x * d == (x - 1) * d + d;
  }

  lemma DivModUnique(v: int, d: int, q: int, r: int)
    requires d > 0 && v == q * d + r && 0 <= r < d
    ensures v / d == q && v % d == r
  {
    var q', r' := v / d, v % d;
    EuclideanPair(v, d);
    var k := q' - q;
    assert k * d == q' * d - q * d;
    assert k * d == r - r';
    if k >= 1 {
      MulAtLeast(k, d);
    } else if k <= -1 {
      MulAtLeast(-k, d);
    }
  }

  lemma EuclideanPair(v: int, d: int)
    requires d > 0
    ensures v == (v / d) * d + v % d && 0 <= v % d < d
  {
  }

  /** Adding multiples of the modulus changes nothing. */
  lemma ModShift(v: int, k: int, d: int)
    requires d > 0
    ensures (v + k * d) % d == v % d
  {
    var q, r := v / d, v % d;
    assert v + k * d == (q + k) * d + r;
    DivModUnique(v + k * d, d, q + k, r);
  }

  lemma ModSame(v: int, d: int)
    requires 0 <= v < d
    ensures v % d == v && v / d == 0
  {
    DivModUnique(v, d, 0, v);
  }

  /** Reducing by a multiple of the modulus first changes nothing. */
  lemma ModMod(v: int, d: int, k: int)
    requires d > 0 && k > 0
    ensures d * k > 0 && (v % (d * k)) % d == v % d
  {
    assert d * k > 0;
    var q, r := v / (d * k), v % (d * k);
    assert v == q * (d * k) + r;
    assert q * (d * k) == (q * k) * d;
    ModShift(r, q * k, d);
  }

  // ------------------------------------------------------------------
  // Round trips
  // ------------------------------------------------------------------

  lemma {:induction false} NatOfToBits(v: nat, w: nat)
    ensures Nat(ToBits(v, w)) == v % Pow2(w)
    decreases w
  {
    if w == 0 {
      assert v % 1 == 0;
    } else {
      NatOfToBits(v / 2, w - 1);
      assert ToBits(v, w)[..w - 1] == ToBits(v / 2, w - 1);
      HalvedMod(v, Pow2(w - 1));
    }
  }

  lemma HalvedMod(v: nat, p: int)
    requires p > 0
    ensures v % (2 * p) == 2 * ((v / 2) % p) + v % 2
  {
    var h := v / 2;
    EuclideanPair(h, p);
    var q, r := h / p, h % p;
    assert v == 2 * h + v % 2;
    assert 2 * (q * p) == q * (2 * p);
    DivModUnique(v, 2 * p, q, 2 * r + v % 2);
  }

  lemma {:induction false} ToBitsOfNat(ds: string)
    requires IsBits(ds)
    ensures ToBits(Nat(ds), |ds|) == ds
  {
    if ds != [] {
      var n := |ds| - 1;
      ToBitsOfNat(ds[..n]);
      assert ds == ds[..n] + [ds[n]];
      DivModUnique(Nat(ds), 2, Nat(ds[..n]), Bit(ds[n]));
    }
  }

  /** The top bit says which half of the range the value is in. */
  lemma TopBit(ds: string)
    requires ds != [] && IsBits(ds)
    ensures ds[0] == '1' <==> Nat(ds) >= Pow2(|ds| - 1)
    ensures -Pow2(|ds| - 1) <= Signed(ds) < Pow2(|ds| - 1)
    ensures Signed(ds) % Pow2(|ds|) == Nat(ds)
  {
    assert ds == [ds[0]] + ds[1..];
    NatConcat([ds[0]], ds[1..]);
    NatBound(ds[1..]);
    assert [ds[0]][..0] == [];
    assert Nat([ds[0]]) == Bit(ds[0]);
    NatBound(ds);
    var p := Pow2(|ds|);
    ModSame(Nat(ds), p);
    if ds[0] == '1' {
      ModShift(Signed(ds), 1, p);
    }
  }

  /** A string is determined by its signed value. */
  lemma SignedOfToBits(i: int, w: nat)
    requires w >= 1 && -Pow2(w - 1) <= i < Pow2(w - 1)
    ensures Signed(ToBits(i % Pow2(w), w)) == i
  {
    var p, v := Pow2(w), i % Pow2(w);
    var ds := ToBits(v, w);
    NatOfToBits(v, w);
    ModSame(v, p);
    TopBit(ds);
    if i >= 0 {
      ModSame(i, p);
    } else {
      DivModUnique(i, p, -1, i + p);
    }
  }
}
