// BitVectorUtils: arithmetic on #b literals, with a 64-bit fast path beside
// the big-integer one.
module BitVectors {
  import opened BitStrings

  const WORD := 0x1_0000_0000_0000_0000

  predicate IsBv(bv: string) { |bv| >= 2 && bv[0] == '#' && bv[1] == 'b' && IsBits(bv[2..]) }

  function Digits(bv: string): string
    requires IsBv(bv)
  {
    bv[2..]
  }

  function Literal(ds: string): (bv: string)
    ensures |bv| == |ds| + 2 && bv[2..] == ds
    ensures IsBits(ds) ==> IsBv(bv)
  {
    "#b" + ds
  }

  function Max(a: nat, b: nat): nat { if a < b then b else a }

  lemma WordIsPow2()
    ensures Pow2(64) == WORD
  {
    assert Pow2(8) == 256;
    Pow2Add(8, 8);
    Pow2Add(16, 16);
    Pow2Add(32, 32);
  }

  // ------------------------------------------------------------------
  // Reading and writing
  // ------------------------------------------------------------------

  /** (u << 1) | bit on 64-bit words: no digit is lost below 65 of them. */
  method ReadWord(bv: string) returns (u: nat)
    requires IsBv(bv) && |bv| - 2 <= 64
    ensures u == Nat(Digits(bv)) < WORD
  {
    WordIsPow2();
    u := 0;
    for i := 2 to |bv|
      invariant u == Nat(bv[2..i])
    {
      assert bv[2..i + 1][..i - 2] == bv[2..i];
      NatBound(bv[2..i]);
      Pow2Monotonic(i - 2, 63);
      u := (u * 2) % WORD + (if bv[i] == '1' then 1 else 0);
    }
    assert bv[2..|bv|] == bv[2..];
    NatBound(bv[2..]);
    Pow2Monotonic(|bv| - 2, 64);
  }

  /** The big-integer reader, which is also bvToNat. */
  method ReadInteger(bv: string) returns (u: nat)
    requires IsBv(bv)
    ensures u == Nat(Digits(bv))
  {
    u := 0;
    for i := 2 to |bv|
      invariant u == Nat(bv[2..i])
    {
      assert bv[2..i + 1][..i - 2] == bv[2..i];
      u := u * 2 + (if bv[i] == '1' then 1 else 0);
    }
    assert bv[2..|bv|] == bv[2..];
  }

  /** Fills the digits from the low end. */
  method WriteWord(r: nat, w: nat) returns (bv: string)
    ensures bv == Literal(ToBits(r, w))
  {
    var bin := new char[w](_ => '0');
    var tmp := r;
    for i := 0 to w
      invariant ToBits(r, w) == ToBits(tmp, w - i) + bin[w - i..]
    {
      bin[w - 1 - i] := if tmp % 2 == 1 then '1' else '0';
      assert bin[w - (i + 1)..] == [Digit(tmp)] + bin[w - i..];
      tmp := tmp / 2;
    }
    assert bin[0..] == bin[..];
    bv := "#b" + bin[..];
  }

  function TruncMod(a: int, b: int): int
    requires b > 0
  {
    if a >= 0 then a % b else -((-a) % b)
  }

  /** Binary digits without leading zeros. */
  function Binary(n: nat): string {
    if n < 2 then [Digit(n)] else Binary(n / 2) + [Digit(n)]
  }

  lemma {:induction false} ZeroBits(w: nat)
    ensures ToBits(0, w) == seq(w, i => '0')
  {
    if w > 0 {
      ZeroBits(w - 1);
    }
  }

  lemma {:induction false} PaddedBinary(v: nat, w: nat)
    requires w >= 1 && v < Pow2(w)
    ensures |Binary(v)| <= w && seq(w - |Binary(v)|, i => '0') + Binary(v) == ToBits(v, w)
    decreases w
  {
    assert Pow2(1) == 2;
    if v < 2 {
      ZeroBits(w - 1);
      assert v / 2 == 0;
    } else {
      PaddedBinary(v / 2, w - 1);
    }
  }

  lemma TruncToEuclid(a: int, b: int)
    requires b > 0
    ensures (if TruncMod(a, b) < 0 then TruncMod(a, b) + b else TruncMod(a, b)) == a % b
  {
    if a < 0 {
      EuclideanPair(-a, b);
      var q, r := (-a) / b, (-a) % b;
      assert a == -(q * b) - r;
      assert -(q * b) == (-q) * b;
      if r == 0 {
        DivModUnique(a, b, -q, 0);
      } else {
        assert (-q - 1) * b == (-q) * b - b;
        DivModUnique(a, b, -q - 1, b - r);
      }
    }
  }

  /** intToBv: any integer modulo 2^n, padded to n digits. */
  method IntToBv(i: int, n: nat) returns (bv: string)
    requires n > 0
    ensures bv == Literal(ToBits(i % Pow2(n), n))
  {
    var twoN := Pow2(n);
    var mod := TruncMod(i, twoN);
    if mod < 0 {
      mod := mod + twoN;
    }
    TruncToEuclid(i, twoN);
    EuclideanPair(i, twoN);
    var bin := Binary(mod);
    PaddedBinary(mod, n);
    if |bin| < n {
      bin := seq(n - |bin|, k => '0') + bin;
    } else if |bin| > n {
      // the source cuts to the low digits here, which never happens
      assert false;
    }
    bv := "#b" + bin;
  }

  /** bvToInt: the two's complement value. */
  method BvToInt(bv: string) returns (i: int)
    requires IsBv(bv) && |bv| > 2
    ensures i == Signed(Digits(bv))
  {
    var u := ReadInteger(bv);
    i := if bv[2] == '1' then u - Pow2(|bv| - 2) else u;
  }

  /** intToBv inverts bvToInt, and bvToInt inverts intToBv on the signed
      range. */
  lemma IntRoundTrip(ds: string, i: int, n: nat)
    requires ds != [] && IsBits(ds) && n >= 1
    ensures ToBits(Signed(ds) % Pow2(|ds|), |ds|) == ds
    ensures -Pow2(n - 1) <= i < Pow2(n - 1) <==> Signed(ToBits(i % Pow2(n), n)) == i
  {
    TopBit(ds);
    ToBitsOfNat(ds);
    TopBit(ToBits(i % Pow2(n), n));
    if -Pow2(n - 1) <= i < Pow2(n - 1) {
      SignedOfToBits(i, n);
    }
  }

  // ------------------------------------------------------------------
  // Addition, subtraction, multiplication
  // ------------------------------------------------------------------

  /** & mask, where the mask has the low w bits set. */
  function Masked(u: nat, w: nat): nat
    requires w <= 64
  {
    if w < 64 then u % Pow2(w) else u
  }

  /** Wrapping to 64 bits and masking is reducing modulo 2^w. */
  lemma WrapAndMask(v: int, w: nat)
    requires w <= 64
    ensures v % WORD >= 0 && Masked(v % WORD, w) == v % Pow2(w)
  {
    WordIsPow2();
    Pow2Add(w, 64 - w);
    ModMod(v, Pow2(w), Pow2(64 - w));
  }

  /** The low bits of a number are the bits of its remainder. */
  lemma BitsOfMod(v: int, w: nat)
    ensures v % Pow2(w) >= 0 && Nat(ToBits(v % Pow2(w), w)) == v % Pow2(w)
  {
    EuclideanPair(v, Pow2(w));
    NatOfToBits(v % Pow2(w), w);
    ModSame(v % Pow2(w), Pow2(w));
  }

  /** The end of the fast path: wrap, mask, write. */
  method FinishWord(v: int, w: nat) returns (r: string)
    requires w <= 64
    ensures v % Pow2(w) >= 0 && r == Literal(ToBits(v % Pow2(w), w))
  {
    WrapAndMask(v, w);
    r := WriteWord(Masked(v % WORD, w), w);
  }

  method BvAdd(a: string, b: string) returns (r: string)
    requires IsBv(a) && IsBv(b)
    ensures var w := Max(|a|, |b|) - 2;
            && IsBv(r) && |r| == w + 2
            && Nat(Digits(r)) == (Nat(Digits(a)) + Nat(Digits(b))) % Pow2(w)
  {
    hide Nat, Pow2, ToBits, Masked;
    var w := Max(|a|, |b|) - 2;
    BitsOfMod(Nat(Digits(a)) + Nat(Digits(b)), w);
    if w <= 64 {
      var x := ReadWord(a);
      var y := ReadWord(b);
      r := FinishWord(x + y, w);
    } else {
      var x := ReadInteger(a);
      var y := ReadInteger(b);
      r := IntToBv(x + y, w);
    }
  }

  method BvSub(a: string, b: string) returns (r: string)
    requires IsBv(a) && IsBv(b)
    ensures var w := Max(|a|, |b|) - 2;
            && IsBv(r) && |r| == w + 2
            && Nat(Digits(r)) == (Nat(Digits(a)) - Nat(Digits(b))) % Pow2(w)
  {
    hide Nat, Pow2, ToBits, Masked;
    var w := Max(|a|, |b|) - 2;
    BitsOfMod(Nat(Digits(a)) - Nat(Digits(b)), w);
    if w <= 64 {
      var x := ReadWord(a);
      var y := ReadWord(b);
      r := FinishWord((x as int) - y, w);
    } else {
      var x := ReadInteger(a);
      var y := ReadInteger(b);
      r := IntToBv((x as int) - y, w);
    }
  }

  method BvMul(a: string, b: string) returns (r: string)
    requires IsBv(a) && IsBv(b)
    ensures var w := Max(|a|, |b|) - 2;
            && IsBv(r) && |r| == w + 2
            && Nat(Digits(r)) == (Nat(Digits(a)) * Nat(Digits(b))) % Pow2(w)
  {
    hide Nat, Pow2, ToBits, Masked;
    var w := Max(|a|, |b|) - 2;
    BitsOfMod(Nat(Digits(a)) * Nat(Digits(b)), w);
    if w <= 64 {
      var x := ReadWord(a);
      var y := ReadWord(b);
      r := FinishWord(x * y, w);
    } else {
      var x := ReadInteger(a);
      var y := ReadInteger(b);
      r := IntToBv(x * y, w);
    }
  }

  // ------------------------------------------------------------------
  // Negation
  // ------------------------------------------------------------------

  function Flip(c: char): char { if c == '0' then '1' else '0' }

  function Complement(ds: string): string { seq(|ds|, i requires 0 <= i < |ds| => Flip(ds[i])) }

  /** Flipping every digit counts down from 2^w - 1. */
  lemma {:induction false} NatOfComplement(ds: string)
    requires IsBits(ds)
    ensures Nat(Complement(ds)) == Pow2(|ds|) - 1 - Nat(ds)
  {
    if ds != [] {
      var n := |ds| - 1;
      NatOfComplement(ds[..n]);
      assert Complement(ds)[..n] == Complement(ds[..n]);
    }
  }

  lemma {:induction false} OneDigit(s: string, t: string, k: nat)
    requires k < |s| == |t| && t == s[k := t[k]]
    ensures Nat(t) - Nat(s) == (Bit(t[k]) - Bit(s[k])) * Pow2(|s| - 1 - k)
  {
    var n := |s| - 1;
    if k == n {
      assert t[..n] == s[..n];
    } else {
      assert t[..n] == s[..n][k := t[k]];
      OneDigit(s[..n], t[..n], k);
      var d, p := Bit(t[k]) - Bit(s[k]), Pow2(n - 1 - k);
      assert 2 * (d * p) == d * (2 * p);
    }
  }

  /** bvNeg: flip every digit, then ripple a carry in from the low end. */
  method BvNeg(bv: string) returns (r: string)
    requires IsBv(bv)
    ensures IsBv(r) && |r| == |bv|
    ensures Nat(Digits(r)) == (0 - Nat(Digits(bv))) % Pow2(|bv| - 2)
  {
    ghost var w, ds := |bv| - 2, bv[2..];
    var res := new char[|bv|](i requires 0 <= i < |bv| => bv[i]);
    for i := 2 to |bv|
      invariant forall k | 0 <= k < i :: res[k] == if k < 2 then bv[k] else Flip(bv[k])
      invariant forall k | i <= k < |bv| :: res[k] == bv[k]
    {
      res[i] := if res[i] == '0' then '1' else '0';
    }
    ghost var comp := Complement(ds);
    assert res[2..] == comp;
    RippleCarry(res);
    r := res[..];
    assert r[2..] == res[2..];
    ComplementPlusOne(ds);
  }

  lemma {:induction false} ComplementPlusOne(ds: string)
    requires IsBits(ds)
    ensures (Nat(Complement(ds)) + 1) % Pow2(|ds|) == (0 - Nat(ds)) % Pow2(|ds|)
  {
    NatOfComplement(ds);
    ModShift(0 - Nat(ds), 1, Pow2(|ds|));
  }

  lemma CarryEnds(was: string, now: string, carry: bool)
    requires |was| == |now| && Nat(now) + (if carry then Pow2(|was|) else 0) == Nat(was) + 1
    ensures Nat(now) == (Nat(was) + 1) % Pow2(|was|)
  {
    NatBound(now);
    NatBound(was);
    if carry {
      DivModUnique(Nat(was) + 1, Pow2(|was|), 1, Nat(now));
    } else {
      ModSame(Nat(was) + 1, Pow2(|was|));
    }
  }

  /** Adds one to the digits behind the prefix, dropping a carry out. */
  method RippleCarry(res: array<char>)
    requires res.Length >= 2 && IsBits(res[2..])
    modifies res
    ensures res[..2] == old(res[..2]) && IsBits(res[2..])
    ensures Nat(res[2..]) == (Nat(old(res[2..])) + 1) % Pow2(res.Length - 2)
  {
    ghost var was := res[2..];
    var carry := true;
    var i := res.Length;
    while i > 2 && carry
      invariant 2 <= i <= res.Length && IsBits(res[2..])
      invariant res[..2] == old(res[..2])
      invariant Nat(res[2..]) + (if carry then Pow2(res.Length - i) else 0) == Nat(was) + 1
    {
      i := i - 1;
      ghost var before := res[2..];
      assert res[i] == before[i - 2];
      if res[i] == '0' {
        res[i] := '1';
        carry := false;
      } else {
        res[i] := '0';
      }
      assert res[2..] == before[i - 2 := res[i]];
      CarryStep(before, res[2..], i - 2);
    }
    CarryEnds(was, res[2..], carry);
  }

  /** One digit of the ripple: a zero takes the carry, a one passes it on. */
  lemma CarryStep(s: string, t: string, k: nat)
    requires IsBits(s) && k < |s| == |t| && t == s[k := Flip(s[k])]
    ensures s[k] == '0' ==> Nat(t) == Nat(s) + Pow2(|s| - 1 - k)
    ensures s[k] == '1' ==> Nat(t) + Pow2(|s| - k) == Nat(s) + Pow2(|s| - 1 - k)
  {
    OneDigit(s, t, k);
  }
}
