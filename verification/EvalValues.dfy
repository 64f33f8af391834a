// Regrouping operands around their constants keeps the value: the arithmetic
// behind the evaluator's folding.
module EvalValues {
  import opened Terms
  import opened Builders
  import opened EvalBuilders

  /** The operands that are constants, and the others, in order. */
  function Consts(ts: seq<Term>): seq<Term> {
    if ts == [] then []
    else if IsConst(ts[|ts| - 1]) then Consts(ts[..|ts| - 1]) + [ts[|ts| - 1]]
    else Consts(ts[..|ts| - 1])
  }

  function NonConsts(ts: seq<Term>): seq<Term> {
    if ts == [] then []
    else if IsConst(ts[|ts| - 1]) then NonConsts(ts[..|ts| - 1])
    else NonConsts(ts[..|ts| - 1]) + [ts[|ts| - 1]]
  }

  lemma {:induction false} Members(ts: seq<Term>)
    ensures forall t | t in Consts(ts) :: t in ts && IsConst(t)
    ensures forall t | t in NonConsts(ts) :: t in ts && !IsConst(t)
  {
    hide IsConst, Consts, NonConsts;
    if ts != [] {
      Members(ts[..|ts| - 1]);
      SplitLast(ts);
    } else {
      NothingSplit();
    }
  }

  lemma {:induction false} Covers(ts: seq<Term>)
    ensures forall t | t in ts :: t in Consts(ts) || t in NonConsts(ts)
    ensures |Consts(ts)| + |NonConsts(ts)| == |ts|
    ensures ts != [] ==> if IsConst(ts[0]) then Consts(ts) != [] && Consts(ts)[0] == ts[0]
                         else NonConsts(ts) != [] && NonConsts(ts)[0] == ts[0]
    ensures NonConsts(ts) == [] ==> Consts(ts) == ts
    ensures Consts(ts) == [] ==> NonConsts(ts) == ts
  {
    hide IsConst, Consts, NonConsts;
    if ts != [] {
      Covers(ts[..|ts| - 1]);
      SplitLast(ts);
    } else {
      NothingSplit();
    }
  }

  lemma NothingSplit()
    ensures Consts([]) == [] && NonConsts([]) == []
  {
  }

  /** How the last operand falls. */
  lemma {:induction false} SplitLast(ts: seq<Term>)
    requires ts != []
    ensures var n := |ts| - 1;
            && ts == ts[..n] + [ts[n]]
            && Consts(ts) == (if IsConst(ts[n]) then Consts(ts[..n]) + [ts[n]] else Consts(ts[..n]))
            && NonConsts(ts) == (if IsConst(ts[n]) then NonConsts(ts[..n]) else NonConsts(ts[..n]) + [ts[n]])
  {
    hide IsConst;
  }

  predicate AllCanonical(ts: seq<Term>) { forall i | 0 <= i < |ts| :: IsConst(ts[i]) ==> IsCanonical(ts[i]) }

  predicate IntConsts(ts: seq<Term>) { forall i | 0 <= i < |ts| :: ts[i].kind.IntConst? && IsCanonical(ts[i]) }

  lemma ConstsAreInts(ts: seq<Term>)
    requires AllOfSort(ts, Int) && AllCanonical(ts)
    ensures IntConsts(Consts(ts))
  {
    Members(ts);
    var cs := Consts(ts);
    forall i | 0 <= i < |cs|
      ensures cs[i].kind.IntConst? && IsCanonical(cs[i])
    {
      assert cs[i] in ts;
    }
  }

  /** The left fold of the constants. */
  function FoldConsts(k: Kind, cs: seq<Term>): int
    requires cs != [] && forall i | 0 <= i < |cs| :: cs[i].kind.IntConst?
  {
    var n := |cs| - 1;
    if n == 0 then cs[0].kind.n else IntOp(k, FoldConsts(k, cs[..n]), cs[n].kind.n)
  }

  // ------------------------------------------------------------------
  // +, *, max, min
  // ------------------------------------------------------------------

  function Combine(k: Kind, vs: seq<Val>): int
    requires vs != []
  {
    var n := |vs| - 1;
    if n == 0 then AsInt(vs[0]) else IntOp(k, Combine(k, vs[..n]), AsInt(vs[n]))
  }

  ghost function Combined(k: Kind, ts: seq<Term>, m: Model): int
    requires ts != []
  {
    Combine(k, Values(ts, m))
  }

  ghost function Total(ts: seq<Term>, m: Model): int { SumOf(Values(ts, m)) }

  lemma {:induction false} CombineIsApply(k: Kind, vs: seq<Val>)
    requires IsIntFold(k) && vs != []
    ensures k.Add? ==> SumOf(vs) == Combine(k, vs)
    ensures k.Mul? ==> ProductOf(vs) == Combine(k, vs)
    ensures k.Max? ==> MaxOf(vs) == Combine(k, vs)
    ensures k.Min? ==> MinOf(vs) == Combine(k, vs)
  {
    var n := |vs| - 1;
    if n == 0 {
      assert vs[..0] == [];
    } else {
      CombineIsApply(k, vs[..n]);
    }
  }

  lemma OperatorValue(k: Kind, ts: seq<Term>, m: Model)
    requires IsIntFold(k) && ts != []
    ensures Value(MkOper(Int, k, ts), m) == N(Combined(k, ts, m))
  {
    hide Value;
    Unfold(MkOper(Int, k, ts), m);
    CombineIsApply(k, Values(ts, m));
  }

  lemma CombineAppend(k: Kind, ts: seq<Term>, x: Term, m: Model)
    requires ts != []
    ensures Combined(k, ts + [x], m) == IntOp(k, Combined(k, ts, m), AsInt(Value(x, m)))
  {
    hide Value;
    assert Values(ts + [x], m)[..|ts|] == Values(ts, m);
  }

  lemma OpLaws(k: Kind, a: int, b: int, c: int)
    requires IsIntFold(k)
    ensures IntOp(k, IntOp(k, a, b), c) == IntOp(k, a, IntOp(k, b, c))
    ensures IntOp(k, a, b) == IntOp(k, b, a)
  {
    if k.Mul? {
      assert a * b * c == a * (b * c);
    }
  }

  /** Operands may be reordered around the constants. */
  lemma {:induction false} CombineSplit(k: Kind, ts: seq<Term>, m: Model)
    requires IsIntFold(k) && NonConsts(ts) != [] && Consts(ts) != []
    ensures ts != []
    ensures Combined(k, ts, m) ==
            IntOp(k, Combined(k, NonConsts(ts), m), Combined(k, Consts(ts), m))
    decreases |ts|
  {
    hide Value, Combined, IntOp, Consts, NonConsts, IsConst;
    Covers(ts);
    var n := |ts| - 1;
    var x, before := ts[n], ts[..n];
    var non, con, v := NonConsts(before), Consts(before), AsInt(Value(ts[n], m));
    SplitLast(ts);
    Covers(before);
    CombineAppend(k, before, x, m);
    CombineOne(k, x, m);
    OnlyOne(x);
    if IsConst(x) {
      if con != [] {
        CombineSplit(k, before, m);
        CombineAppend(k, con, x, m);
        OpLaws(k, Combined(k, non, m), Combined(k, con, m), v);
      }
    } else {
      if non != [] {
        CombineSplit(k, before, m);
        CombineAppend(k, non, x, m);
        SwapLast(k, Combined(k, non, m), Combined(k, con, m), v);
      } else {
        OpLaws(k, Combined(k, con, m), v, v);
      }
    }
  }

  lemma OnlyOne(x: Term)
    ensures [] + [x] == [x]
  {
  }

  lemma CombineOne(k: Kind, x: Term, m: Model)
    ensures Combined(k, [x], m) == AsInt(Value(x, m))
  {
    hide Value;
  }

  lemma SwapLast(k: Kind, a: int, b: int, c: int)
    requires IsIntFold(k)
    ensures IntOp(k, IntOp(k, a, b), c) == IntOp(k, IntOp(k, a, c), b)
  {
    OpLaws(k, a, b, c);
    OpLaws(k, b, c, c);
    OpLaws(k, a, c, b);
  }

  lemma {:induction false} CombineOfConsts(k: Kind, cs: seq<Term>, m: Model)
    requires cs != [] && IntConsts(cs)
    ensures Combined(k, cs, m) == FoldConsts(k, cs)
  {
    hide Value;
    var n := |cs| - 1;
    ConstantValue(cs[n], m);
    if n > 0 {
      CombineOfConsts(k, cs[..n], m);
      assert Values(cs, m)[..n] == Values(cs[..n], m);
    }
  }

  /** Folding the constants into one operand at the end. */
  lemma RegroupKeeps(k: Kind, ts: seq<Term>, m: Model)
    requires IsIntFold(k) && ts != [] && AllOfSort(ts, Int) && AllCanonical(ts) && Consts(ts) != []
    ensures IntConsts(Consts(ts))
    ensures var non, c := NonConsts(ts), IntTerm(FoldConsts(k, Consts(ts)));
            Value(MkOper(Int, k, ts), m) == if non == [] then Value(c, m) else Value(MkOper(Int, k, non + [c]), m)
  {
    hide Value, Combined, FoldConsts;
    var non, con := NonConsts(ts), Consts(ts);
    ConstsAreInts(ts);
    var c := IntTerm(FoldConsts(k, con));
    ConstantValue(c, m);
    CombineOfConsts(k, con, m);
    OperatorValue(k, ts, m);
    Covers(ts);
    if non != [] {
      CombineSplit(k, ts, m);
      CombineAppend(k, non, c, m);
      OperatorValue(k, non + [c], m);
    }
  }

  /** One operand stands for itself. */
  lemma OneOperand(k: Kind, x: Term, m: Model)
    requires IsIntFold(k) && x.sort == Int
    ensures Value(MkOper(Int, k, [x]), m) == Value(x, m)
  {
    hide Value;
    OperatorValue(k, [x], m);
    CombineOne(k, x, m);
    ValueHasSort(x, m);
  }

  // ------------------------------------------------------------------
  // Subtraction
  // ------------------------------------------------------------------

  lemma {:induction false} SumPeel(vs: seq<Val>)
    requires vs != []
    ensures SumOf(vs) == AsInt(vs[0]) + SumOf(vs[1..])
  {
    var n := |vs| - 1;
    if n > 0 {
      SumPeel(vs[..n]);
      assert vs[1..][..n - 1] == vs[..n][1..];
    } else {
      assert vs[..0] == [] && vs[1..] == [];
    }
  }

  /** a - b - c - ... is twice the first minus the sum of all. */
  lemma DifferenceValue(ts: seq<Term>, m: Model)
    requires ts != []
    ensures Value(MkOper(Int, Sub, ts), m) == N(2 * AsInt(Value(ts[0], m)) - Total(ts, m))
  {
    hide Value;
    Unfold(MkOper(Int, Sub, ts), m);
    SumPeel(Values(ts, m));
  }

  lemma {:induction false} SumSplit(ts: seq<Term>, m: Model)
    ensures Total(ts, m) == Total(NonConsts(ts), m) + Total(Consts(ts), m)
  {
    hide Value, Total, Consts, NonConsts;
    if ts != [] {
      var n := |ts| - 1;
      SumSplit(ts[..n], m);
      SplitLast(ts);
      SumAppend(ts[..n], ts[n], m);
      SumAppend(Consts(ts[..n]), ts[n], m);
      SumAppend(NonConsts(ts[..n]), ts[n], m);
    } else {
      NothingSplit();
      SumOfNothing(m);
    }
  }

  lemma SumAppend(ts: seq<Term>, x: Term, m: Model)
    ensures Total(ts + [x], m) == Total(ts, m) + AsInt(Value(x, m))
  {
    hide Value;
    assert Values(ts + [x], m)[..|ts|] == Values(ts, m);
  }

  lemma SumPrepend(x: Term, ts: seq<Term>, m: Model)
    ensures Total([x] + ts, m) == AsInt(Value(x, m)) + Total(ts, m)
  {
    hide Value;
    SumPeel(Values([x] + ts, m));
    assert Values([x] + ts, m)[1..] == Values(ts, m);
  }

  lemma {:induction false} FoldOfConsts(cs: seq<Term>, m: Model)
    requires cs != [] && IntConsts(cs)
    ensures FoldConsts(Add, cs) == Total(cs, m)
    ensures FoldConsts(Sub, cs) == 2 * cs[0].kind.n - Total(cs, m)
  {
    hide Value, Total, ConstValue, IsCanonical;
    var n := |cs| - 1;
    IntConstant(cs[n], m);
    assert cs == cs[..n] + [cs[n]];
    SumAppend(cs[..n], cs[n], m);
    if n > 0 {
      FoldOfConsts(cs[..n], m);
    } else {
      assert cs[..0] == [];
      SumOfNothing(m);
    }
  }

  lemma IntConstant(t: Term, m: Model)
    requires t.kind.IntConst? && IsCanonical(t)
    ensures Value(t, m) == N(t.kind.n)
  {
    ConstantValue(t, m);
  }

  /** Constants behind a constant first operand are subtracted from it. */
  lemma DifferenceFromConst(ts: seq<Term>, m: Model)
    requires ts != [] && IntConsts(Consts(ts)) && IsConst(ts[0]) && Consts(ts) != []
    ensures var non, c := NonConsts(ts), IntTerm(FoldConsts(Sub, Consts(ts)));
            Value(MkOper(Int, Sub, ts), m) == if non == [] then Value(c, m) else Value(MkOper(Int, Sub, [c] + non), m)
  {
    hide Value, FoldConsts, Total, Consts, NonConsts;
    var non, con := NonConsts(ts), Consts(ts);
    var c := IntTerm(FoldConsts(Sub, con));
    Covers(ts);
    SumSplit(ts, m);
    FoldOfConsts(con, m);
    DifferenceValue(ts, m);
    IntConstant(c, m);
    IntConstant(con[0], m);
    DifferenceValue([c] + non, m);
    SumPrepend(c, non, m);
    SumOfNothing(m);
  }

  /** Constants behind another first operand are added up. */
  lemma DifferenceFromOther(ts: seq<Term>, m: Model)
    requires ts != [] && IntConsts(Consts(ts)) && !IsConst(ts[0]) && Consts(ts) != []
    ensures Value(MkOper(Int, Sub, ts), m)
            == Value(MkOper(Int, Sub, NonConsts(ts) + [IntTerm(FoldConsts(Add, Consts(ts)))]), m)
  {
    hide Value, FoldConsts, Total, Consts, NonConsts;
    var non, con := NonConsts(ts), Consts(ts);
    var c := IntTerm(FoldConsts(Add, con));
    Covers(ts);
    SumSplit(ts, m);
    FoldOfConsts(con, m);
    DifferenceValue(ts, m);
    IntConstant(c, m);
    DifferenceValue(non + [c], m);
    SumAppend(non, c, m);
    assert (non + [c])[0] == ts[0];
  }

  lemma SumOfNothing(m: Model)
    ensures Total([], m) == 0
  {
  }

  lemma {:induction false} OneDifference(x: Term, m: Model)
    requires x.sort == Int
    ensures Value(MkOper(Int, Sub, [x]), m) == Value(x, m)
  {
    hide Value;
    DifferenceValue([x], m);
    SumAppend([], x, m);
    SumOfNothing(m);
    OnlyOne(x);
    ValueHasSort(x, m);
  }

  // ------------------------------------------------------------------
  // Concatenation
  // ------------------------------------------------------------------

  lemma ConcatAppend(ts: seq<Term>, x: Term, m: Model)
    ensures ConcatOf(Values(ts + [x], m)) == ConcatOf(Values(ts, m)) + AsStr(Value(x, m))
  {
    hide Value;
    assert Values(ts + [x], m)[..|ts|] == Values(ts, m);
  }

  lemma ConcatValue(ts: seq<Term>, m: Model)
    ensures Value(MkOper(Str, StrConcat, ts), m) == S(ConcatOf(Values(ts, m)))
  {
    hide Value;
    Unfold(MkOper(Str, StrConcat, ts), m);
  }

  // ------------------------------------------------------------------
  // Conjunction, disjunction, exclusive or
  // ------------------------------------------------------------------

  /** A conjunction without a false constant is that of its other operands. */
  lemma ConjunctionRest(ts: seq<Term>, m: Model)
    requires AllOfSort(ts, Bool) && AllCanonical(ts) && forall t | t in Consts(ts) :: IsTrue(t)
    ensures AllHold(ts, m) <==> AllHold(NonConsts(ts), m)
  {
    hide Holds, Consts, NonConsts;
    Covers(ts);
    Members(ts);
    ConstantsHold(m);
    AllHoldIn(ts, m);
    AllHoldIn(NonConsts(ts), m);
  }

  lemma DisjunctionRest(ts: seq<Term>, m: Model)
    requires AllOfSort(ts, Bool) && AllCanonical(ts) && forall t | t in Consts(ts) :: IsFalse(t)
    ensures AnyHolds(ts, m) <==> AnyHolds(NonConsts(ts), m)
  {
    hide Holds, Consts, NonConsts;
    Covers(ts);
    Members(ts);
    ConstantsHold(m);
    AllHoldIn(ts, m);
    AllHoldIn(NonConsts(ts), m);
  }

  /** The number of true constants. */
  function TrueCount(ts: seq<Term>): nat {
    if ts == [] then 0 else TrueCount(ts[..|ts| - 1]) + if IsTrue(ts[|ts| - 1]) then 1 else 0
  }

  /** Parity splits into the constants' and the others'. */
  lemma {:induction false} ParityRest(ts: seq<Term>, m: Model)
    requires AllOfSort(ts, Bool) && AllCanonical(ts)
    ensures Odd(Values(ts, m)) == (Odd(Values(NonConsts(ts), m)) != (TrueCount(ts) % 2 == 1))
  {
    hide Value, Holds, Odd;
    if ts == [] {
      OddOfFew([], m);
    } else {
      var n := |ts| - 1;
      ParityRest(ts[..n], m);
      assert ts == ts[..n] + [ts[n]];
      OddAppend(ts[..n], ts[n], m);
      ConstantsHold(m);
      if IsConst(ts[n]) {
        assert NonConsts(ts) == NonConsts(ts[..n]);
      } else {
        OddAppend(NonConsts(ts[..n]), ts[n], m);
      }
    }
  }
}
