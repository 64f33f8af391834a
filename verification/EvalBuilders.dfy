// The builders the evaluator ends in: constant folding, equality, distinctness
// and exclusive or, with what they drop.
module EvalBuilders {
  import opened Terms
  import opened Builders

  /** The constants of the fragment, in the one form the node table has. */
  predicate IsCanonical(t: Term) {
    || t == TrueTerm || t == FalseTerm
    || (t.kind.IntConst? && t == IntTerm(t.kind.n))
    || (t.kind.StrConst? && t == StrTerm(t.kind.s))
  }

  function BoolTerm(b: bool): Term { if b then TrueTerm else FalseTerm }

  /** What a constant denotes in every model. */
  function ConstValue(t: Term): Val
    requires IsCanonical(t)
  {
    match t.kind
    case ConstTrue => B(true)
    case ConstFalse => B(false)
    case IntConst(n) => N(n)
    case StrConst(s) => S(s)
  }

  lemma ConstantValue(t: Term, m: Model)
    requires IsCanonical(t)
    ensures Value(t, m) == ConstValue(t)
    ensures IsConst(t)
  {
    Unfold(t, m);
  }

  /** Canonical constants of one sort with one value are one node. */
  lemma SameConstant(a: Term, b: Term)
    requires IsCanonical(a) && IsCanonical(b)
    ensures ConstValue(a) == ConstValue(b) <==> a == b
  {
  }

  function IntOp(k: Kind, a: int, b: int): int {
    match k
    case Add => a + b
    case Sub => a - b
    case Mul => a * b
    case Max => IntMax(a, b)
    case Min => IntMin(a, b)
    case _ => 0
  }

  predicate IsIntFold(k: Kind) { k.Add? || k.Mul? || k.Max? || k.Min? }

  predicate IsOrder(k: Kind) { k.Le? || k.Lt? || k.Ge? || k.Gt? }

  function Compare(k: Kind, a: int, b: int): bool {
    match k
    case Le => a <= b
    case Lt => a < b
    case Ge => a >= b
    case Gt => a > b
    case _ => false
  }

  /** mkOper on one operand. */
  function Fold1(s: Sort, k: Kind, p: Term): Term {
    if k.Not? && IsTrue(p) then FalseTerm
    else if k.Not? && IsFalse(p) then TrueTerm
    else if k.Neg? && p.kind.IntConst? then IntTerm(-p.kind.n)
    else MkOper(s, k, [p])
  }

  /** mkOper on two operands. */
  function Fold2(s: Sort, k: Kind, l: Term, r: Term): Term {
    if k.Implies? then
      if IsTrue(l) && IsFalse(r) then FalseTerm
      else if IsFalse(l) || IsTrue(r) then TrueTerm
      else MkOper(s, k, [l, r])
    else if (IsIntFold(k) || k.Sub?) && l.kind.IntConst? && r.kind.IntConst? then IntTerm(IntOp(k, l.kind.n, r.kind.n))
    else if IsOrder(k) && l.kind.IntConst? && r.kind.IntConst? then BoolTerm(Compare(k, l.kind.n, r.kind.n))
    else if k.StrConcat? && l.kind.StrConst? && r.kind.StrConst? then StrTerm(l.kind.s + r.kind.s)
    else MkOper(s, k, [l, r])
  }

  // ------------------------------------------------------------------
  // Chains
  // ------------------------------------------------------------------

  /** No chained comparison that mkNot swaps, or that it would swap once the
      first operand is another string term, operators on the sorts they belong
      to and canonical constants: what mkNot negates correctly, at any depth. */
  predicate ChainFree(t: Term) {
    && (IsConst(t) ==> IsCanonical(t))
    && (IsComp(t) || (t.kind.Eq? && t.children != [] && t.children[0].sort == Str) ==> |t.children| == 2)
    && (t.kind.Not? ==> t.sort == Bool && |t.children| == 1 && t.children[0].sort == Bool)
    && (t.kind.Neg? || t.kind.Add? || t.kind.Sub? || t.kind.Mul? ==> t.sort == Int)
    && (t.kind.StrConcat? ==> t.sort == Str)
    && (t.kind.TheoryOp? ==> (t.kind.theory.Arithmetic? ==> t.sort == Int)
                             && (t.kind.theory.Strings? ==> t.sort == Int || t.sort == Str))
    && forall i | 0 <= i < |t.children| :: ChainFree(t.children[i])
  }

  predicate AllChainFree(ts: seq<Term>) { forall i | 0 <= i < |ts| :: ChainFree(ts[i]) }

  lemma CanonicalChainFree(t: Term)
    requires IsCanonical(t)
    ensures ChainFree(t)
  {
  }

  lemma ChainFreeNegatable(t: Term)
    requires ChainFree(t) && t.sort == Bool
    ensures Negatable(t)
  {
  }

  lemma {:induction false} CompChainFree(t: Term)
    requires ChainFree(t) && t.sort == Bool && IsComp(t)
    ensures ChainFree(NegateComp(t)) && NegateComp(t).sort == Bool
  {
    hide IsArithTerm, IsStrTerm;
    var n := NegateComp(t);
    assert n.children == t.children || n == TrueTerm || n == FalseTerm;
  }

  lemma {:induction false} NegationChainFree(t: Term)
    requires ChainFree(t) && t.sort == Bool
    ensures ChainFree(MkNot(t)) && MkNot(t).sort == Bool
  {
    hide IsArithTerm, IsStrTerm, NegateComp;
    if !(t.kind.Not? && |t.children| == 1) && !IsTrue(t) && !IsFalse(t) {
      if IsComp(t) {
        CompChainFree(t);
      } else {
        var n := MkOper(Bool, Not, [t]);
        assert n.children[0] == t;
      }
    }
  }

  /** A node over Boolean operands is no comparison that mkNot swaps. */
  lemma BoolNodeChainFree(k: Kind, ts: seq<Term>)
    requires k.And? || k.Or? || k.Xor? || k.Eq? || k.Distinct? || k.Implies?
    requires AllChainFree(ts) && forall i | 0 <= i < |ts| :: ts[i].sort == Bool
    ensures ChainFree(MkOper(Bool, k, ts))
  {
    if |ts| > 0 {
      assert ChainFree(ts[0]);
    }
  }

  /** Canonical constants, comparisons of at least two operands, and negations
      of Boolean terms that are plain again: what the evaluator hands on. */
  predicate Plain(t: Term) {
    && (IsConst(t) ==> IsCanonical(t))
    && (IsComp(t) ==> |t.children| == 2 || (|t.children| > 2 && (t.kind.Eq? || t.kind.Distinct?)))
    && (t.kind.Not? ==> t.sort == Bool && |t.children| == 1 && t.children[0].sort == Bool && Plain(t.children[0]))
  }

  predicate AllPlain(ts: seq<Term>) { forall i | 0 <= i < |ts| :: Plain(ts[i]) }

  lemma ChainFreePlain(t: Term)
    requires ChainFree(t)
    ensures Plain(t)
  {
  }

  /** A comparison whose operands are neither all equal nor pairwise distinct:
      swapping its operator does not negate it. */
  ghost predicate Torn(t: Term, m: Model) {
    IsComp(t) && !AllEqual(Values(t.children, m)) && !PairwiseDistinct(Values(t.children, m))
  }

  lemma TwoNotTorn(t: Term, m: Model)
    requires |t.children| == 2
    ensures !Torn(t, m)
  {
    hide Value;
    var vs := Values(t.children, m);
    assert vs[0] == vs[1] ==> AllEqual(vs);
    assert vs[0] != vs[1] ==> PairwiseDistinct(vs);
  }

  /** mkNot negates a term in a model unless the term is torn there. */
  lemma MkNotExact(t: Term, m: Model)
    requires Plain(t) && t.sort == Bool
    ensures (Holds(MkNot(t), m) <==> !Holds(t, m)) <==> !Torn(t, m)
    ensures MkNot(t).sort == Bool && Plain(MkNot(t))
  {
    hide Value, Holds, IsArithTerm, IsStrTerm, AllEqual, PairwiseDistinct;
    if IsComp(t) && |t.children| > 2 {
      MkNotOnChain(t, m);
    } else {
      if IsComp(t) {
        TwoNotTorn(t, m);
      }
      MkNotHolds(t, m);
    }
  }

  // ------------------------------------------------------------------
  // Equality
  // ------------------------------------------------------------------

  /** mkEq on two operands. */
  function MkEqPair(l: Term, r: Term): Term
    decreases l
  {
    if (IsTrue(l) && IsTrue(r)) || (IsFalse(l) && IsFalse(r)) then TrueTerm
    else if (IsTrue(l) && IsFalse(r)) || (IsFalse(l) && IsTrue(r)) then FalseTerm
    else if IsTrue(l) then r
    else if IsFalse(l) then MkNot(r)
    else if IsTrue(r) then l
    else if IsFalse(r) then MkNot(l)
    else if l.kind.Not? && r.kind.Not? && |l.children| == 1 && |r.children| == 1 then
      MkEqPair(l.children[0], r.children[0])
    else MkOper(Bool, Eq, [l, r])
  }

  /** mkEq on a list: three or more operands lose every `true`. */
  function MkEqual(ts: seq<Term>): Term {
    if |ts| < 2 then ErrorTerm
    else if |ts| == 2 then MkEqPair(ts[0], ts[1])
    else
      var rest := Without(ts, ConstTrue);
      if |rest| == 0 then TrueTerm
      else if |rest| == 1 then rest[0]
      else MkOper(Bool, Eq, rest)
  }

  lemma EqPairHolds(a: Term, b: Term, m: Model)
    ensures Holds(MkOper(Bool, Eq, [a, b]), m) <==> Value(a, m) == Value(b, m)
  {
    hide Value;
    var t := MkOper(Bool, Eq, [a, b]);
    var vs := Values(t.children, m);
    Unfold(t, m);
    assert AllEqual(vs) <==> vs[0] == vs[1];
  }

  /** Two operands: equality of their values. */
  lemma {:induction false} MkEqPairHolds(l: Term, r: Term, m: Model)
    requires l.sort == r.sort && (l.sort == Bool ==> ChainFree(l) && ChainFree(r))
    requires l.sort != Bool ==> !l.kind.Not? && !r.kind.Not?
    ensures MkEqPair(l, r).sort == Bool
    ensures Holds(MkEqPair(l, r), m) <==> Value(l, m) == Value(r, m)
    ensures l.sort == Bool ==> ChainFree(MkEqPair(l, r))
    decreases l
  {
    hide Value, Holds, MkNot, IsArithTerm, IsStrTerm, IsComp;
    ConstantsHold(m);
    ConstantsOk();
    ValueHasSort(l, m);
    ValueHasSort(r, m);
    if l.sort == Bool {
      NegationFacts(l, m);
      NegationFacts(r, m);
    }
    if IsTrue(l) || IsFalse(l) || IsTrue(r) || IsFalse(r) {
    } else if l.kind.Not? && r.kind.Not? && |l.children| == 1 && |r.children| == 1 {
      MkEqPairHolds(l.children[0], r.children[0], m);
      NotHolds(l, m);
      NotHolds(r, m);
      ValueHasSort(l.children[0], m);
      ValueHasSort(r.children[0], m);
    } else {
      EqPairHolds(l, r, m);
      if l.sort == Bool {
        BoolNodeChainFree(Eq, [l, r]);
      }
    }
  }

  /** Where binary mkEq goes wrong on Booleans: under the negations it strips,
      `false` is compared with a torn term. */
  ghost predicate PairMisread(l: Term, r: Term, m: Model)
    decreases l
  {
    if IsTrue(l) || IsTrue(r) || (IsFalse(l) && IsFalse(r)) then false
    else if IsFalse(l) then Torn(r, m)
    else if IsFalse(r) then Torn(l, m)
    else
      l.kind.Not? && r.kind.Not? && |l.children| == 1 && |r.children| == 1
      && PairMisread(l.children[0], r.children[0], m)
  }

  lemma {:induction false} MkEqPairExact(l: Term, r: Term, m: Model)
    requires l.sort == Bool && r.sort == Bool && Plain(l) && Plain(r)
    ensures (Holds(MkEqPair(l, r), m) <==> Value(l, m) == Value(r, m)) <==> !PairMisread(l, r, m)
    ensures MkEqPair(l, r).sort == Bool && Plain(MkEqPair(l, r))
    decreases l
  {
    hide Value, Holds, MkNot, IsArithTerm, IsStrTerm, Torn;
    ConstantsHold(m);
    ConstantsOk();
    ValueHasSort(l, m);
    ValueHasSort(r, m);
    MkNotExact(l, m);
    MkNotExact(r, m);
    if IsTrue(l) || IsFalse(l) || IsTrue(r) || IsFalse(r) {
    } else if l.kind.Not? && r.kind.Not? {
      MkEqPairExact(l.children[0], r.children[0], m);
      NotHolds(l, m);
      NotHolds(r, m);
      ValueHasSort(l.children[0], m);
      ValueHasSort(r.children[0], m);
    } else {
      EqPairHolds(l, r, m);
    }
  }

  lemma {:induction false} ChainFreePair(l: Term, r: Term, m: Model)
    requires ChainFree(l) && ChainFree(r)
    ensures !PairMisread(l, r, m)
    decreases l
  {
    hide IsArithTerm, IsStrTerm, Value;
    if IsComp(l) {
      TwoNotTorn(l, m);
    }
    if IsComp(r) {
      TwoNotTorn(r, m);
    }
    if l.kind.Not? && r.kind.Not? {
      ChainFreePair(l.children[0], r.children[0], m);
    }
  }

  lemma ConstantsOk()
    ensures ChainFree(TrueTerm) && ChainFree(FalseTerm) && TrueTerm.sort == Bool && FalseTerm.sort == Bool
    ensures IsTrue(TrueTerm) && IsFalse(FalseTerm)
  {
  }

  lemma NegationFacts(t: Term, m: Model)
    requires ChainFree(t) && t.sort == Bool
    ensures ChainFree(MkNot(t)) && MkNot(t).sort == Bool && (Holds(MkNot(t), m) <==> !Holds(t, m))
  {
    NegationChainFree(t);
    ChainFreeNegatable(t);
    MkNotHolds(t, m);
  }

  predicate AllOfSort(ts: seq<Term>, s: Sort) { forall i | 0 <= i < |ts| :: ts[i].sort == s }

  /** A chain over another sort than Bool is built as it stands. */
  lemma MkEqualHolds(ts: seq<Term>, s: Sort, m: Model)
    requires |ts| >= 2 && AllOfSort(ts, s) && (s == Bool ==> |ts| == 2 && AllChainFree(ts))
    requires s != Bool ==> forall i | 0 <= i < |ts| :: !ts[i].kind.Not?
    ensures MkEqual(ts).sort == Bool
    ensures Holds(MkEqual(ts), m) <==> AllEqual(Values(ts, m))
    ensures s == Bool ==> ChainFree(MkEqual(ts))
    ensures s != Bool ==> MkEqual(ts) == MkOper(Bool, Eq, ts)
  {
    hide Value, Holds, MkEqPair, ChainFree;
    var vs := Values(ts, m);
    if |ts| == 2 {
      MkEqPairHolds(ts[0], ts[1], m);
      assert AllEqual(vs) <==> vs[0] == vs[1];
      assert ts == [ts[0], ts[1]];
      if s != Bool {
        PlainPair(ts[0], ts[1]);
      }
    } else {
      WithoutNone(ts, ConstTrue);
      ChainHolds(MkOper(Bool, Eq, ts), m);
    }
  }

  lemma PlainPair(l: Term, r: Term)
    requires l.sort == r.sort != Bool && !l.kind.Not? && !r.kind.Not?
    ensures MkEqPair(l, r) == MkOper(Bool, Eq, [l, r])
  {
  }

  lemma ChainHolds(t: Term, m: Model)
    requires t.sort == Bool && (t.kind.Eq? || t.kind.Distinct?)
    ensures t.kind.Eq? ==> (Holds(t, m) <==> AllEqual(Values(t.children, m)))
    ensures t.kind.Distinct? ==> (Holds(t, m) <==> PairwiseDistinct(Values(t.children, m)))
  {
    hide Value;
    Unfold(t, m);
  }

  /** Booleans are all equal when all hold or none does. */
  lemma BooleansEqual(ts: seq<Term>, m: Model)
    requires AllOfSort(ts, Bool) && ts != []
    ensures AllEqual(Values(ts, m)) <==> (forall x | x in ts :: Holds(x, m)) || (forall x | x in ts :: !Holds(x, m))
  {
    hide Holds, Value;
    var vs := Values(ts, m);
    forall i | 0 <= i < |ts|
      ensures vs[i] == B(Holds(ts[i], m))
    {
      ValueHasSort(ts[i], m);
    }
    if AllEqual(vs) {
      forall x | x in ts
        ensures Holds(x, m) == Holds(ts[0], m)
      {
        var i :| 0 <= i < |ts| && ts[i] == x;
        assert vs[i] == vs[0];
      }
    }
  }

  predicate HasTrue(ts: seq<Term>) { exists i :: 0 <= i < |ts| && IsTrue(ts[i]) }

  /** What dropping `true` does to a Boolean chain of three or more operands:
      the result is wrong exactly in the models where a `true` was dropped and
      the others, at least two, are all false. */
  lemma {:induction false} MkEqualOnBooleans(ts: seq<Term>, m: Model)
    requires |ts| >= 3 && AllOfSort(ts, Bool)
    ensures var rest := Without(ts, ConstTrue);
            (Holds(MkEqual(ts), m) <==> AllEqual(Values(ts, m)))
            <==> !(HasTrue(ts) && |rest| >= 2 && forall x | x in rest :: !Holds(x, m))
  {
    hide Holds, Value, Without;
    var rest := Without(ts, ConstTrue);
    ConstantsHold(m);
    assert IsTrue(TrueTerm);
    BooleansEqual(ts, m);
    forall i | 0 <= i < |rest|
      ensures rest[i].sort == Bool
    {
      assert rest[i] in ts;
    }
    if |rest| >= 2 {
      BooleansEqual(rest, m);
      ChainHolds(MkOper(Bool, Eq, rest), m);
    } else if |rest| == 1 {
      assert forall x | x in rest :: x == rest[0];
      assert rest[0] in rest;
    }
    if !HasTrue(ts) {
      WithoutNone(ts, ConstTrue);
    } else {
      var i :| 0 <= i < |ts| && IsTrue(ts[i]);
      assert ts[i] in ts && Holds(ts[i], m);
      assert forall x | x in ts :: Holds(x, m) || x in rest;
    }
    if |rest| == 0 {
      assert ts[0] in ts && ts[0] !in rest;
    } else {
      assert rest[0] in rest;
    }
  }

  /** Where mkEq goes wrong on two or more Booleans. */
  ghost predicate EqualMisread(ts: seq<Term>, m: Model) {
    if |ts| == 2 then PairMisread(ts[0], ts[1], m)
    else
      var rest := Without(ts, ConstTrue);
      HasTrue(ts) && |rest| >= 2 && forall x | x in rest :: !Holds(x, m)
  }

  lemma {:induction false} MkEqualExact(ts: seq<Term>, m: Model)
    requires |ts| >= 2 && AllOfSort(ts, Bool) && AllPlain(ts)
    ensures (Holds(MkEqual(ts), m) <==> AllEqual(Values(ts, m))) <==> !EqualMisread(ts, m)
    ensures MkEqual(ts).sort == Bool && Plain(MkEqual(ts))
  {
    hide Value, Holds, MkEqPair, Plain, PairMisread, Without;
    if |ts| == 2 {
      var vs := Values(ts, m);
      MkEqPairExact(ts[0], ts[1], m);
      assert AllEqual(vs) <==> vs[0] == vs[1];
    } else {
      MkEqualOnBooleans(ts, m);
      FewerPlain(ts, Without(ts, ConstTrue), Eq);
    }
  }

  /** Constants, operands, and comparisons of two or more operands are plain. */
  lemma {:induction false} FewerPlain(ts: seq<Term>, rest: seq<Term>, k: Kind)
    requires AllOfSort(ts, Bool) && AllPlain(ts) && (k.Eq? || k.Distinct?)
    requires forall x | x in rest :: x in ts
    ensures Plain(TrueTerm) && Plain(FalseTerm)
    ensures |rest| == 1 ==> rest[0].sort == Bool && Plain(rest[0])
    ensures |rest| >= 2 ==> Plain(MkOper(Bool, k, rest))
  {
    if |rest| == 1 {
      assert rest[0] in rest;
    }
  }

  // ------------------------------------------------------------------
  // Distinctness
  // ------------------------------------------------------------------

  /** mkDistinct on a list: every `false` is dropped. */
  function MkDistinct(ts: seq<Term>): Term {
    if |ts| < 2 then ErrorTerm
    else
      var rest := Without(ts, ConstFalse);
      if |rest| == 0 then FalseTerm
      else if |rest| == 1 then rest[0]
      else MkOper(Bool, Distinct, rest)
  }

  lemma WithoutPair(a: Term, b: Term, k: Kind)
    ensures var da, db := a.sort == Bool && a.kind == k, b.sort == Bool && b.kind == k;
            Without([a, b], k) == if da && db then [] else if da then [b] else if db then [a] else [a, b]
  {
    assert [a, b][..1] == [a] && [a][..0] == [];
    assert Without([a], k) == if a.sort == Bool && a.kind == k then [] else [a];
  }

  /** Right on other sorts, and on two Booleans. */
  lemma MkDistinctHolds(ts: seq<Term>, s: Sort, m: Model)
    requires |ts| >= 2 && AllOfSort(ts, s) && (s == Bool ==> |ts| == 2)
    ensures MkDistinct(ts).sort == Bool
    ensures Holds(MkDistinct(ts), m) <==> PairwiseDistinct(Values(ts, m))
    ensures s == Bool && AllChainFree(ts) ==> ChainFree(MkDistinct(ts))
    ensures s != Bool ==> MkDistinct(ts) == MkOper(Bool, Distinct, ts)
  {
    hide Value, Holds, ChainFree, Without;
    var vs := Values(ts, m);
    ConstantsHold(m);
    ConstantsOk();
    if s != Bool {
      WithoutNone(ts, ConstFalse);
      ChainHolds(MkOper(Bool, Distinct, ts), m);
    } else {
      assert ts == [ts[0], ts[1]];
      WithoutPair(ts[0], ts[1], ConstFalse);
      ValueHasSort(ts[0], m);
      ValueHasSort(ts[1], m);
      assert PairwiseDistinct(vs) <==> vs[0] != vs[1];
      ChainHolds(MkOper(Bool, Distinct, ts), m);
      if AllChainFree(ts) {
        BoolNodeChainFree(Distinct, ts);
      }
    }
  }

  /** What dropping `false` does to three or more Booleans, which are never
      pairwise distinct: the result is wrong exactly in the models where one
      operand is left and holds, or two are left and differ. */
  lemma MkDistinctOnBooleans(ts: seq<Term>, m: Model)
    requires |ts| >= 3 && AllOfSort(ts, Bool)
    ensures var rest := Without(ts, ConstFalse);
            (Holds(MkDistinct(ts), m) <==> PairwiseDistinct(Values(ts, m)))
            <==> !(|rest| == 1 && Holds(rest[0], m)) && !(|rest| == 2 && Holds(rest[0], m) != Holds(rest[1], m))
  {
    hide Holds, Value, Without;
    var rest := Without(ts, ConstFalse);
    ConstantsHold(m);
    ThreeNotDistinct(ts, m);
    forall i | 0 <= i < |rest|
      ensures rest[i].sort == Bool
    {
      assert rest[i] in ts;
    }
    if |rest| >= 2 {
      ChainHolds(MkOper(Bool, Distinct, rest), m);
      if |rest| == 2 {
        var ws := Values(rest, m);
        ValueHasSort(rest[0], m);
        ValueHasSort(rest[1], m);
        assert PairwiseDistinct(ws) <==> ws[0] != ws[1];
      } else {
        ThreeNotDistinct(rest, m);
      }
    }
  }

  /** There are only two truth values. */
  lemma ThreeNotDistinct(ts: seq<Term>, m: Model)
    requires |ts| >= 3 && AllOfSort(ts, Bool)
    ensures !PairwiseDistinct(Values(ts, m))
  {
    hide Value;
    var vs := Values(ts, m);
    ValueHasSort(ts[0], m);
    ValueHasSort(ts[1], m);
    ValueHasSort(ts[2], m);
    assert vs[0] == vs[1] || vs[0] == vs[2] || vs[1] == vs[2];
  }

  /** Three Booleans are never distinct, but the result of dropping one `false`
      from x, y, false is x distinct from y. */
  lemma MkDistinctOnThree(x: Term, y: Term, m: Model)
    requires x.sort == Bool && y.sort == Bool && !x.kind.ConstFalse? && !y.kind.ConstFalse?
    ensures !PairwiseDistinct(Values([x, y, FalseTerm], m))
    ensures Holds(MkDistinct([x, y, FalseTerm]), m) <==> Holds(x, m) != Holds(y, m)
  {
    hide Value, Holds, Without;
    var ts := [x, y, FalseTerm];
    var vs := Values(ts, m);
    ValueHasSort(x, m);
    ValueHasSort(y, m);
    ValueHasSort(FalseTerm, m);
    assert vs[0] == vs[1] || vs[0] == vs[2] || vs[1] == vs[2];
    WithoutLast(ts);
    WithoutPair(x, y, ConstFalse);
    var pair := MkOper(Bool, Distinct, [x, y]);
    ChainHolds(pair, m);
    var ws := Values([x, y], m);
    assert PairwiseDistinct(ws) <==> ws[0] != ws[1];
  }

  lemma WithoutLast(ts: seq<Term>)
    requires |ts| == 3 && ts[2] == FalseTerm
    ensures Without(ts, ConstFalse) == Without([ts[0], ts[1]], ConstFalse)
  {
    assert ts[..2] == [ts[0], ts[1]];
  }

  /** Where mkDistinct goes wrong on Booleans. */
  ghost predicate DistinctMisread(ts: seq<Term>, m: Model) {
    var rest := Without(ts, ConstFalse);
    && |ts| >= 3
    && ((|rest| == 1 && Holds(rest[0], m)) || (|rest| == 2 && Holds(rest[0], m) != Holds(rest[1], m)))
  }

  lemma {:induction false} MkDistinctExact(ts: seq<Term>, m: Model)
    requires |ts| >= 2 && AllOfSort(ts, Bool) && AllPlain(ts)
    ensures (Holds(MkDistinct(ts), m) <==> PairwiseDistinct(Values(ts, m))) <==> !DistinctMisread(ts, m)
    ensures MkDistinct(ts).sort == Bool && Plain(MkDistinct(ts))
  {
    hide Value, Holds, Plain, Without;
    if |ts| == 2 {
      MkDistinctHolds(ts, Bool, m);
    } else {
      MkDistinctOnBooleans(ts, m);
    }
    FewerPlain(ts, Without(ts, ConstFalse), Distinct);
  }

  // ------------------------------------------------------------------
  // Exclusive or
  // ------------------------------------------------------------------

  /** mkXor drops `false`. */
  function MkXor(ts: seq<Term>): Term {
    if |ts| == 0 then FalseTerm
    else if |ts| == 1 then ts[0]
    else
      var rest := Without(ts, ConstFalse);
      if |rest| == 0 then FalseTerm
      else if |rest| == 1 then rest[0]
      else MkOper(Bool, Xor, rest)
  }

  /** From two or more operands mkXor leaves no `false`, and a node only over
      two or more. */
  lemma MkXorShape(ts: seq<Term>)
    requires |ts| >= 2
    ensures var r := MkXor(ts);
            r == FalseTerm || (r in ts && !IsFalse(r))
            || (r.kind.Xor? && |r.children| >= 2 && forall c | c in r.children :: c in ts && !IsFalse(c))
  {
  }

  lemma OddAppend(ts: seq<Term>, x: Term, m: Model)
    ensures Odd(Values(ts + [x], m)) == (Odd(Values(ts, m)) != Holds(x, m))
  {
    hide Value;
    assert Values(ts + [x], m)[..|ts|] == Values(ts, m);
  }

  lemma {:induction false} OddWithoutFalse(ts: seq<Term>, m: Model)
    requires AllOfSort(ts, Bool)
    ensures Odd(Values(Without(ts, ConstFalse), m)) == Odd(Values(ts, m))
  {
    hide Value, Odd, Holds;
    if ts != [] {
      var n := |ts| - 1;
      OddWithoutFalse(ts[..n], m);
      assert ts == ts[..n] + [ts[n]];
      OddAppend(ts[..n], ts[n], m);
      OddAppend(Without(ts[..n], ConstFalse), ts[n], m);
      ConstantsHold(m);
    }
  }

  lemma XorHolds(ts: seq<Term>, m: Model)
    ensures Holds(MkOper(Bool, Xor, ts), m) == Odd(Values(ts, m))
  {
    hide Value;
    Unfold(MkOper(Bool, Xor, ts), m);
  }

  lemma MkXorHolds(ts: seq<Term>, m: Model)
    requires AllOfSort(ts, Bool)
    ensures Holds(MkXor(ts), m) == Odd(Values(ts, m)) && MkXor(ts).sort == Bool
  {
    hide Value, Holds, Without;
    ConstantsHold(m);
    OddOfFew(ts, m);
    if |ts| > 1 {
      var rest := Without(ts, ConstFalse);
      OddWithoutFalse(ts, m);
      OddOfFew(rest, m);
      if |rest| == 1 {
        assert rest[0] in rest;
      }
      XorHolds(rest, m);
    }
  }

  lemma MkXorChainFree(ts: seq<Term>)
    requires AllOfSort(ts, Bool) && AllChainFree(ts)
    ensures ChainFree(MkXor(ts))
  {
    hide ChainFree, Without;
    ConstantsOk();
    if |ts| > 1 {
      var rest := Without(ts, ConstFalse);
      forall i | 0 <= i < |rest|
        ensures rest[i].sort == Bool && ChainFree(rest[i])
      {
        assert rest[i] in ts;
      }
      BoolNodeChainFree(Xor, rest);
    }
  }

  lemma OddOfFew(ts: seq<Term>, m: Model)
    ensures ts == [] ==> !Odd(Values(ts, m))
    ensures |ts| == 1 ==> Odd(Values(ts, m)) == Holds(ts[0], m)
  {
    hide Value;
    if |ts| == 1 {
      assert Values(ts, m)[..0] == [];
    }
  }
}
