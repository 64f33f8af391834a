// assertTopCNF and the two halves of its correctness: every model of the
// formula extends to the clauses, and every model of the clauses satisfies it.
module TopLevelCnf {
  import opened Terms
  import opened Builders
  import opened LetExpansion
  import opened Tseitin
  import opened CnfEncoder
  import opened CnfMeaning

  /** Encodes a formula in asserted position: the new state and the clauses
      asserted beside the gate definitions. */
  function AssertTop(e: Term, st: Enc): (Enc, seq<Term>)
    decreases Rank(e), e, 1
  {
    if e.kind.Let? then AssertTop(ExpandLet(e), st)
    else if IsAtom(e) then Asserted(Encode(e, st))
    else if IsLiteral(e) then (st, if IsTrue(e) then [] else [e])
    else if e.kind.And? then AssertAll(e.children, st)
    else if e.kind.Not? && |e.children| == 1 then
      assert HasBinder(e.children[0]) ==> AnyHasBinder(e.children);
      var (l, st1) := Encode(e.children[0], st);
      (st1, [MkNot(l)])
    else if e.kind.Or? then
      var (ls, st1) := EncodeAll(e.children, st);
      (st1, [MkOr(ls)])
    else if e.kind.Xor? && |e.children| >= 1 then
      var (ls, st1) := EncodeAll(e.children, st);
      AssertXor(ls, st1)
    else if e.kind.Implies? && |e.children| >= 1 then
      var (ls, st1) := EncodeAll(e.children, st);
      var n := |ls| - 1;
      (st1, if n == 0 then [ls[0]] else [MkOr(Negs(ls[..n]) + [ls[n]])])
    else if e.kind.Eq? && |e.children| >= 2 && AllBool(e.children) then
      var (ls, st1) := EncodeAll(e.children, st);
      (st1, EqClauses(ls[0], ls[1..]))
    else if e.kind.Distinct? && |e.children| == 2 && AllBool(e.children) then
      var (ls, st1) := EncodeAll(e.children, st);
      (st1, DifferClauses(ls[0], ls[1]))
    else Asserted(Encode(e, st))
  }

  function Asserted(r: (Term, Enc)): (Enc, seq<Term>) { (r.1, [r.0]) }

  function AssertAll(es: seq<Term>, st: Enc): (Enc, seq<Term>)
    decreases RankAll(es), es, 0
  {
    if es == [] then (st, [])
    else
      var n := |es| - 1;
      assert AnyHasBinder(es[..n]) ==> AnyHasBinder(es);
      var (st1, cs) := AssertAll(es[..n], st);
      var (st2, ds) := AssertTop(es[n], st1);
      (st2, cs + ds)
  }

  /** All but the last operand are folded; the last pair is asserted. */
  function AssertXor(ls: seq<Term>, st: Enc): (Enc, seq<Term>)
    requires ls != []
  {
    var n := |ls| - 1;
    if n == 0 then (st, [ls[0]])
    else
      var (r, st1) := FoldXor(ls[..n], st);
      (st1, DifferClauses(r, ls[n]))
  }

  function DifferClauses(a: Term, b: Term): seq<Term> {
    [MkOr([a, b]), MkOr([MkNot(a), MkNot(b)])]
  }

  /** Two clauses for each literal that must equal the first. */
  function EqClauses(first: Term, ls: seq<Term>): seq<Term> {
    if ls == [] then []
    else
      var n := |ls| - 1;
      EqClauses(first, ls[..n]) + [MkOr([MkNot(first), ls[n]]), MkOr([first, MkNot(ls[n])])]
  }

  // ------------------------------------------------------------------
  // What the asserted clauses say, given the steps
  // ------------------------------------------------------------------

  /** The asserted clauses and the formula, by polarity. */
  ghost predicate Asserts(e: Term, cs: seq<Term>, m: Model, exact: bool) {
    && (Faithful(e, false, exact) ==> (AllHold(cs, m) ==> Holds(e, m)))
    && (Faithful(e, true, exact) ==> (Holds(e, m) ==> AllHold(cs, m)))
  }

  lemma OneClause(c: Term, m: Model)
    ensures AllHold([c], m) <==> Holds(c, m)
  {
    hide Holds;
    assert [c][0] == c;
  }

  lemma TwoClauses(c: Term, d: Term, m: Model)
    ensures AllHold([c, d], m) <==> Holds(c, m) && Holds(d, m)
  {
    hide Holds;
    var cs := [c, d];
    assert cs[0] == c && cs[1] == d;
  }

  lemma DifferHold(a: Term, b: Term, m: Model)
    requires IsLit(a) && IsLit(b)
    ensures AllHold(DifferClauses(a, b), m) <==> Holds(a, m) != Holds(b, m)
  {
    hide Holds, MkNot, MkOr, IsLit;
    LitHolds(a, m);
    LitHolds(b, m);
    Clause2(a, b, m);
    Clause2(MkNot(a), MkNot(b), m);
    TwoClauses(MkOr([a, b]), MkOr([MkNot(a), MkNot(b)]), m);
  }

  lemma {:induction false} EqClausesHold(first: Term, ls: seq<Term>, m: Model)
    requires IsLit(first) && AllLits(ls)
    ensures AllHold(EqClauses(first, ls), m) <==>
              forall i | 0 <= i < |ls| :: Truths(ls, m)[i] == Holds(first, m)
  {
    hide Holds, MkNot, MkOr, IsLit;
    if ls != [] {
      var n := |ls| - 1;
      var c, d := MkOr([MkNot(first), ls[n]]), MkOr([first, MkNot(ls[n])]);
      EqClausesHold(first, ls[..n], m);
      AllHoldConcat(EqClauses(first, ls[..n]), [c, d], m);
      TwoClauses(c, d, m);
      LitHolds(first, m);
      LitHolds(ls[n], m);
      Clause2(MkNot(first), ls[n], m);
      Clause2(first, MkNot(ls[n]), m);
      var bs := Truths(ls, m);
      assert Truths(ls[..n], m) == bs[..n];
      assert (forall i | 0 <= i < n :: bs[..n][i] == Holds(first, m)) <==>
             (forall i | 0 <= i < n :: bs[i] == Holds(first, m));
    }
  }

  /** A connective at the root is asserted by the clauses of its shape. */
  lemma AssertConnective(e: Term, ls: seq<Term>, cs: seq<Term>, m: Model, exact: bool)
    requires IsConnective(e.kind) && !IsAtom(e) && !IsLeafOfEncoding(e)
    requires |ls| == |e.children| && AllMean(e.children, ls, m, exact)
    requires Holds(e, m) == Connective(e.kind, Truths(e.children, m))
    requires AllHold(cs, m) <==> Connective(e.kind, Truths(ls, m))
    requires (e.kind.Xor? || e.kind.Eq? || (e.kind.Distinct? && |ls| == 2)) || e.kind.Or? || (e.kind.Implies? && |ls| > 0)
    ensures Asserts(e, cs, m, exact)
  {
    hide Holds, IsAtom, IsLeafOfEncoding, AllMean, AllFaithful, AllHold;
    var es := e.children;
    var xs, ys := Truths(es, m), Truths(ls, m);
    OperandsImplied(es, ls, m, exact);
    if e.kind.Or? {
      ImpliedMonotone(xs, ys);
      ImpliedMonotone(ys, xs);
    } else if e.kind.Implies? {
      if |ls| > 1 {
        AssertImplies(e, ls, cs, m, exact);
      }
    } else if Faithful(e, true, exact) || Faithful(e, false, exact) {
      assert xs == ys;
    }
  }

  lemma AssertImplies(e: Term, ls: seq<Term>, cs: seq<Term>, m: Model, exact: bool)
    requires e.kind.Implies? && !IsAtom(e) && !IsLeafOfEncoding(e)
    requires |ls| == |e.children| && |ls| > 1 && AllMean(e.children, ls, m, exact)
    requires Holds(e, m) == Connective(Implies, Truths(e.children, m))
    requires AllHold(cs, m) <==> Connective(Implies, Truths(ls, m))
    ensures Asserts(e, cs, m, exact)
  {
    hide Holds, IsAtom, IsLeafOfEncoding, AllMean, AllFaithful, AllHold;
    var n, es := |ls| - 1, e.children;
    SliceMeans(es, ls, 0, n, m, exact);
    SliceMeans(es, ls, n, |ls|, m, exact);
    assert es[n..|ls|] == es[n..] && ls[n..|ls|] == ls[n..];
    OperandsImplied(es[..n], ls[..n], m, exact);
    OperandsImplied(es[n..], ls[n..], m, exact);
    var xs, ys := Truths(es, m), Truths(ls, m);
    assert xs[n..][0] == xs[n] && ys[n..][0] == ys[n];
  }

  lemma {:induction false} AssertTopOk(e: Term, st: Enc)
    requires EncOk(st) && Supported(e) && Below(e, Next(st))
    ensures EncOk(AssertTop(e, st).0) && Later(st, AssertTop(e, st).0)
    decreases Rank(e), e, 1
  {
    hide Below, IsLit, EncOk, IsAtom, IsLeafOfEncoding;
    if e.kind.Let? {
      LetSupported(e, Next(st));
      AssertTopOk(ExpandLet(e), st);
    } else if IsAtom(e) || IsLiteral(e) || !IsConnective(e.kind) || e.kind.Ite?
              || (e.kind.Distinct? && |e.children| != 2) {
      EncodeOk(e, st);
    } else {
      RootSupported(e, Next(st));
      if e.kind.And? {
        AssertAllOk(e.children, st);
      } else if e.kind.Not? {
        assert HasBinder(e.children[0]) ==> AnyHasBinder(e.children);
        assert Supported(e.children[0]) && Below(e.children[0], Next(st));
        EncodeOk(e.children[0], st);
      } else {
        EncodeAllOk(e.children, st);
        if e.kind.Xor? {
          AssertXorOk(EncodeAll(e.children, st).0, EncodeAll(e.children, st).1);
        }
      }
    }
  }

  lemma LetSupported(e: Term, n: nat)
    requires Supported(e) && e.kind.Let? && Below(e, n)
    ensures WellFormed(e) && Supported(ExpandLet(e)) && Below(ExpandLet(e), n)
  {
    ExpandBelow(e, n);
  }

  lemma RootSupported(e: Term, n: nat)
    requires Supported(e) && Below(e, n) && !IsAtom(e) && !IsLiteral(e) && !e.kind.Let?
    ensures e.sort == Bool && IsConnective(e.kind) && ArityOk(e.kind, |e.children|)
    ensures AllSupported(e.children) && AllBelow(e.children, n) && AllBool(e.children)
  {
    SupportedAreBool(e.children);
  }

  lemma AssertXorOk(ls: seq<Term>, st: Enc)
    requires EncOk(st) && ls != [] && AllLits(ls) && AllBelow(ls, Next(st))
    ensures EncOk(AssertXor(ls, st).0) && Later(st, AssertXor(ls, st).0)
  {
    hide Below, IsLit, EncOk;
    if |ls| > 1 {
      FoldXorOk(ls[..|ls| - 1], st);
    }
  }

  lemma {:induction false} AssertAllOk(es: seq<Term>, st: Enc)
    requires EncOk(st) && AllSupported(es) && AllBelow(es, Next(st))
    ensures EncOk(AssertAll(es, st).0) && Later(st, AssertAll(es, st).0)
    decreases RankAll(es), es, 0
  {
    hide Below, IsLit, EncOk;
    if es != [] {
      var n := |es| - 1;
      assert AnyHasBinder(es[..n]) ==> AnyHasBinder(es);
      AssertAllOk(es[..n], st);
      BelowGrows(es[n], Next(st), Next(AssertAll(es[..n], st).0));
      AssertTopOk(es[n], AssertAll(es[..n], st).0);
    }
  }

  /** The asserted clauses mean the formula in everything that obeys the
      steps. */
  lemma {:induction false} AssertTopMeans(e: Term, st: Enc, m: Model, exact: bool)
    requires EncOk(st) && Supported(e) && Below(e, Next(st))
    requires AtomsNegated(e, m)
    requires StepsHold(AssertTop(e, st).0, m, exact) && TablesMean(st, m, exact)
    ensures TablesMean(AssertTop(e, st).0, m, exact) && Asserts(e, AssertTop(e, st).1, m, exact)
    decreases Rank(e), e, 2
  {
    hide Below, IsLit, EncOk, IsAtom, IsLeafOfEncoding, Holds, StepsHold, TablesMean, AtomsNegated;
    if e.kind.Let? {
      LetSupported(e, Next(st));
      NodeNegated(e, m);
      AssertTopMeans(ExpandLet(e), st, m, exact);
      LetAsserts(e, AssertTop(ExpandLet(e), st).1, m, exact);
    } else if IsAtom(e) || !IsConnective(e.kind) || e.kind.Ite? || (e.kind.Distinct? && |e.children| != 2) {
      if IsLiteral(e) && !IsAtom(e) {
        LiteralAsserts(e, m, exact);
      } else {
        EncodeMeans(e, st, m, exact);
        OneClause(Encode(e, st).0, m);
      }
    } else if IsLiteral(e) {
      LiteralAsserts(e, m, exact);
    } else {
      RootSupported(e, Next(st));
      NodeNegated(e, m);
      AssertRootMeans(e, st, m, exact);
    }
  }

  lemma {:induction false} NodeNegated(e: Term, m: Model)
    requires AtomsNegated(e, m)
    ensures e.kind.Let? ==> AtomsNegated(ExpandLet(e), m)
    ensures !IsAtom(e) && !IsLiteral(e) && IsConnective(e.kind) ==> AllAtomsNegated(e.children, m)
  {
    hide IsArithTerm, IsStrTerm, Negates;
  }

  lemma LetAsserts(e: Term, cs: seq<Term>, m: Model, exact: bool)
    requires e.kind.Let? && WellFormed(e) && Asserts(ExpandLet(e), cs, m, exact)
    ensures Asserts(e, cs, m, exact)
  {
    hide Value, AllHold;
    ExpandKeepsValue(e, m);
    NotLeaf(e);
  }

  lemma NotLeaf(e: Term)
    requires e.kind.Let?
    ensures !IsAtom(e) && !IsLeafOfEncoding(e)
  {
  }

  lemma LiteralAsserts(e: Term, m: Model, exact: bool)
    requires IsLiteral(e)
    ensures Asserts(e, if IsTrue(e) then [] else [e], m, exact)
  {
    OneClause(e, m);
    ConstantsHold(m);
  }

  lemma {:induction false} AssertRootMeans(e: Term, st: Enc, m: Model, exact: bool)
    requires EncOk(st) && AllSupported(e.children) && AllBelow(e.children, Next(st)) && AllBool(e.children)
    requires AllAtomsNegated(e.children, m)
    requires e.sort == Bool && IsConnective(e.kind) && ArityOk(e.kind, |e.children|)
    requires !IsAtom(e) && !IsLiteral(e) && !e.kind.Ite? && (e.kind.Distinct? ==> |e.children| == 2)
    requires StepsHold(AssertTop(e, st).0, m, exact) && TablesMean(st, m, exact)
    ensures TablesMean(AssertTop(e, st).0, m, exact) && Asserts(e, AssertTop(e, st).1, m, exact)
    decreases Rank(e), e, 1
  {
    hide Below, IsLit, EncOk, IsAtom, IsLiteral, Holds, StepsHold, TablesMean, AllMean, Asserts, AllHold;
    hide AllFaithful, Faithful, Connective, Supported, AtomsNegated;
    var es := e.children;
    ConnectiveHolds(e, m);
    if e.kind.And? {
      AssertAllMeans(es, st, m, exact);
      AndAsserts(e, AssertAll(es, st).1, m, exact);
    } else if e.kind.Not? {
      assert HasBinder(es[0]) ==> AnyHasBinder(es);
      assert Supported(es[0]) && Below(es[0], Next(st)) && AtomsNegated(es[0], m);
      EncodeOk(es[0], st);
      EncodeMeans(es[0], st, m, exact);
      NotAsserts(e, Encode(es[0], st).0, m, exact);
    } else {
      AssertOperandsMeans(e, st, m, exact);
    }
  }

  /** The roots that are asserted from the literals of their operands. */
  ghost predicate RootClauses(k: Kind, ls: seq<Term>, cs: seq<Term>) {
    && (k.Or? ==> cs == [MkOr(ls)])
    && (k.Implies? ==> |ls| >= 1)
    && (k.Implies? ==> cs == if |ls| == 1 then [ls[0]] else [MkOr(Negs(ls[..|ls| - 1]) + [ls[|ls| - 1]])])
    && (k.Eq? ==> |ls| >= 2 && cs == EqClauses(ls[0], ls[1..]))
    && (k.Distinct? ==> |ls| == 2 && cs == DifferClauses(ls[0], ls[1]))
  }

  lemma {:induction false} RootShape(e: Term, st: Enc)
    requires AllBool(e.children) && IsConnective(e.kind) && ArityOk(e.kind, |e.children|)
    requires !IsAtom(e) && !IsLiteral(e) && (e.kind.Distinct? ==> |e.children| == 2)
    ensures var (ls, st1) := EncodeAll(e.children, st);
            && (e.kind.Xor? ==> AssertTop(e, st) == AssertXor(ls, st1))
            && (e.kind.Or? || e.kind.Implies? || e.kind.Eq? || e.kind.Distinct? ==> AssertTop(e, st).0 == st1)
            && (!e.kind.And? && !e.kind.Not? ==> RootClauses(e.kind, ls, AssertTop(e, st).1))
  {
    hide IsAtom, IsLiteral, EqClauses, MkOr, MkNot, EncodeAll, AssertXor, DifferClauses, Negs;
  }

  lemma {:induction false} AssertOperandsMeans(e: Term, st: Enc, m: Model, exact: bool)
    requires EncOk(st) && AllSupported(e.children) && AllBelow(e.children, Next(st)) && AllBool(e.children)
    requires AllAtomsNegated(e.children, m)
    requires IsConnective(e.kind) && ArityOk(e.kind, |e.children|) && (e.kind.Distinct? ==> |e.children| == 2)
    requires !IsAtom(e) && !IsLiteral(e) && !e.kind.Ite? && !e.kind.And? && !e.kind.Not?
    requires Holds(e, m) == Connective(e.kind, Truths(e.children, m))
    requires StepsHold(AssertTop(e, st).0, m, exact) && TablesMean(st, m, exact)
    ensures TablesMean(AssertTop(e, st).0, m, exact) && Asserts(e, AssertTop(e, st).1, m, exact)
    decreases Rank(e), e, 0
  {
    hide Below, IsLit, EncOk, IsAtom, IsLiteral, Holds, StepsHold, TablesMean, AllMean, Asserts, AllHold;
    hide AllFaithful, Faithful, Connective, AssertTop, RootClauses, AssertXor, Supported, AtomsNegated, Encode;
    var (ls, st1) := EncodeAll(e.children, st);
    EncodeAllOk(e.children, st);
    RootShape(e, st);
    if e.kind.Xor? {
      AssertXorMeans(e.children, st, m, exact);
    } else {
      EncodeAllMeans(e.children, st, m, exact);
    }
    RootClausesHold(e.kind, ls, AssertTop(e, st).1, m);
    AssertConnective(e, ls, AssertTop(e, st).1, m, exact);
  }

  lemma {:induction false} AssertXorMeans(es: seq<Term>, st: Enc, m: Model, exact: bool)
    requires EncOk(st) && AllSupported(es) && AllBelow(es, Next(st)) && es != []
    requires AllAtomsNegated(es, m)
    requires var (ls, st1) := EncodeAll(es, st);
             StepsHold(AssertXor(ls, st1).0, m, exact) && TablesMean(st, m, exact)
    ensures var (ls, st1) := EncodeAll(es, st);
            && TablesMean(AssertXor(ls, st1).0, m, exact) && AllMean(es, ls, m, exact)
            && (AllHold(AssertXor(ls, st1).1, m) <==> Parity(Truths(ls, m)))
  {
    hide Below, IsLit, EncOk, Holds, StepsHold, TablesMean, AllMean, AllHold;
    var (ls, st1) := EncodeAll(es, st);
    EncodeAllOk(es, st);
    AssertXorOk(ls, st1);
    StepsHoldEarlier(st1, AssertXor(ls, st1).0, m, exact);
    EncodeAllMeans(es, st, m, exact);
    AssertXorHolds(ls, st1, m, exact);
  }

  lemma AssertXorHolds(ls: seq<Term>, st: Enc, m: Model, exact: bool)
    requires EncOk(st) && ls != [] && AllLits(ls) && AllBelow(ls, Next(st))
    requires StepsHold(AssertXor(ls, st).0, m, exact) && TablesMean(st, m, exact)
    ensures AllHold(AssertXor(ls, st).1, m) <==> Parity(Truths(ls, m))
    ensures TablesMean(AssertXor(ls, st).0, m, exact)
  {
    hide Holds, Below, IsLit, AllHold;
    var n, bs := |ls| - 1, Truths(ls, m);
    assert Truths(ls[..n], m) == bs[..n];
    if n == 0 {
      OneClause(ls[0], m);
    } else {
      var (r, st1) := FoldXor(ls[..n], st);
      FoldXorOk(ls[..n], st);
      FoldXorMeans(ls[..n], st, m, exact);
      SameTables(st, st1, m, exact);
      DifferHold(r, ls[n], m);
    }
  }

  /** The clauses a root connective is asserted with, for the kinds that emit
      them straight from the operands' literals. */
  lemma RootClausesHold(k: Kind, ls: seq<Term>, cs: seq<Term>, m: Model)
    requires AllLits(ls)
    requires k.Xor? ==> (AllHold(cs, m) <==> Parity(Truths(ls, m)))
    requires RootClauses(k, ls, cs)
    ensures k.Xor? || k.Or? || k.Implies? || k.Eq? || k.Distinct? ==>
              (AllHold(cs, m) <==> Connective(k, Truths(ls, m)))
  {
    hide Holds, IsLit, AllHold, MkOr, MkNot;
    var bs := Truths(ls, m);
    if k.Or? {
      OneClause(MkOr(ls), m);
      ClauseHolds(ls, m);
    } else if k.Implies? {
      var n := |ls| - 1;
      if n == 0 {
        OneClause(ls[0], m);
      } else {
        NegsHold(ls[..n], m);
        LongClause(Negs(ls[..n]), ls[n], m);
        OneClause(MkOr(Negs(ls[..n]) + [ls[n]]), m);
        assert Truths(ls[..n], m) == bs[..n];
      }
    } else if k.Eq? {
      EqClausesHold(ls[0], ls[1..], m);
      assert forall i | 1 <= i < |ls| :: bs[i] == Truths(ls[1..], m)[i - 1];
    } else if k.Distinct? {
      DifferHold(ls[0], ls[1], m);
    }
  }

  lemma NotAsserts(e: Term, l: Term, m: Model, exact: bool)
    requires e.kind.Not? && |e.children| == 1 && !IsAtom(e) && IsLit(l)
    requires Means(e.children[0], l, m, exact)
    requires Holds(e, m) == Connective(Not, Truths(e.children, m))
    ensures Asserts(e, [MkNot(l)], m, exact)
  {
    hide Holds, IsAtom, IsLit, AllHold, MkNot;
    LitHolds(l, m);
    OneClause(MkNot(l), m);
    assert Truths(e.children, m)[0] == Holds(e.children[0], m);
    if IsLeafOfEncoding(e) {
      VariableFaithful(e.children[0], exact);
    } else {
      assert AllFaithful(e.children, true, exact) ==> Faithful(e.children[0], true, exact);
      assert AllFaithful(e.children, false, exact) ==> Faithful(e.children[0], false, exact);
    }
  }

  lemma VariableFaithful(l: Term, exact: bool)
    requires IsLeafOfEncoding(l)
    ensures Faithful(l, true, exact) && Faithful(l, false, exact)
  {
  }

  ghost predicate AssertsAll(es: seq<Term>, cs: seq<Term>, m: Model, exact: bool) {
    && (AllFaithful(es, false, exact) ==> (AllHold(cs, m) ==> AllOf(Truths(es, m))))
    && (AllFaithful(es, true, exact) ==> (AllOf(Truths(es, m)) ==> AllHold(cs, m)))
  }

  lemma AndAsserts(e: Term, cs: seq<Term>, m: Model, exact: bool)
    requires e.kind.And? && !IsAtom(e) && !IsLiteral(e) && AssertsAll(e.children, cs, m, exact)
    requires Holds(e, m) == Connective(And, Truths(e.children, m))
    ensures Asserts(e, cs, m, exact)
  {
    hide Holds, IsAtom, AllHold, IsLiteral, AllFaithful;
  }

  lemma {:induction false} AssertAllMeans(es: seq<Term>, st: Enc, m: Model, exact: bool)
    requires EncOk(st) && AllSupported(es) && AllBelow(es, Next(st))
    requires AllAtomsNegated(es, m)
    requires StepsHold(AssertAll(es, st).0, m, exact) && TablesMean(st, m, exact)
    ensures TablesMean(AssertAll(es, st).0, m, exact)
    ensures AssertsAll(es, AssertAll(es, st).1, m, exact)
    decreases RankAll(es), es, 0
  {
    hide Below, EncOk, StepsHold, TablesMean, Holds, AllHold, Asserts, AssertsAll;
    if es == [] {
      NothingAsserted(m, exact);
    } else {
      var n := |es| - 1;
      assert AnyHasBinder(es[..n]) ==> AnyHasBinder(es);
      var (st1, cs) := AssertAll(es[..n], st);
      AssertAllOk(es[..n], st);
      BelowGrows(es[n], Next(st), Next(st1));
      AssertTopOk(es[n], st1);
      StepsHoldEarlier(st1, AssertAll(es, st).0, m, exact);
      AssertAllMeans(es[..n], st, m, exact);
      AssertTopMeans(es[n], st1, m, exact);
      AssertsSnoc(es, cs, AssertTop(es[n], st1).1, m, exact);
    }
  }

  lemma NothingAsserted(m: Model, exact: bool)
    ensures AssertsAll([], [], m, exact)
  {
  }

  lemma AssertsSnoc(es: seq<Term>, cs: seq<Term>, ds: seq<Term>, m: Model, exact: bool)
    requires es != [] && AssertsAll(es[..|es| - 1], cs, m, exact) && Asserts(es[|es| - 1], ds, m, exact)
    ensures AssertsAll(es, cs + ds, m, exact)
  {
    hide Holds, AllHold, Faithful;
    var n, bs := |es| - 1, Truths(es, m);
    AllHoldConcat(cs, ds, m);
    assert Truths(es[..n], m) == bs[..n];
    assert AllOf(bs) <==> AllOf(bs[..n]) && bs[n];
    assert AllFaithful(es, true, exact) ==> AllFaithful(es[..n], true, exact) && Faithful(es[n], true, exact);
    assert AllFaithful(es, false, exact) ==> AllFaithful(es[..n], false, exact) && Faithful(es[n], false, exact);
  }
}
