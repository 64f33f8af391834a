// The clauses are clauses, and what they name in place of a subterm is an atom.
module CnfShape {
  import opened Terms
  import opened Builders
  import opened LetExpansion
  import opened Grammar
  import opened Tseitin
  import opened CnfEncoder
  import opened CnfMeaning
  import opened TopLevelCnf
  import opened CnfTheorems
  import opened Formulas

  /** Boolean variables and constants, and negated variables. */
  predicate IsPlainLiteral(t: Term) {
    || IsBoolVariable(t) || IsBoolValue(t)
    || (t.sort == Bool && t.kind.Not? && |t.children| == 1 && IsBoolVariable(t.children[0]))
  }

  /** One literal, or a disjunction of them. */
  predicate IsClause(t: Term) {
    IsPlainLiteral(t) || (t.sort == Bool && t.kind.Or? && forall i | 0 <= i < |t.children| :: IsPlainLiteral(t.children[i]))
  }

  predicate AllClauses(cs: seq<Term>) { forall i | 0 <= i < |cs| :: IsClause(cs[i]) }

  lemma LitsListed(t: Term)
    ensures IsLit(t) <==> IsPlainLiteral(t)
  {
  }

  lemma NegatedLit(l: Term)
    requires IsLit(l)
    ensures IsLit(MkNot(l))
  {
  }

  lemma NegatedLits(ls: seq<Term>)
    requires AllLits(ls)
    ensures AllLits(Negs(ls))
  {
    hide IsLit, MkNot;
    forall i | 0 <= i < |ls|
      ensures IsLit(Negs(ls)[i])
    {
      NegatedLit(ls[i]);
    }
  }

  lemma ClauseOfLits(ls: seq<Term>)
    requires AllLits(ls)
    ensures IsClause(MkOr(ls))
  {
    hide MkOr, IsLit, IsPlainLiteral;
    JunctionShape(ls);
    var o := MkOr(ls);
    forall c | c in ls
      ensures IsPlainLiteral(c)
    {
      var i :| 0 <= i < |ls| && ls[i] == c;
      assert IsLit(ls[i]);
      LitsListed(c);
    }
    LitsListed(TrueTerm);
    LitsListed(FalseTerm);
    assert IsLit(TrueTerm) && IsLit(FalseTerm) by {
      ConstantLits();
    }
    if o.kind.Or? {
      assert forall i | 0 <= i < |o.children| :: o.children[i] in o.children;
    }
  }

  lemma ConstantLits()
    ensures IsLit(TrueTerm) && IsLit(FalseTerm)
  {
  }

  lemma PairShape(a: Term, ls: seq<Term>)
    requires IsLit(a) && AllLits(ls)
    ensures AllClauses(PairClauses(a, ls)) && AllClauses(PairClausesLeft(ls, a))
  {
    hide MkOr, IsLit, IsClause;
    forall i | 0 <= i < |ls|
      ensures IsClause(PairClauses(a, ls)[i]) && IsClause(PairClausesLeft(ls, a)[i])
    {
      ClauseOfLits([a, ls[i]]);
      ClauseOfLits([ls[i], a]);
    }
  }

  lemma ThreeLits(a: Term, b: Term, c: Term)
    requires IsLit(a) && IsLit(b) && IsLit(c)
    ensures IsClause(MkOr([a, b, c]))
  {
    hide MkOr, IsLit, IsClause;
    ClauseOfLits([a, b, c]);
  }

  lemma GateShape(k: Kind, c: Term, ls: seq<Term>)
    requires GateOk(k, |ls|) && IsLit(c) && AllLits(ls)
    ensures AllClauses(GateClauses(k, c, ls))
  {
    hide GateClauses, IsLit, IsClause;
    match k
    case Not => NotShape(c, ls);
    case And => JunctionsShape(c, ls);
    case Or => JunctionsShape(c, ls);
    case Implies => ImpliesShape(c, ls);
    case Ite => IteShape(c, ls);
    case _ => BinaryShape(k, c, ls);
  }

  lemma NotShape(c: Term, ls: seq<Term>)
    requires |ls| == 1 && IsLit(c) && AllLits(ls)
    ensures AllClauses(GateClauses(Not, c, ls))
  {
    hide MkOr, MkNot, IsLit, IsClause;
    NegatedLit(c);
    NegatedLit(ls[0]);
    ClauseOfLits([MkNot(c), MkNot(ls[0])]);
    ClauseOfLits([ls[0], c]);
  }

  lemma JunctionsShape(c: Term, ls: seq<Term>)
    requires ls != [] && IsLit(c) && AllLits(ls)
    ensures AllClauses(GateClauses(And, c, ls)) && AllClauses(GateClauses(Or, c, ls))
  {
    hide MkOr, MkNot, IsLit, IsClause;
    NegatedLit(c);
    NegatedLits(ls);
    PairShape(MkNot(c), ls);
    ClauseOfLits(Negs(ls) + [c]);
    PairShape(c, Negs(ls));
    ClauseOfLits(ls + [MkNot(c)]);
  }

  lemma ImpliesShape(c: Term, ls: seq<Term>)
    requires ls != [] && IsLit(c) && AllLits(ls)
    ensures AllClauses(GateClauses(Implies, c, ls))
  {
    hide MkOr, MkNot, IsLit, IsClause;
    var n := |ls| - 1;
    NegatedLit(c);
    NegatedLits(ls);
    NegatedLits(ls[..n]);
    ClauseOfLits([MkNot(c)] + Negs(ls[..n]) + [ls[n]]);
    ClauseOfLits(Negs(ls) + [c]);
  }

  lemma IteShape(c: Term, ls: seq<Term>)
    requires |ls| == 3 && IsLit(c) && AllLits(ls)
    ensures AllClauses(GateClauses(Ite, c, ls))
  {
    hide MkOr, MkNot, IsLit, IsClause;
    var a, b, d := ls[0], ls[1], ls[2];
    NegatedLit(a);
    NegatedLit(b);
    NegatedLit(c);
    NegatedLit(d);
    ThreeLits(MkNot(c), MkNot(a), b);
    ThreeLits(MkNot(c), a, d);
    ThreeLits(c, MkNot(a), MkNot(b));
    ThreeLits(c, a, MkNot(d));
  }

  lemma BinaryShape(k: Kind, c: Term, ls: seq<Term>)
    requires (k.Xor? || k.Eq? || k.Distinct?) && |ls| == 2 && IsLit(c) && AllLits(ls)
    ensures AllClauses(GateClauses(k, c, ls))
  {
    hide MkOr, MkNot, IsLit, IsClause;
    var a, b := ls[0], ls[1];
    NegatedLit(a);
    NegatedLit(b);
    NegatedLit(c);
    ThreeLits(MkNot(c), MkNot(a), MkNot(b));
    ThreeLits(MkNot(c), a, b);
    ThreeLits(c, MkNot(a), b);
    ThreeLits(c, a, MkNot(b));
    ThreeLits(MkNot(c), a, MkNot(b));
    ThreeLits(MkNot(c), MkNot(a), b);
    ThreeLits(c, a, b);
    ThreeLits(c, MkNot(a), MkNot(b));
  }

  lemma {:induction false} DefinitionShape(base: nat, steps: seq<Step>)
    requires StepsOk(base, steps)
    ensures AllClauses(ClausesOf(base, steps))
  {
    hide GateClauses, IsLit, IsClause, Below, IsAtomic;
    if steps != [] {
      var n := |steps| - 1;
      forall i | 0 <= i < n
        ensures StepOk(steps[..n][i], base + i)
      {
        assert steps[i] == steps[..n][i];
      }
      DefinitionShape(base, steps[..n]);
      assert StepOk(steps[n], base + n);
      if steps[n].Gate? {
        FreshLit(base + n);
        GateShape(steps[n].k, TempTerm(base + n), steps[n].ls);
      }
    }
  }

  // ------------------------------------------------------------------
  // Asserted clauses
  // ------------------------------------------------------------------

  lemma LitIsClause(l: Term)
    requires IsLit(l)
    ensures AllClauses([l])
  {
    LitsListed(l);
  }

  lemma DifferShape(a: Term, b: Term)
    requires IsLit(a) && IsLit(b)
    ensures AllClauses(DifferClauses(a, b))
  {
    hide MkOr, MkNot, IsLit, IsClause;
    NegatedLit(a);
    NegatedLit(b);
    ClauseOfLits([a, b]);
    ClauseOfLits([MkNot(a), MkNot(b)]);
  }

  lemma {:induction false} EqShape(first: Term, ls: seq<Term>)
    requires IsLit(first) && AllLits(ls)
    ensures AllClauses(EqClauses(first, ls))
  {
    hide MkOr, MkNot, IsLit, IsClause;
    if ls != [] {
      var n := |ls| - 1;
      EqShape(first, ls[..n]);
      NegatedLit(first);
      NegatedLit(ls[n]);
      ClauseOfLits([MkNot(first), ls[n]]);
      ClauseOfLits([first, MkNot(ls[n])]);
    }
  }

  lemma {:induction false} AssertedShape(e: Term, st: Enc)
    requires EncOk(st) && Supported(e) && Below(e, Next(st))
    ensures AllClauses(AssertTop(e, st).1)
    decreases Rank(e), e, 1
  {
    hide Below, IsLit, EncOk, IsAtom, IsLeafOfEncoding, IsClause, MkNot, MkOr, Encode, EncodeAll;
    if e.kind.Let? {
      LetSupported(e, Next(st));
      AssertedShape(ExpandLet(e), st);
    } else if IsAtom(e) {
      EncodeOk(e, st);
      LitIsClause(Encode(e, st).0);
    } else if IsLiteral(e) {
      LiteralSupported(e);
      LitIsClause(e);
    } else if !IsConnective(e.kind) || e.kind.Ite? || (e.kind.Distinct? && |e.children| != 2) {
      EncodeOk(e, st);
      LitIsClause(Encode(e, st).0);
    } else {
      RootSupported(e, Next(st));
      if e.kind.And? {
        AssertedAllShape(e.children, st);
      } else if e.kind.Not? {
        assert HasBinder(e.children[0]) ==> AnyHasBinder(e.children);
        assert Supported(e.children[0]) && Below(e.children[0], Next(st)) by { FirstOperand(e.children, Next(st)); }
        EncodeOk(e.children[0], st);
        NegatedLit(Encode(e.children[0], st).0);
        LitIsClause(MkNot(Encode(e.children[0], st).0));
      } else {
        EncodeAllOk(e.children, st);
        RootShape(e, EncodeAll(e.children, st).0, EncodeAll(e.children, st).1, st);
      }
    }
  }

  lemma LiteralSupported(e: Term)
    requires IsLiteral(e) && Supported(e)
    ensures IsLit(e)
  {
  }

  lemma FirstOperand(es: seq<Term>, n: nat)
    requires es != [] && AllSupported(es) && AllBelow(es, n)
    ensures Supported(es[0]) && Below(es[0], n)
  {
  }

  /** The clauses of a connective at the root over the literals of its
      operands. */
  lemma RootShape(e: Term, ls: seq<Term>, st1: Enc, st: Enc)
    requires e.kind.Or? || e.kind.Xor? || e.kind.Implies? || e.kind.Eq? || (e.kind.Distinct? && |e.children| == 2)
    requires ArityOk(e.kind, |e.children|) && AllBool(e.children) && !IsAtom(e) && !IsLiteral(e)
    requires (ls, st1) == EncodeAll(e.children, st) && EncOk(st1) && AllLits(ls) && AllBelow(ls, Next(st1))
    ensures AllClauses(AssertTop(e, st).1)
  {
    hide Below, IsLit, EncOk, IsAtom, IsLiteral, IsClause, MkNot, MkOr, Encode, EncodeAll, AllBool, FoldXor;
    match e.kind
    case Or => ClauseOfLits(ls);
    case Xor =>
      var n := |ls| - 1;
      if n == 0 {
        LitIsClause(ls[0]);
      } else {
        FoldXorOk(ls[..n], st1);
        DifferShape(FoldXor(ls[..n], st1).0, ls[n]);
      }
    case Implies =>
      var n := |ls| - 1;
      NegatedLits(ls[..n]);
      LitIsClause(ls[n]);
      ClauseOfLits(Negs(ls[..n]) + [ls[n]]);
    case Eq => EqShape(ls[0], ls[1..]);
    case Distinct => DifferShape(ls[0], ls[1]);
  }

  lemma {:induction false} AssertedAllShape(es: seq<Term>, st: Enc)
    requires EncOk(st) && AllSupported(es) && AllBelow(es, Next(st))
    ensures AllClauses(AssertAll(es, st).1)
    decreases RankAll(es), es, 0
  {
    hide Below, IsLit, EncOk, IsClause, AssertTop, Supported;
    if es != [] {
      var n := |es| - 1;
      assert AnyHasBinder(es[..n]) ==> AnyHasBinder(es);
      assert HasBinder(es[n]) ==> AnyHasBinder(es);
      AssertedAllShape(es[..n], st);
      AssertAllOk(es[..n], st);
      var st1 := AssertAll(es[..n], st).0;
      BelowGrows(es[n], Next(st), Next(st1));
      AssertedShape(es[n], st1);
    }
  }

  /** Every clause of a formula, definitions and assertions alike, is a
      disjunction of Boolean variables, their negations and constants. */
  lemma CnfIsClausal(e: Term, base: nat)
    requires Formula(e) && Below(e, base)
    ensures AllClauses(TopClauses(e, base))
  {
    hide Formula, Below, IsClause, AssertTop, ClausesOf, Supported;
    FormulaSupported(e);
    TopStart(e, base);
    StartIsOk(base);
    AssertedShape(e, Start(base));
    DefinitionShape(base, AssertTop(e, Start(base)).0.steps);
  }

  lemma StartIsOk(base: nat)
    ensures EncOk(Start(base))
  {
  }

  // ------------------------------------------------------------------
  // Abstracted atoms
  // ------------------------------------------------------------------

  /** Only atoms are replaced by a variable without a definition. */
  ghost predicate AbstractsAtoms(steps: seq<Step>) {
    forall i {:trigger steps[i]} | 0 <= i < |steps| && steps[i].Abstract? :: IsAtomic(steps[i].atom)
  }

  lemma {:induction false} EncodeAbstractsAtoms(e: Term, st: Enc)
    requires AbstractsAtoms(st.steps)
    ensures AbstractsAtoms(Encode(e, st).1.steps)
    decreases Rank(e), e, 1
  {
    hide IsAtomic, IsAtom, IsLeafOfEncoding, MkNot, FoldXor;
    LeavesListed(e);
    if IsAtom(e) || IsLeafOfEncoding(e) || e in st.visited {
    } else if e.kind.Let? {
      EncodeAbstractsAtoms(ExpandLet(e), st);
    } else if !IsConnective(e.kind) || !ArityOk(e.kind, |e.children|)
              || ((e.kind.Eq? || e.kind.Distinct?) && !AllBool(e.children)) {
    } else if e.kind.Xor? {
      AllAbstractAtoms(e.children, st);
      FoldAbstractsAtoms(EncodeAll(e.children, st).0, EncodeAll(e.children, st).1);
    } else if e.kind.Eq? && |e.children| != 2 {
      assert HasBinder(e.children[0]) ==> AnyHasBinder(e.children);
      assert AnyHasBinder(e.children[1..]) ==> AnyHasBinder(e.children);
      var (first, st1) := Encode(e.children[0], st);
      EncodeAbstractsAtoms(e.children[0], st);
      EqsAbstractAtoms(first, e.children[1..], st1);
    } else if !(e.kind.Distinct? && |e.children| > 2) {
      AllAbstractAtoms(e.children, st);
    }
  }

  lemma {:induction false} AllAbstractAtoms(es: seq<Term>, st: Enc)
    requires AbstractsAtoms(st.steps)
    ensures AbstractsAtoms(EncodeAll(es, st).1.steps)
    decreases RankAll(es), es, 0
  {
    hide AbstractsAtoms, Encode;
    if es != [] {
      var n := |es| - 1;
      assert AnyHasBinder(es[..n]) ==> AnyHasBinder(es);
      assert HasBinder(es[n]) ==> AnyHasBinder(es);
      AllAbstractAtoms(es[..n], st);
      EncodeAbstractsAtoms(es[n], EncodeAll(es[..n], st).1);
    }
  }

  lemma {:induction false} EqsAbstractAtoms(first: Term, es: seq<Term>, st: Enc)
    requires AbstractsAtoms(st.steps)
    ensures AbstractsAtoms(EncodeEqs(first, es, st).1.steps)
    decreases RankAll(es), es, 0
  {
    hide Encode, IsAtomic;
    if es != [] {
      var n := |es| - 1;
      assert AnyHasBinder(es[..n]) ==> AnyHasBinder(es);
      assert HasBinder(es[n]) ==> AnyHasBinder(es);
      EqsAbstractAtoms(first, es[..n], st);
      EncodeAbstractsAtoms(es[n], EncodeEqs(first, es[..n], st).1);
    }
  }

  lemma {:induction false} FoldAbstractsAtoms(ls: seq<Term>, st: Enc)
    requires ls != [] && AbstractsAtoms(st.steps)
    ensures AbstractsAtoms(FoldXor(ls, st).1.steps)
    decreases |ls|
  {
    hide IsAtomic;
    if |ls| > 1 {
      FoldAbstractsAtoms(ls[..|ls| - 1], st);
    }
  }

  /** Asserting a formula names nothing else either. */
  lemma {:induction false} AssertAbstractsAtoms(e: Term, st: Enc)
    requires AbstractsAtoms(st.steps)
    ensures AbstractsAtoms(AssertTop(e, st).0.steps)
    decreases Rank(e), e, 1
  {
    hide Encode, EncodeAll, IsAtom, IsLiteral, AbstractsAtoms, FoldXor, AllBool;
    EncodeAbstractsAtoms(e, st);
    AllAbstractAtoms(e.children, st);
    if e.kind.Let? {
      AssertAbstractsAtoms(ExpandLet(e), st);
    } else if IsAtom(e) || IsLiteral(e) {
    } else if e.kind.And? {
      AssertAllAbstractAtoms(e.children, st);
    } else if e.kind.Not? && |e.children| == 1 {
      assert HasBinder(e.children[0]) ==> AnyHasBinder(e.children);
      EncodeAbstractsAtoms(e.children[0], st);
    } else if e.kind.Xor? && |e.children| > 1 {
      FoldAbstractsAtoms(EncodeAll(e.children, st).0[..|e.children| - 1], EncodeAll(e.children, st).1);
    }
  }

  lemma {:induction false} AssertAllAbstractAtoms(es: seq<Term>, st: Enc)
    requires AbstractsAtoms(st.steps)
    ensures AbstractsAtoms(AssertAll(es, st).0.steps)
    decreases RankAll(es), es, 0
  {
    hide AssertTop, AbstractsAtoms;
    if es != [] {
      var n := |es| - 1;
      assert AnyHasBinder(es[..n]) ==> AnyHasBinder(es);
      assert HasBinder(es[n]) ==> AnyHasBinder(es);
      AssertAllAbstractAtoms(es[..n], st);
      AssertAbstractsAtoms(es[n], AssertAll(es[..n], st).0);
    }
  }
}
