// Every formula of the grammar is taken by every conversion.
module Formulas {
  import opened Terms
  import opened Builders
  import opened LetExpansion
  import opened Grammar
  import opened Tseitin
  import opened Implications
  import opened Nnf
  import opened CnfEncoder
  import opened CnfMeaning
  import opened TopLevelCnf
  import CnfTheorems
  import opened DnfElimination
  import opened DnfRounds

  /** The terms the conversions leave as they are, and those mkNot swaps. */
  lemma LeavesListed(t: Term)
    ensures IsComp(t) <==> IsComparison(t)
    ensures IsAtom(t) <==> IsAtomic(t)
    ensures IsBoolLeaf(t) <==> IsBoolVariable(t) || IsBoolValue(t)
    ensures IsLeafOfEncoding(t) <==>
              || IsBoolVariable(t) || IsBoolValue(t) || t.kind.TempVar?
              || (t.kind.Not? && |t.children| == 1 && IsBoolVariable(t.children[0]))
    ensures IsDnfLeaf(t) <==> IsAtomic(t) || IsLeafOfEncoding(t)
  {
  }

  /** The encoder takes exactly the formulas. */
  lemma {:induction false} FormulaSupported(t: Term)
    ensures Supported(t) <==> Formula(t)
    decreases Rank(t), t
  {
    hide IsAtom, IsLeafOfEncoding, IsAtomic, IsComparison;
    LeavesListed(t);
    if IsAtom(t) {
    } else if IsLeafOfEncoding(t) {
      if t.sort == Bool {
        LeafIsFormula(t);
      }
    } else if t.kind.Let? {
      if WellFormed(t) {
        FormulaSupported(ExpandLet(t));
        ExpandKeepsSort(t);
      }
    } else {
      FormulasSupported(t.children);
    }
  }

  lemma LeafIsFormula(t: Term)
    requires IsLeafOfEncoding(t) && t.sort == Bool
    ensures Formula(t)
  {
    if t.kind.Not? {
      assert Formula(t.children[0]);
      assert AllFormulas(t.children);
    }
  }

  lemma {:induction false} FormulasSupported(ts: seq<Term>)
    ensures AllSupported(ts) <==> AllFormulas(ts)
    decreases RankAll(ts), ts
  {
    forall i | 0 <= i < |ts|
      ensures Supported(ts[i]) <==> Formula(ts[i])
    {
      assert HasBinder(ts[i]) ==> AnyHasBinder(ts);
      FormulaSupported(ts[i]);
    }
  }

  // ------------------------------------------------------------------
  // Promises about formulas
  // ------------------------------------------------------------------

  lemma {:induction false} BinaryNegated(t: Term)
    requires Formula(t) && Binary(t)
    ensures CnfTheorems.BinaryAtoms(t)
    decreases Rank(t), t
  {
    hide IsAtomic, IsComparison, IsAtom, IsLeafOfEncoding, IsComp, IsBoolVariable, IsBoolValue;
    LeavesListed(t);
    if !IsAtom(t) && !IsLeafOfEncoding(t) {
      if t.kind.Let? {
        BinaryNegated(ExpandLet(t));
      } else {
        forall i | 0 <= i < |t.children|
          ensures CnfTheorems.BinaryAtoms(t.children[i])
        {
          assert HasBinder(t.children[i]) ==> AnyHasBinder(t.children);
          assert Formula(t.children[i]) && Binary(t.children[i]);
          BinaryNegated(t.children[i]);
        }
      }
    }
  }

  lemma {:induction false} UnconditionalFaithful(t: Term, up: bool)
    requires Formula(t) && Unconditional(t)
    ensures Faithful(t, up, false)
    decreases Rank(t), t, 1
  {
    hide IsAtomic, IsComparison, IsAtom, IsLeafOfEncoding, IsBoolVariable, IsBoolValue;
    LeavesListed(t);
    if !IsAtom(t) && !IsLeafOfEncoding(t) {
      if t.kind.Let? {
        UnconditionalFaithful(ExpandLet(t), up);
      } else {
        AllUnconditionalFaithful(t.children, true);
        AllUnconditionalFaithful(t.children, false);
        if t.kind.Ite? {
          PartsFaithful(t.children, true);
          PartsFaithful(t.children, false);
        }
      }
    }
  }

  lemma {:induction false} AllUnconditionalFaithful(ts: seq<Term>, up: bool)
    requires AllFormulas(ts) && AllUnconditional(ts)
    ensures AllFaithful(ts, up, false)
    decreases RankAll(ts), ts, 0
  {
    forall i | 0 <= i < |ts|
      ensures Faithful(ts[i], up, false)
    {
      assert HasBinder(ts[i]) ==> AnyHasBinder(ts);
      assert Formula(ts[i]) && Unconditional(ts[i]);
      UnconditionalFaithful(ts[i], up);
    }
  }

  lemma PartsFaithful(ts: seq<Term>, up: bool)
    requires AllFaithful(ts, up, false) && |ts| == 3
    ensures AllFaithful(ts[..1], up, false) && AllFaithful(ts[1..], up, false)
  {
    hide Faithful;
  }

  /** A formula whose comparisons have two operands and which has no
      implication: a valuation of its variables satisfies it if and only if it
      extends to one satisfying the clauses. */
  lemma FormulaEncoded(t: Term, base: nat, m: Model)
    requires Formula(t) && Binary(t) && Unconditional(t) && Below(t, base)
    ensures Holds(t, m) <==> exists m' :: AgreeBelow(m, m', base) && CnfTheorems.SatisfiesCnf(t, base, m')
  {
    hide *;
    FormulaSupported(t);
    BinaryNegated(t);
    CnfTheorems.BinaryAtomsNegated(t, m);
    UnconditionalFaithful(t, false);
    CnfTheorems.TopLevelEquisatisfiable(t, base, m);
  }

  lemma {:induction false} FormulaNnfInput(t: Term, neg: bool)
    requires Formula(t) && Binary(t)
    ensures NnfInput(t, neg, TwoOperands())
    decreases Rank(t), t, 1
  {
    hide IsAtomic, IsComparison, IsAtom, IsComp, IsBoolVariable, IsBoolValue, IsBoolLeaf;
    LeavesListed(t);
    if IsAtomic(t) || IsBoolVariable(t) || IsBoolValue(t) {
      AtomNnfInput(t, neg);
    } else if t.kind.Let? {
      FormulaNnfInput(ExpandLet(t), neg);
    } else {
      assert forall i | 0 <= i < |t.children| :: Formula(t.children[i]) && Binary(t.children[i]);
      AllFormulaNnfInput(t.children, neg);
      AllFormulaNnfInput(t.children, !neg);
      ConnectiveNnfInput(t, neg);
    }
  }

  lemma AtomNnfInput(t: Term, neg: bool)
    requires Formula(t) && Binary(t) && (IsAtomic(t) || IsBoolVariable(t) || IsBoolValue(t))
    ensures NnfInput(t, neg, TwoOperands())
  {
    LeavesListed(t);
  }

  lemma ConnectiveNnfInput(t: Term, neg: bool)
    requires Formula(t) && Binary(t) && !IsAtomic(t) && !IsBoolVariable(t) && !IsBoolValue(t) && !t.kind.Let?
    requires AllNnfInput(t.children, neg, TwoOperands()) && AllNnfInput(t.children, !neg, TwoOperands())
    ensures NnfInput(t, neg, TwoOperands())
  {
    hide IsComparison, IsAtom, IsComp, IsBoolVariable, IsBoolValue, IsBoolLeaf;
    LeavesListed(t);
    forall i | 0 <= i < |t.children|
      ensures Formula(t.children[i]) && t.children[i].sort == Bool
      ensures NnfInput(t.children[i], true, TwoOperands()) && NnfInput(t.children[i], false, TwoOperands())
    {
      assert NnfInput(t.children[i], neg, TwoOperands()) && NnfInput(t.children[i], !neg, TwoOperands());
    }
    assert AllBool(t.children);
  }

  lemma {:induction false} AllFormulaNnfInput(ts: seq<Term>, neg: bool)
    requires AllFormulas(ts) && AllBinary(ts)
    ensures AllNnfInput(ts, neg, TwoOperands())
    decreases RankAll(ts), ts, 0
  {
    forall i | 0 <= i < |ts|
      ensures NnfInput(ts[i], neg, TwoOperands())
    {
      assert HasBinder(ts[i]) ==> AnyHasBinder(ts);
      assert Formula(ts[i]) && Binary(ts[i]);
      FormulaNnfInput(ts[i], neg);
    }
  }

  /** Such a formula keeps its truth value in normal form, in every model. */
  lemma FormulaNormalised(t: Term, neg: bool, m: Model)
    requires Formula(t) && Binary(t)
    ensures IsNnf(ToNnf(t, neg)) && Holds(ToNnf(t, neg), m) == (neg != Holds(t, m))
  {
    hide *;
    FormulaNnfInput(t, neg);
    TwoAreRead(m);
    NnfInputWeakens(t, neg, TwoOperands(), ReadIn(m));
    NnfHolds(t, neg, m);
    NnfShape(t, neg);
  }

  lemma {:induction false} FormulaDnfInput(t: Term)
    requires Formula(t) && Binary(t)
    ensures DnfInput(t, TwoOperands())
    decreases Rank(t), t
  {
    hide IsAtomic, IsComparison, IsAtom, IsComp, IsBoolVariable, IsBoolValue, IsDnfLeaf, IsLeafOfEncoding, Refused;
    LeavesListed(t);
    if IsEnd(t) {
      EndDnfInput(t);
    } else if t.kind.Let? {
      FormulaDnfInput(ExpandLet(t));
    } else {
      LookedRank(t);
      assert forall i | 0 <= i < |t.children| :: Formula(t.children[i]) && Binary(t.children[i]);
      forall i | 0 <= i < |Looked(t)|
        ensures DnfInput(Looked(t)[i], TwoOperands())
      {
        FormulaDnfInput(t.children[i]);
      }
      assert AllBool(t.children);
    }
  }

  lemma EndDnfInput(t: Term)
    requires Formula(t) && Binary(t) && IsEnd(t)
    ensures DnfInput(t, TwoOperands())
  {
    LeavesListed(t);
  }

  /** Without equalities of strings, elimination raises no error on it and
      keeps its truth value, in every model. */
  lemma FormulaEliminated(t: Term, m: Model)
    requires Formula(t) && Binary(t) && Textless(t)
    ensures DnfInput(t, Any()) && !ConversionRaises(t)
    ensures DnfInput(t, ReadIn(m)) && Holds(Eliminate(t, map[], false).term, m) == Holds(t, m)
  {
    hide *;
    FormulaDnfInput(t);
    TwoAreRead(m);
    DnfInputWeakens(t, TwoOperands(), ReadIn(m));
    NothingRemembered(m);
    EliminateHolds(t, map[], false, m);
    FormulaPositive(t, true);
    PositiveConverts(t);
  }

  lemma NothingRemembered(m: Model)
    ensures TableHolds(map[], m)
  {
  }

  lemma FormulaNotRefused(t: Term)
    requires Formula(t)
    ensures !Refused(t)
  {
    LeavesListed(t);
    if (t.kind.Eq? || t.kind.Distinct?) && !IsAtomic(t) {
      assert AllFormulas(t.children);
      assert Formula(t.children[0]);
    }
  }

  lemma {:induction false} FormulaPositive(t: Term, pos: bool)
    requires Formula(t) && Binary(t) && Textless(t)
    ensures Positive(t, pos)
    decreases Rank(t), t, 1
  {
    hide IsAtomic, IsComparison, IsAtom, IsComp, IsBoolVariable, IsBoolValue, IsDnfLeaf, IsLeafOfEncoding, Refused, IsStrEq;
    LeavesListed(t);
    FormulaNotRefused(t);
    if IsEnd(t) {
      TextlessEnd(t);
    } else if t.kind.Let? {
      FormulaPositive(ExpandLet(t), pos);
    } else {
      AllFormulaPositive(t.children, pos);
      AllFormulaPositive(t.children, false);
      if t.kind.Implies? {
        assert Positive(t.children[0], false) && Positive(t.children[1], pos);
      } else if t.kind.Ite? {
        assert Positive(t.children[0], false) && Positive(t.children[1], pos) && Positive(t.children[2], pos);
      }
    }
  }

  lemma TextlessEnd(t: Term)
    requires Formula(t) && Textless(t) && IsDnfLeaf(t)
    ensures !IsStrEq(t)
  {
    LeavesListed(t);
  }

  lemma {:induction false} AllFormulaPositive(ts: seq<Term>, pos: bool)
    requires AllFormulas(ts) && AllBinary(ts) && AllTextless(ts)
    ensures AllPositive(ts, pos)
    decreases RankAll(ts), ts, 0
  {
    forall i | 0 <= i < |ts|
      ensures Positive(ts[i], pos)
    {
      assert HasBinder(ts[i]) ==> AnyHasBinder(ts);
      assert Formula(ts[i]) && Binary(ts[i]) && Textless(ts[i]);
      FormulaPositive(ts[i], pos);
    }
  }
}
