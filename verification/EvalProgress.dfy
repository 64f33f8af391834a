// What evaluation under a partial model gets done: every assigned variable is
// gone, and nothing is touched that gives no reason to.
module EvalProgress {
  import opened Terms
  import opened Builders
  import opened EvalBuilders
  import opened EvalValues
  import opened EvalResults
  import opened Evaluation

  /** None of the variables occurs in the term. */
  predicate Clear(t: Term, vs: set<Term>) { t !in vs && forall i | 0 <= i < |t.children| :: Clear(t.children[i], vs) }

  predicate AllClear(ts: seq<Term>, vs: set<Term>) { forall t | t in ts :: Clear(t, vs) }

  predicate OnlyVars(vs: set<Term>) { forall v | v in vs :: IsEvalVar(v) }

  lemma NodeClear(s: Sort, k: Kind, ts: seq<Term>, vs: set<Term>)
    requires OnlyVars(vs) && !k.Var? && !k.TempVar? && AllClear(ts, vs)
    ensures Clear(MkOper(s, k, ts), vs)
  {
    forall i | 0 <= i < |ts|
      ensures Clear(ts[i], vs)
    {
      assert ts[i] in ts;
    }
  }

  lemma OperandClear(t: Term, vs: set<Term>)
    requires Clear(t, vs)
    ensures AllClear(t.children, vs)
  {
    forall c | c in t.children
      ensures Clear(c, vs)
    {
      var i :| 0 <= i < |t.children| && t.children[i] == c;
    }
  }

  lemma ConstantsClear(vs: set<Term>)
    requires OnlyVars(vs)
    ensures Clear(TrueTerm, vs) && Clear(FalseTerm, vs) && Clear(ErrorTerm, vs)
    ensures forall n: int :: Clear(IntTerm(n), vs)
    ensures forall s: string :: Clear(StrTerm(s), vs)
  {
  }

  // ------------------------------------------------------------------
  // The builders
  // ------------------------------------------------------------------

  lemma FoldsClear(s: Sort, k: Kind, l: Term, r: Term, vs: set<Term>)
    requires OnlyVars(vs) && !k.Var? && !k.TempVar? && Clear(l, vs) && Clear(r, vs)
    ensures Clear(Fold1(s, k, l), vs) && Clear(Fold2(s, k, l, r), vs)
  {
    hide Clear;
    ConstantsClear(vs);
    NodeClear(s, k, [l], vs);
    NodeClear(s, k, [l, r], vs);
  }

  lemma NegationClear(t: Term, vs: set<Term>)
    requires OnlyVars(vs) && Clear(t, vs)
    ensures Clear(MkNot(t), vs)
  {
    hide Clear, IsComp;
    OperandClear(t, vs);
    ConstantsClear(vs);
    NodeClear(Bool, Not, [t], vs);
    NodeClear(Bool, Eq, t.children, vs);
    NodeClear(Bool, Distinct, t.children, vs);
    if IsComp(t) && !t.kind.Eq? && !t.kind.Distinct? {
      OrderIsNoVar(t);
      NodeClear(Bool, Opposite(t.kind), t.children, vs);
    }
  }

  lemma OrderIsNoVar(t: Term)
    requires IsComp(t)
    ensures !Opposite(t.kind).Var? && !Opposite(t.kind).TempVar?
  {
  }

  lemma JunctionsClear(ts: seq<Term>, vs: set<Term>)
    requires OnlyVars(vs) && AllClear(ts, vs)
    ensures Clear(MkAnd(ts), vs) && Clear(MkOr(ts), vs) && Clear(Conjoin(ts), vs) && Clear(Disjoin(ts), vs)
  {
    hide Clear, MkAnd, MkOr;
    JunctionShape(ts);
    ConstantsClear(vs);
    JunctionClear(MkAnd(ts), ts, vs);
    JunctionClear(MkOr(ts), ts, vs);
  }

  lemma JunctionClear(t: Term, ts: seq<Term>, vs: set<Term>)
    requires OnlyVars(vs) && AllClear(ts, vs)
    ensures (t.kind.And? || t.kind.Or?) && (forall c | c in t.children :: c in ts) ==> Clear(t, vs)
  {
    if (t.kind.And? || t.kind.Or?) && forall c | c in t.children :: c in ts {
      forall i | 0 <= i < |t.children|
        ensures Clear(t.children[i], vs)
      {
        assert t.children[i] in t.children;
      }
    }
  }

  lemma {:induction false} EqPairClear(l: Term, r: Term, vs: set<Term>)
    requires OnlyVars(vs) && Clear(l, vs) && Clear(r, vs)
    ensures Clear(MkEqPair(l, r), vs)
    decreases l
  {
    hide Clear, MkNot;
    ConstantsClear(vs);
    NegationClear(l, vs);
    NegationClear(r, vs);
    NodeClear(Bool, Eq, [l, r], vs);
    if l.kind.Not? && r.kind.Not? && |l.children| == 1 && |r.children| == 1 {
      OperandClear(l, vs);
      OperandClear(r, vs);
      EqPairClear(l.children[0], r.children[0], vs);
    }
  }

  lemma ComparisonsClear(ts: seq<Term>, vs: set<Term>)
    requires OnlyVars(vs) && AllClear(ts, vs)
    ensures Clear(MkEqual(ts), vs) && Clear(MkDistinct(ts), vs) && Clear(MkXor(ts), vs)
  {
    hide Clear, MkEqPair;
    ConstantsClear(vs);
    NodeClear(Bool, Eq, Without(ts, ConstTrue), vs);
    NodeClear(Bool, Distinct, Without(ts, ConstFalse), vs);
    NodeClear(Bool, Xor, Without(ts, ConstFalse), vs);
    if |ts| == 2 {
      EqPairClear(ts[0], ts[1], vs);
    }
  }

  // ------------------------------------------------------------------
  // The nodes
  // ------------------------------------------------------------------

  lemma XorClear(rest: seq<Term>, odd: bool, vs: set<Term>)
    requires OnlyVars(vs) && AllClear(rest, vs)
    ensures Clear(XorOf(rest, odd), vs)
  {
    hide Clear, MkXor, MkNot;
    ConstantsClear(vs);
    ComparisonsClear(rest, vs);
    NegationClear(MkXor(rest), vs);
    if rest != [] {
      NegationClear(rest[0], vs);
    }
  }

  lemma ComparisonClear(rs: seq<Term>, vs: set<Term>)
    requires OnlyVars(vs) && AllClear(rs, vs) && forall c | c in Consts(rs) :: IsCanonical(c)
    ensures Clear(EqualOf(rs), vs) && Clear(DistinctOf(rs), vs)
  {
    hide Clear, MkEqual, MkDistinct, IsCanonical, ConstValue, Consts, NonConsts, IsConst;
    Members(rs);
    var non, con := NonConsts(rs), Consts(rs);
    ConstantsClear(vs);
    ComparisonsClear(non, vs);
    ComparisonsClear(non + con, vs);
    if con != [] {
      ComparisonsClear(non + [con[0]], vs);
    }
  }

  lemma RegroupedClear(k: Kind, rs: seq<Term>, vs: set<Term>)
    requires OnlyVars(vs) && AllClear(rs, vs) && IntConsts(Consts(rs)) && !k.Var? && !k.TempVar? && rs != []
    ensures Clear(Regrouped(k, rs), vs) && Clear(Subtracted(rs), vs)
  {
    hide Clear, FoldConsts, Consts, NonConsts, IsConst;
    Members(rs);
    ConstantsClear(vs);
    var non := NonConsts(rs);
    NodeClear(Int, k, non, vs);
    NodeClear(Int, Sub, non, vs);
    forall n: int
      ensures Clear(MkOper(Int, k, non + [IntTerm(n)]), vs)
      ensures Clear(MkOper(Int, Sub, non + [IntTerm(n)]), vs) && Clear(MkOper(Int, Sub, [IntTerm(n)] + non), vs)
    {
      NodeClear(Int, k, non + [IntTerm(n)], vs);
      NodeClear(Int, Sub, non + [IntTerm(n)], vs);
      NodeClear(Int, Sub, [IntTerm(n)] + non, vs);
    }
  }

  lemma {:induction false} RunsClear(rs: seq<Term>, vs: set<Term>)
    requires OnlyVars(vs) && AllClear(rs, vs)
    ensures AllClear(Runs(rs), vs)
  {
    hide Clear, Fold2, IsConst;
    if rs != [] {
      var n := |rs| - 1;
      RunsClear(rs[..n], vs);
      var p, e := Runs(rs[..n]), rs[n];
      if p != [] {
        FoldsClear(Str, StrConcat, p[|p| - 1], e, vs);
      }
    }
  }

  lemma ConcatClear(rs: seq<Term>, vs: set<Term>)
    requires OnlyVars(vs) && AllClear(rs, vs)
    ensures Clear(ConcatOfParts(Runs(rs)), vs)
  {
    hide Clear, Runs;
    RunsClear(rs, vs);
    NodeClear(Str, StrConcat, Runs(rs), vs);
  }

  lemma IteClear(a: Term, b: Term, c: Term, vs: set<Term>)
    requires OnlyVars(vs) && Clear(a, vs) && Clear(b, vs) && Clear(c, vs)
    ensures Clear(IteOf(a, b, c), vs)
  {
    hide Clear, IsConst;
    NodeClear(b.sort, Ite, [a, b, c], vs);
  }

  lemma FinalClear(t: Term, rs: seq<Term>, vs: set<Term>)
    requires Ready(t, rs) && OnlyVars(vs) && AllClear(rs, vs)
    ensures Clear(Final(t, rs), vs)
  {
    hide Clear, EvalInput, ChainFree, Plain, IsConst, Consts, NonConsts, Fold1, Fold2, IteOf, EqualOf, DistinctOf, XorOf;
    hide Subtracted, Regrouped, Conjoin, Disjoin, ConcatOfParts, Runs, TrueCount, IsCanonical;
    NodeSorts(t);
    ReadyFacts(t, rs);
    Members(rs);
    match t.kind
    case Not => FoldsClear(t.sort, t.kind, rs[0], rs[0], vs);
    case Neg => FoldsClear(t.sort, t.kind, rs[0], rs[0], vs);
    case And => JunctionsClear(NonConsts(rs), vs);
    case Or => JunctionsClear(NonConsts(rs), vs);
    case Xor => XorClear(NonConsts(rs), TrueCount(rs) % 2 == 1, vs);
    case Eq => ComparisonClear(rs, vs);
    case Distinct => ComparisonClear(rs, vs);
    case Ite => IteClear(rs[0], rs[1], rs[2], vs);
    case StrConcat => ConcatClear(rs, vs);
    case Sub => RegroupedClear(t.kind, rs, vs);
    case Add => RegroupedClear(t.kind, rs, vs);
    case Mul => RegroupedClear(t.kind, rs, vs);
    case Max => RegroupedClear(t.kind, rs, vs);
    case Min => RegroupedClear(t.kind, rs, vs);
    case Implies => FoldsClear(t.sort, t.kind, rs[0], rs[1], vs);
    case Le => FoldsClear(t.sort, t.kind, rs[0], rs[1], vs);
    case Lt => FoldsClear(t.sort, t.kind, rs[0], rs[1], vs);
    case Ge => FoldsClear(t.sort, t.kind, rs[0], rs[1], vs);
    case Gt => FoldsClear(t.sort, t.kind, rs[0], rs[1], vs);
  }

  // ------------------------------------------------------------------
  // Evaluation
  // ------------------------------------------------------------------

  lemma NothingAssigned(t: Term)
    ensures Clear(t, {})
  {
  }

  lemma ModelIsClear(pm: Partial)
    requires PartialOk(pm)
    ensures OnlyVars(pm.Keys) && forall v | v in pm :: Clear(pm[v], pm.Keys)
  {
    forall v | v in pm
      ensures Clear(pm[v], pm.Keys)
    {
      assert IsCanonical(pm[v]);
    }
  }

  /** No assigned variable is left in the result, and where one occurred the
      flag is set. */
  lemma {:induction false} AssignedAreGone(t: Term, pm: Partial)
    requires EvalInput(t) && PartialOk(pm)
    ensures Clear(Eval(t, pm).term, pm.Keys)
    ensures !Eval(t, pm).changed ==> Clear(t, pm.Keys)
    decreases t, 1
  {
    hide Clear, EvalInput, Settle, Ready, IsCanonical;
    ModelIsClear(pm);
    UnchangedIsInput(t, pm);
    if Skipped(t, pm) {
      assert pm.Keys == {};
      NothingAssigned(t);
    } else if IsConst(t) || IsEvalVar(t) {
      if t !in pm {
        LeafClear(t, pm);
      }
    } else {
      InputIsNode(t);
      NodeEval(t, pm);
      AllAssignedAreGone(t.children, pm);
      SettledClear(t, Results(t.children, pm), AnyChanged(t.children, pm), pm);
    }
  }

  lemma LeafClear(t: Term, pm: Partial)
    requires EvalInput(t) && PartialOk(pm) && (IsConst(t) || IsEvalVar(t)) && t !in pm
    ensures Clear(t, pm.Keys)
  {
  }

  lemma SettledClear(t: Term, rs: seq<Term>, any: bool, pm: Partial)
    requires Ready(t, rs) && PartialOk(pm) && AllClear(rs, pm.Keys) && (!any ==> rs == t.children)
    ensures Clear(Settle(t, rs, any).term, pm.Keys)
  {
    hide Clear, EvalInput, Ready, Final, HasTrue, HasFalse;
    ModelIsClear(pm);
    ConstantsClear(pm.Keys);
    FinalClear(t, rs, pm.Keys);
    if !any {
      NodeIsNoVar(t, rs);
      NodeClear(t.sort, t.kind, t.children, pm.Keys);
      SameNodeClear(t, pm.Keys);
    }
  }

  lemma NodeIsNoVar(t: Term, rs: seq<Term>)
    requires Ready(t, rs)
    ensures !t.kind.Var? && !t.kind.TempVar?
  {
  }

  lemma SameNodeClear(t: Term, vs: set<Term>)
    requires OnlyVars(vs) && !IsEvalVar(t) && AllClear(t.children, vs)
    ensures Clear(t, vs)
  {
    forall i | 0 <= i < |t.children|
      ensures Clear(t.children[i], vs)
    {
      assert t.children[i] in t.children;
    }
  }

  lemma {:induction false} AllAssignedAreGone(ts: seq<Term>, pm: Partial)
    requires AllInputs(ts) && PartialOk(pm)
    ensures AllClear(Results(ts, pm), pm.Keys)
    ensures !AnyChanged(ts, pm) ==> Results(ts, pm) == ts
    decreases ts, 0
  {
    hide Clear, Eval, EvalInput;
    if ts != [] {
      var n := |ts| - 1;
      AllAssignedAreGone(ts[..n], pm);
      AssignedAreGone(ts[n], pm);
      UnchangedIsInput(ts[n], pm);
      assert ts == ts[..n] + [ts[n]];
    }
  }

  // ------------------------------------------------------------------
  // Where there is nothing to do
  // ------------------------------------------------------------------

  predicate ConstFree(t: Term) { !IsConst(t) && forall i | 0 <= i < |t.children| :: ConstFree(t.children[i]) }

  /** A term without constants in which no assigned variable occurs is left
      alone. */
  lemma {:induction false} OthersUntouched(t: Term, pm: Partial)
    requires EvalInput(t) && PartialOk(pm) && ConstFree(t) && Clear(t, pm.Keys)
    ensures Eval(t, pm) == Outcome(false, t)
    decreases t, 1
  {
    hide EvalInput, Ready, Final;
    if !Skipped(t, pm) && !IsEvalVar(t) {
      InputIsNode(t);
      NodeEval(t, pm);
      AllUntouched(t.children, pm);
      NoConstants(t.children);
    }
  }

  lemma {:induction false} AllUntouched(ts: seq<Term>, pm: Partial)
    requires AllInputs(ts) && PartialOk(pm) && forall i | 0 <= i < |ts| :: ConstFree(ts[i]) && Clear(ts[i], pm.Keys)
    ensures Results(ts, pm) == ts && !AnyChanged(ts, pm)
    decreases ts, 0
  {
    hide Eval, EvalInput;
    if ts != [] {
      var n := |ts| - 1;
      AllUntouched(ts[..n], pm);
      OthersUntouched(ts[n], pm);
      assert ts == ts[..n] + [ts[n]];
    }
  }

  lemma {:induction false} NoConstants(ts: seq<Term>)
    requires forall i | 0 <= i < |ts| :: ConstFree(ts[i])
    ensures Consts(ts) == [] && !HasTrue(ts) && !HasFalse(ts)
  {
    hide IsConst;
    if ts != [] {
      NoConstants(ts[..|ts| - 1]);
      assert ConstFree(ts[|ts| - 1]);
    }
    NoTruths(ts);
  }

  lemma NoTruths(ts: seq<Term>)
    requires forall i | 0 <= i < |ts| :: ConstFree(ts[i])
    ensures !HasTrue(ts) && !HasFalse(ts)
  {
  }

  /** A comparison of constants is decided, in the empty model too. */
  lemma {:induction false} ConstantComparisons(t: Term, pm: Partial)
    requires EvalInput(t) && IsComparison(t.kind) && PartialOk(pm) && AllConst(t.children)
    ensures IsConst(Eval(t, pm).term)
  {
    hide EvalInput, Ready, Final, IsConst, Eval;
    ComparisonIsNode(t);
    NodeEval(t, pm);
    var rs := Results(t.children, pm);
    forall i | 0 <= i < |rs|
      ensures rs[i] == t.children[i]
    {
      ResultAt(t.children, pm, i);
      ConstantStays(t.children[i], pm);
    }
    SomeConstant(rs);
    FinalShape(t, rs);
  }

  lemma ComparisonIsNode(t: Term)
    requires EvalInput(t) && IsComparison(t.kind)
    ensures IsNode(t) && t.children != []
  {
    NodeHasOperands(t);
  }

  lemma ConstantStays(t: Term, pm: Partial)
    requires EvalInput(t) && PartialOk(pm) && IsConst(t)
    ensures Eval(t, pm).term == t
  {
  }

  lemma SomeConstant(rs: seq<Term>)
    requires rs != [] && AllConst(rs)
    ensures Consts(rs) != []
  {
    assert IsConst(rs[|rs| - 1]);
  }

  // ------------------------------------------------------------------
  // How far constants are folded
  // ------------------------------------------------------------------

  predicate NoneConst(ts: seq<Term>) { forall i | 0 <= i < |ts| :: !IsConst(ts[i]) }

  predicate OneConst(ts: seq<Term>) { forall i, j | 0 <= i < j < |ts| :: !(IsConst(ts[i]) && IsConst(ts[j])) }

  predicate NoneAdjacent(ts: seq<Term>) { forall i | 0 <= i < |ts| - 1 :: !(IsConst(ts[i]) && IsConst(ts[i + 1])) }

  /** The operands of a rebuilt node: no constant in a conjunction or
      disjunction, at most one in arithmetic, no two side by side in a
      concatenation. */
  predicate Folded(k: Kind, ts: seq<Term>) {
    && (k.And? || k.Or? ==> NoneConst(ts))
    && (IsIntFold(k) || k.Sub? ==> OneConst(ts))
    && (k.StrConcat? ==> NoneAdjacent(ts))
  }

  lemma NonConstsNone(rs: seq<Term>)
    ensures NoneConst(NonConsts(rs))
  {
    hide IsConst, NonConsts, Consts;
    Members(rs);
    forall i | 0 <= i < |NonConsts(rs)|
      ensures !IsConst(NonConsts(rs)[i])
    {
      assert NonConsts(rs)[i] in NonConsts(rs);
    }
  }

  lemma JunctionsFolded(cs: seq<Term>)
    requires NoneConst(cs) && |cs| > 1
    ensures var a, o := MkAnd(cs), MkOr(cs);
            && (a in cs || IsConst(a) || (a.kind.And? && NoneConst(a.children)))
            && (o in cs || IsConst(o) || (o.kind.Or? && NoneConst(o.children)))
  {
    hide MkAnd, MkOr;
    JunctionShape(cs);
    forall c | c in cs
      ensures !IsConst(c)
    {
      var i :| 0 <= i < |cs| && cs[i] == c;
    }
    assert forall i | 0 <= i < |MkAnd(cs).children| :: MkAnd(cs).children[i] in MkAnd(cs).children;
    assert forall i | 0 <= i < |MkOr(cs).children| :: MkOr(cs).children[i] in MkOr(cs).children;
  }

  lemma {:induction false} RunsFolded(rs: seq<Term>)
    requires forall i | 0 <= i < |rs| && IsConst(rs[i]) :: rs[i].kind.StrConst?
    ensures NoneAdjacent(Runs(rs))
    ensures forall i | 0 <= i < |Runs(rs)| && IsConst(Runs(rs)[i]) :: Runs(rs)[i].kind.StrConst?
  {
    if rs != [] {
      var n := |rs| - 1;
      RunsFolded(rs[..n]);
    }
  }

  /** A node that evaluation rebuilds is folded, or is one of its operands'
      results. */
  lemma {:induction false} RebuiltIsFolded(t: Term, rs: seq<Term>)
    requires Ready(t, rs) && !Decided(t, rs)
    ensures var r := Final(t, rs); r in rs || r.kind != t.kind || Folded(t.kind, r.children)
  {
    hide EvalInput, ChainFree, Plain, IsConst, Consts, NonConsts, Fold1, Fold2, IteOf, EqualOf, DistinctOf, XorOf;
    hide TrueCount, IsCanonical, FoldConsts, MkAnd, MkOr, Runs;
    hide Regrouped, Subtracted, ConcatOfParts, Folded, Conjoin, Disjoin;
    NodeSorts(t);
    ReadyFacts(t, rs);
    match t.kind
    case And => JunctionFolded(rs);
    case Or => JunctionFolded(rs);
    case StrConcat =>
      StringResults(t, rs);
      ConcatFolded(rs);
    case Add => ArithmeticFolded(t.kind, rs);
    case Mul => ArithmeticFolded(t.kind, rs);
    case Max => ArithmeticFolded(t.kind, rs);
    case Min => ArithmeticFolded(t.kind, rs);
    case Sub => ArithmeticFolded(t.kind, rs);
    case _ => OthersFolded(t.kind, Final(t, rs).children);
  }

  lemma OthersFolded(k: Kind, ts: seq<Term>)
    requires !k.And? && !k.Or? && !IsIntFold(k) && !k.Sub? && !k.StrConcat?
    ensures Folded(k, ts)
  {
  }

  lemma JunctionFolded(rs: seq<Term>)
    ensures var r := Conjoin(NonConsts(rs)); r in rs || !r.kind.And? || Folded(And, r.children)
    ensures var r := Disjoin(NonConsts(rs)); r in rs || !r.kind.Or? || Folded(Or, r.children)
  {
    hide MkAnd, MkOr, NonConsts, Consts, IsConst;
    Members(rs);
    NonConstsNone(rs);
    var non := NonConsts(rs);
    if |non| > 1 {
      JunctionsFolded(non);
      ConstIsNoNode(MkAnd(non));
      ConstIsNoNode(MkOr(non));
    }
  }

  lemma ConstIsNoNode(t: Term)
    ensures t.kind.And? || t.kind.Or? || t.kind.StrConcat? ==> !IsConst(t)
  {
  }

  lemma ArithmeticFolded(k: Kind, rs: seq<Term>)
    requires rs != [] && IntConsts(Consts(rs)) && (IsIntFold(k) || k.Sub?)
    ensures var r := if k.Sub? then Subtracted(rs) else Regrouped(k, rs); r in rs || r.kind != k || Folded(k, r.children)
  {
    hide NonConsts, Consts, IsConst, FoldConsts;
    Members(rs);
    NonConstsNone(rs);
    var non := NonConsts(rs);
    assert OneConst(non);
    forall n: int
      ensures OneConst(non + [IntTerm(n)]) && OneConst([IntTerm(n)] + non)
    {
    }
  }

  lemma ConcatFolded(rs: seq<Term>)
    requires forall i | 0 <= i < |rs| && IsConst(rs[i]) :: rs[i].kind.StrConst?
    ensures var r := ConcatOfParts(Runs(rs)); r in rs || !r.kind.StrConcat? || Folded(StrConcat, r.children)
  {
    hide IsConst, Runs;
    RunsFolded(rs);
    OneRun(rs);
  }

  lemma StringResults(t: Term, rs: seq<Term>)
    requires Ready(t, rs) && t.kind.StrConcat?
    ensures forall i | 0 <= i < |rs| && IsConst(rs[i]) :: rs[i].kind.StrConst?
  {
    NodeSorts(t);
    ReadyFacts(t, rs);
    forall i | 0 <= i < |rs| && IsConst(rs[i])
      ensures rs[i].kind.StrConst?
    {
      CanonicalResult(rs, i);
    }
  }

  /** Every run is an operand or a joined constant. */
  lemma {:induction false} OneRun(rs: seq<Term>)
    requires forall i | 0 <= i < |rs| && IsConst(rs[i]) :: rs[i].kind.StrConst?
    ensures forall r | r in Runs(rs) :: r in rs || r.kind.StrConst?
  {
    if rs != [] {
      OneRun(rs[..|rs| - 1]);
      RunsFolded(rs[..|rs| - 1]);
    }
  }

  /** Wherever evaluation changes a node, the result is an operand's result, of
      another kind, or folded. */
  lemma {:induction false} EvalIsFolded(t: Term, pm: Partial)
    requires IsNode(t) && PartialOk(pm) && Eval(t, pm).changed && AllInputs(t.children)
    ensures var r := Eval(t, pm).term;
            || (exists i :: 0 <= i < |t.children| && r == Eval(t.children[i], pm).term)
            || r.kind != t.kind || Folded(t.kind, r.children)
  {
    hide EvalInput, Ready, Final, Folded, Eval, HasTrue, HasFalse;
    ChangedNode(t, pm);
    NodeEval(t, pm);
    var rs := Results(t.children, pm);
    if !Decided(t, rs) {
      RebuiltIsFolded(t, rs);
      if Final(t, rs) in rs {
        var i :| 0 <= i < |rs| && rs[i] == Final(t, rs);
        ResultAt(t.children, pm, i);
      }
    }
  }

  lemma ChangedNode(t: Term, pm: Partial)
    requires EvalInput(t) && PartialOk(pm) && Eval(t, pm).changed
    ensures !Skipped(t, pm)
  {
  }
}
