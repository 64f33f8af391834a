// What the partial evaluator computes, as a function, and when its results are
// right.
module Evaluation {
  import opened Terms
  import opened Builders
  import opened EvalBuilders
  import opened EvalValues
  import opened EvalResults

  /** The change flag and the result. */
  datatype Outcome = Outcome(changed: bool, term: Term)

  // ------------------------------------------------------------------
  // One node
  // ------------------------------------------------------------------

  /** A conjunction or disjunction that a constant operand settles. */
  predicate Decided(t: Term, rs: seq<Term>) { (t.kind.And? && HasFalse(rs)) || (t.kind.Or? && HasTrue(rs)) }

  /** What a changed node ends with. */
  function Final(t: Term, rs: seq<Term>): Term
    requires Ready(t, rs)
  {
    NodeSorts(t);
    ReadyFacts(t, rs);
    match t.kind
    case Not => Fold1(t.sort, t.kind, rs[0])
    case Neg => Fold1(t.sort, t.kind, rs[0])
    case And => Conjoin(NonConsts(rs))
    case Or => Disjoin(NonConsts(rs))
    case Xor => XorOf(NonConsts(rs), TrueCount(rs) % 2 == 1)
    case Eq => EqualOf(rs)
    case Distinct => DistinctOf(rs)
    case Ite => IteOf(rs[0], rs[1], rs[2])
    case StrConcat => ConcatOfParts(Runs(rs))
    case Sub => Subtracted(rs)
    case Add => Regrouped(t.kind, rs)
    case Mul => Regrouped(t.kind, rs)
    case Max => Regrouped(t.kind, rs)
    case Min => Regrouped(t.kind, rs)
    case Implies => Fold2(t.sort, t.kind, rs[0], rs[1])
    case Le => Fold2(t.sort, t.kind, rs[0], rs[1])
    case Lt => Fold2(t.sort, t.kind, rs[0], rs[1])
    case Ge => Fold2(t.sort, t.kind, rs[0], rs[1])
    case Gt => Fold2(t.sort, t.kind, rs[0], rs[1])
  }

  /** A node over its operands' results: comparisons with a constant operand
      are rebuilt even if no operand changed. */
  predicate Kept(t: Term, rs: seq<Term>, any: bool) { !any && !(IsComparison(t.kind) && Consts(rs) != []) }

  function Settle(t: Term, rs: seq<Term>, any: bool): Outcome
    requires Ready(t, rs)
  {
    if Decided(t, rs) then Outcome(true, if t.kind.And? then FalseTerm else TrueTerm)
    else if Kept(t, rs, any) then Outcome(false, t)
    else Outcome(true, Final(t, rs))
  }

  /** Where a rebuilt node goes wrong although its operands' results are right:
      only in exclusive or and in comparisons of Booleans. */
  ghost predicate Misfolded(t: Term, rs: seq<Term>, any: bool, m: Model) {
    && !Kept(t, rs, any)
    && ((t.kind.Xor? && XorMisread(NonConsts(rs), TrueCount(rs) % 2 == 1, m))
        || (IsComparison(t.kind) && ComparisonMisread(t.kind, rs, m)))
  }

  lemma {:induction false} FinalShape(t: Term, rs: seq<Term>)
    requires Ready(t, rs) && !Decided(t, rs)
    ensures Final(t, rs).sort == t.sort && Shape(t, Final(t, rs)) && (AllConst(rs) ==> IsConst(Final(t, rs)))
  {
    hide EvalInput, ChainFree, Plain, IsConst, Consts, NonConsts, Fold1, Fold2, IteOf, EqualOf, DistinctOf, XorOf;
    hide Subtracted, Regrouped, Conjoin, Disjoin, ConcatOfParts, Runs, TrueCount, IsCanonical;
    NodeSorts(t);
    ReadyFacts(t, rs);
    match t.kind
    case Not => Fold1Shape(t, rs[0]);
    case Neg => Fold1Shape(t, rs[0]);
    case And =>
      RestFacts(rs, Bool);
      JoinedShape(NonConsts(rs));
    case Or =>
      RestFacts(rs, Bool);
      JoinedShape(NonConsts(rs));
    case Xor =>
      RestFacts(rs, Bool);
      Members(rs);
      XorOfExact(NonConsts(rs), TrueCount(rs) % 2 == 1, Model((l: Term) => U(0), (k, n, vs) => U(0), map[]));
    case Eq => ComparisonShape(t, rs);
    case Distinct => ComparisonShape(t, rs);
    case Ite => IteShape(t, rs[0], rs[1], rs[2]);
    case StrConcat => ConcatShape(t, rs);
    case Sub => FoldedShape(t, rs);
    case Add => FoldedShape(t, rs);
    case Mul => FoldedShape(t, rs);
    case Max => FoldedShape(t, rs);
    case Min => FoldedShape(t, rs);
    case Implies => Fold2Shape(t, rs[0], rs[1]);
    case Le => Fold2Shape(t, rs[0], rs[1]);
    case Lt => Fold2Shape(t, rs[0], rs[1]);
    case Ge => Fold2Shape(t, rs[0], rs[1]);
    case Gt => Fold2Shape(t, rs[0], rs[1]);
  }

  lemma {:induction false} FinalExact(t: Term, rs: seq<Term>, m: Model)
    requires Ready(t, rs) && !Decided(t, rs) && Values(rs, m) == Values(t.children, m)
    ensures Value(Final(t, rs), m) == Value(t, m) <==>
              !(t.kind.Xor? && XorMisread(NonConsts(rs), TrueCount(rs) % 2 == 1, m))
              && !(IsComparison(t.kind) && ComparisonMisread(t.kind, rs, m))
  {
    hide EvalInput, ChainFree, Plain, IsConst, Consts, NonConsts, Fold1, Fold2, IteOf, EqualOf, DistinctOf, XorOf;
    hide Subtracted, Regrouped, Conjoin, Disjoin, ConcatOfParts, Runs, TrueCount, Value, Values, XorMisread, ComparisonMisread;
    hide IsCanonical, HasTrue, HasFalse;
    NodeSorts(t);
    ReadyFacts(t, rs);
    Rebuilt(t, rs, m);
    match t.kind
    case Not =>
      assert rs == [rs[0]];
      CanonicalResult(rs, 0);
      Fold1Value(t, rs[0], m);
    case Neg =>
      assert rs == [rs[0]];
      CanonicalResult(rs, 0);
      Fold1Value(t, rs[0], m);
    case And => ConjunctionValue(rs, m);
    case Or => ConjunctionValue(rs, m);
    case Xor => XorValue(rs, m);
    case Eq => ComparisonValue(t, rs, m);
    case Distinct => ComparisonValue(t, rs, m);
    case Ite =>
      assert rs == [rs[0], rs[1], rs[2]];
      CanonicalResult(rs, 0);
      IteValue(rs[0], rs[1], rs[2], m);
    case StrConcat => ConcatOfPartsValue(rs, m);
    case Sub => SubtractedValue(rs, m);
    case Add => RegroupedValue(t.kind, rs, m);
    case Mul => RegroupedValue(t.kind, rs, m);
    case Max => RegroupedValue(t.kind, rs, m);
    case Min => RegroupedValue(t.kind, rs, m);
    case Implies => BinaryValue(t, rs, m);
    case Le => BinaryValue(t, rs, m);
    case Lt => BinaryValue(t, rs, m);
    case Ge => BinaryValue(t, rs, m);
    case Gt => BinaryValue(t, rs, m);
  }

  lemma {:induction false} BinaryValue(t: Term, rs: seq<Term>, m: Model)
    requires |rs| == 2 && AllCanonical(rs) && t.sort == Bool && (t.kind.Implies? || IsOrder(t.kind))
    ensures Value(Fold2(t.sort, t.kind, rs[0], rs[1]), m) == Value(MkOper(t.sort, t.kind, rs), m)
  {
    hide Value, Fold2;
    assert rs == [rs[0], rs[1]];
    CanonicalResult(rs, 0);
    CanonicalResult(rs, 1);
    Fold2Value(t.sort, t.kind, rs[0], rs[1], m);
  }

  lemma {:induction false} CanonicalResult(rs: seq<Term>, i: nat)
    requires AllCanonical(rs) && i < |rs|
    ensures IsConst(rs[i]) ==> IsCanonical(rs[i])
  {
  }

  /** With right results for the operands, the node's is right exactly when it
      is not misfolded. */
  lemma {:induction false} SettleExact(t: Term, rs: seq<Term>, any: bool, m: Model)
    requires Ready(t, rs) && Values(rs, m) == Values(t.children, m)
    ensures Value(Settle(t, rs, any).term, m) == Value(t, m) <==> !Misfolded(t, rs, any, m)
  {
    hide EvalInput, Ready, Value, Values, Final, XorMisread, ComparisonMisread, HasTrue, HasFalse, Consts, NonConsts, TrueCount;
    if Decided(t, rs) {
      assert Ready(t, rs);
      JunctionSort(t, rs);
      Rebuilt(t, rs, m);
      DecidedValue(rs, m);
    } else if !Kept(t, rs, any) {
      FinalExact(t, rs, m);
    }
  }

  lemma {:induction false} JunctionSort(t: Term, rs: seq<Term>)
    requires Ready(t, rs) && (t.kind.And? || t.kind.Or?)
    ensures t.sort == Bool && IsFragmentOp(t.kind)
  {
    NodeSorts(t);
  }

  lemma {:induction false} SettleShape(t: Term, rs: seq<Term>, any: bool)
    requires Ready(t, rs)
    ensures var o := Settle(t, rs, any);
            && o.term.sort == t.sort && Shape(t, o.term) && (!o.changed ==> o.term == t)
            && (any ==> o.changed) && (any && AllConst(rs) ==> IsConst(o.term))
  {
    hide EvalInput, Final, HasTrue, HasFalse, Consts, ChainFree, Plain, IsConst;
    TruthPlain();
    if Decided(t, rs) {
      JunctionSort(t, rs);
    } else if Kept(t, rs, any) {
      InputPlain(t);
    } else {
      FinalShape(t, rs);
    }
  }

  // ------------------------------------------------------------------
  // The evaluator
  // ------------------------------------------------------------------

  /** Without a model only equalities and distinctness are looked at. */
  predicate Skipped(t: Term, pm: Partial) { pm == map[] && !IsComparison(t.kind) }

  /** Evaluation under a partial model. The results stay in shape. */
  function Eval(t: Term, pm: Partial): (o: Outcome)
    requires EvalInput(t) && PartialOk(pm)
    ensures o.term.sort == t.sort && Shape(t, o.term)
    decreases t, 1
  {
    InputPlain(t);
    if Skipped(t, pm) then Outcome(false, t)
    else if IsConst(t) || IsEvalVar(t) then
      if t in pm then
        ModelValuePlain(t, pm);
        Outcome(true, pm[t])
      else Outcome(false, t)
    else
      InputIsNode(t);
      NodeHasOperands(t);
      var rs := Results(t.children, pm);
      ResultsReady(t, rs);
      SettleShape(t, rs, AnyChanged(t.children, pm));
      Settle(t, rs, AnyChanged(t.children, pm))
  }

  function Results(ts: seq<Term>, pm: Partial): (rs: seq<Term>)
    requires AllInputs(ts) && PartialOk(pm)
    ensures |rs| == |ts| && forall i | 0 <= i < |rs| :: rs[i].sort == ts[i].sort && Shape(ts[i], rs[i])
    decreases ts, 0
  {
    if ts == [] then []
    else Results(ts[..|ts| - 1], pm) + [Eval(ts[|ts| - 1], pm).term]
  }

  predicate AnyChanged(ts: seq<Term>, pm: Partial)
    requires AllInputs(ts) && PartialOk(pm)
    decreases ts, 0
  {
    ts != [] && (AnyChanged(ts[..|ts| - 1], pm) || Eval(ts[|ts| - 1], pm).changed)
  }

  predicate AllInputs(ts: seq<Term>) { forall i | 0 <= i < |ts| :: EvalInput(ts[i]) }

  lemma {:induction false} ModelValuePlain(t: Term, pm: Partial)
    requires PartialOk(pm) && t in pm
    ensures Plain(pm[t]) && ChainFree(pm[t]) && IsConst(pm[t]) && pm[t].sort == t.sort
  {
    CanonicalChainFree(pm[t]);
  }

  lemma {:induction false} ResultsReady(t: Term, rs: seq<Term>)
    requires EvalInput(t) && !IsConst(t) && !IsEvalVar(t)
    requires |rs| == |t.children| && forall i | 0 <= i < |rs| :: rs[i].sort == t.children[i].sort && Shape(t.children[i], rs[i])
    ensures Ready(t, rs)
  {
    ChainFreeOperands(t);
  }

  lemma {:induction false} InputIsNode(t: Term)
    requires EvalInput(t) && !IsConst(t) && !IsEvalVar(t)
    ensures IsNode(t)
  {
  }

  lemma {:induction false} ChainFreeOperands(t: Term)
    ensures ChainFree(t) ==> AllChainFree(t.children)
  {
  }

  /** The operands' results, one by one. */
  lemma {:induction false} ResultAt(ts: seq<Term>, pm: Partial, i: nat)
    requires AllInputs(ts) && PartialOk(pm) && i < |ts|
    ensures Results(ts, pm)[i] == Eval(ts[i], pm).term
    ensures Eval(ts[i], pm).changed ==> AnyChanged(ts, pm)
    decreases |ts|
  {
    hide Eval, EvalInput;
    var n := |ts| - 1;
    if i < n {
      ResultAt(ts[..n], pm, i);
    }
  }

  lemma {:induction false} NoneChanged(ts: seq<Term>, pm: Partial) returns (i: nat)
    requires AllInputs(ts) && PartialOk(pm) && AnyChanged(ts, pm)
    ensures i < |ts| && Eval(ts[i], pm).changed
    decreases |ts|
  {
    hide Eval, EvalInput;
    var n := |ts| - 1;
    if AnyChanged(ts[..n], pm) {
      i := NoneChanged(ts[..n], pm);
    } else {
      i := n;
    }
  }

  /** A node that the evaluator looks at, and its operands' results. */
  lemma {:induction false} NodeEval(t: Term, pm: Partial)
    requires IsNode(t) && PartialOk(pm) && !Skipped(t, pm)
    ensures AllInputs(t.children) && Ready(t, Results(t.children, pm))
    ensures Eval(t, pm) == Settle(t, Results(t.children, pm), AnyChanged(t.children, pm))
  {
    hide Settle, ChainFree, Plain;
    NodeHasOperands(t);
    ResultsReady(t, Results(t.children, pm));
  }

  lemma {:induction false} ComparisonSettled(t: Term, rs: seq<Term>, any: bool)
    requires Ready(t, rs) && IsComparison(t.kind)
    ensures forall c | c in Consts(rs) :: IsCanonical(c)
    ensures Settle(t, rs, any) == if !any && Consts(rs) == [] then Outcome(false, t)
                                  else Outcome(true, if t.kind.Eq? then EqualOf(rs) else DistinctOf(rs))
  {
    hide Ready, EvalInput, EqualOf, DistinctOf, Consts, IsCanonical;
    ReadyFacts(t, rs);
  }

  lemma {:induction false} XorSettled(t: Term, rs: seq<Term>, any: bool)
    requires Ready(t, rs) && t.kind.Xor?
    ensures Settle(t, rs, any) == if any then Outcome(true, XorOf(NonConsts(rs), TrueCount(rs) % 2 == 1)) else Outcome(false, t)
  {
    hide Ready, EvalInput, XorOf, NonConsts, TrueCount;
  }

  /** A clear flag means the input itself. */
  lemma {:induction false} UnchangedIsInput(t: Term, pm: Partial)
    requires EvalInput(t) && PartialOk(pm)
    ensures !Eval(t, pm).changed ==> Eval(t, pm).term == t
  {
    hide EvalInput, Settle;
    if !Skipped(t, pm) && !IsConst(t) && !IsEvalVar(t) {
      InputIsNode(t);
      NodeHasOperands(t);
      ResultsReady(t, Results(t.children, pm));
      SettleShape(t, Results(t.children, pm), AnyChanged(t.children, pm));
    }
  }

  // ------------------------------------------------------------------
  // When the result is right
  // ------------------------------------------------------------------

  /** No node the evaluator rebuilds is misfolded in the model. */
  ghost predicate NeverMisfolded(t: Term, pm: Partial, m: Model)
    requires EvalInput(t) && PartialOk(pm)
    decreases t, 1
  {
    if Skipped(t, pm) || IsConst(t) || IsEvalVar(t) then true
    else
      NodeHasOperands(t);
      && NoneMisfolded(t.children, pm, m)
      && !Misfolded(t, Results(t.children, pm), AnyChanged(t.children, pm), m)
  }

  ghost predicate NoneMisfolded(ts: seq<Term>, pm: Partial, m: Model)
    requires AllInputs(ts) && PartialOk(pm)
    decreases ts, 0
  {
    forall i | 0 <= i < |ts| :: NeverMisfolded(ts[i], pm, m)
  }

  /** The node itself, exactly: where the operands' results are right, the
      node's is if and only if it is not misfolded. */
  lemma {:induction false} EvalExact(t: Term, pm: Partial, m: Model)
    requires EvalInput(t) && PartialOk(pm) && !Skipped(t, pm) && !IsConst(t) && !IsEvalVar(t)
    requires AllInputs(t.children) && Values(Results(t.children, pm), m) == Values(t.children, m)
    ensures Value(Eval(t, pm).term, m) == Value(t, m) <==>
              !Misfolded(t, Results(t.children, pm), AnyChanged(t.children, pm), m)
  {
    hide EvalInput, Value, Values, Settle, Misfolded;
    ResultsReady(t, Results(t.children, pm));
    SettleExact(t, Results(t.children, pm), AnyChanged(t.children, pm), m);
  }

  /** The result reads the same in every total assignment that extends the model
      and in which no node is misfolded. */
  lemma {:induction false} EvalKeepsValue(t: Term, pm: Partial, m: Model)
    requires EvalInput(t) && PartialOk(pm) && Extends(pm, m) && NeverMisfolded(t, pm, m)
    ensures Value(Eval(t, pm).term, m) == Value(t, m)
    decreases t, 1
  {
    hide EvalInput, Value, Settle, Misfolded;
    if !Skipped(t, pm) && !IsConst(t) && !IsEvalVar(t) {
      InputIsNode(t);
      NodeHasOperands(t);
      ResultValues(t.children, pm, m);
      EvalExact(t, pm, m);
    }
  }

  lemma {:induction false} ResultValues(ts: seq<Term>, pm: Partial, m: Model)
    requires AllInputs(ts) && PartialOk(pm) && Extends(pm, m) && NoneMisfolded(ts, pm, m)
    ensures Values(Results(ts, pm), m) == Values(ts, m)
    decreases ts, 0
  {
    hide EvalInput, Value, Eval, NeverMisfolded, Results;
    forall i | 0 <= i < |ts|
      ensures Value(Results(ts, pm)[i], m) == Value(ts[i], m)
    {
      EvalKeepsValue(ts[i], pm, m);
      ResultAt(ts, pm, i);
    }
  }

  /** Terms on which nothing is ever misfolded: comparisons of Booleans have two
      operands, and neither they nor exclusive or have a chained arithmetic
      comparison below them. */
  predicate Regular(t: Term) {
    && (t.kind.Xor? ==> AllChainFree(t.children))
    && (IsComparison(t.kind) && t.children != [] && t.children[0].sort == Bool ==>
          |t.children| == 2 && AllChainFree(t.children))
    && forall i | 0 <= i < |t.children| :: Regular(t.children[i])
  }

  lemma {:induction false} RegularNeverMisfolded(t: Term, pm: Partial, m: Model)
    requires EvalInput(t) && PartialOk(pm) && Regular(t)
    ensures NeverMisfolded(t, pm, m)
    decreases t, 1
  {
    hide EvalInput, ChainFree, Misfolded;
    if !Skipped(t, pm) && !IsConst(t) && !IsEvalVar(t) {
      InputIsNode(t);
      NodeHasOperands(t);
      forall i | 0 <= i < |t.children|
        ensures NeverMisfolded(t.children[i], pm, m)
      {
        RegularNeverMisfolded(t.children[i], pm, m);
      }
      var rs := Results(t.children, pm);
      RegularNode(t, rs, AnyChanged(t.children, pm), m);
    }
  }

  lemma {:induction false} RegularNode(t: Term, rs: seq<Term>, any: bool, m: Model)
    requires IsNode(t) && Regular(t) && |rs| == |t.children|
    requires forall i | 0 <= i < |rs| :: rs[i].sort == t.children[i].sort && Shape(t.children[i], rs[i])
    ensures !Misfolded(t, rs, any, m)
  {
    hide EvalInput, ChainFree, Plain, Consts, NonConsts, EqualMisread, DistinctMisread, TrueCount, Torn;
    NodeHasOperands(t);
    NodeSorts(t);
    if AllChainFree(t.children) {
      assert AllChainFree(rs);
      var s := rs[0].sort;
      assert AllOfSort(rs, s) || !(t.kind.Xor? || IsComparison(t.kind));
      if t.kind.Xor? {
        RestFacts(rs, s);
        if |NonConsts(rs)| == 1 {
          ChainFreeNotTorn(NonConsts(rs)[0], m);
        }
      } else if IsComparison(t.kind) && s == Bool && NonConsts(rs) != [] {
        SplitMembers(rs, s);
        TwoNotMisread(EqualArgs(rs), m);
        TwoNotMisread(NonConsts(rs) + Consts(rs), m);
        FewArgs(rs);
      }
    }
  }

  lemma {:induction false} ChainFreeNotTorn(t: Term, m: Model)
    requires ChainFree(t)
    ensures !Torn(t, m)
  {
    hide Value, IsArithTerm, IsStrTerm;
    if IsComp(t) {
      TwoNotTorn(t, m);
    }
  }

  lemma {:induction false} TwoNotMisread(ts: seq<Term>, m: Model)
    requires AllChainFree(ts)
    ensures |ts| == 2 ==> !EqualMisread(ts, m) && !DistinctMisread(ts, m)
  {
    hide ChainFree, PairMisread;
    if |ts| == 2 {
      ChainFreePair(ts[0], ts[1], m);
    }
  }

  lemma {:induction false} FewArgs(rs: seq<Term>)
    requires |rs| == 2 && NonConsts(rs) != []
    ensures |EqualArgs(rs)| == 2 && |NonConsts(rs) + Consts(rs)| == 2
  {
    hide Consts, NonConsts;
    Covers(rs);
  }

  // ------------------------------------------------------------------
  // When the result is a constant
  // ------------------------------------------------------------------

  predicate HasVar(t: Term) { IsEvalVar(t) || exists i :: 0 <= i < |t.children| && HasVar(t.children[i]) }

  predicate AllAssigned(t: Term, pm: Partial) {
    (IsEvalVar(t) ==> t in pm) && forall i | 0 <= i < |t.children| :: AllAssigned(t.children[i], pm)
  }

  /** Every operator node has a variable below it: the evaluator leaves
      operators over constants alone. */
  predicate Lively(t: Term) {
    t.children == [] || (HasVar(t) && forall i | 0 <= i < |t.children| :: Lively(t.children[i]))
  }

  /** Nothing is assigned by the empty model. */
  lemma {:induction false} NothingAssigned(t: Term)
    requires AllAssigned(t, map[])
    ensures !HasVar(t)
    decreases t
  {
    forall i | 0 <= i < |t.children|
      ensures !HasVar(t.children[i])
    {
      NothingAssigned(t.children[i]);
    }
  }

  /** With every variable assigned, a term without operators over constants
      alone evaluates to a constant. */
  lemma {:induction false} EvalIsConstant(t: Term, pm: Partial)
    requires EvalInput(t) && PartialOk(pm) && Lively(t) && AllAssigned(t, pm)
    ensures IsCanonical(Eval(t, pm).term) && (HasVar(t) ==> Eval(t, pm).changed)
    decreases t
  {
    hide EvalInput, Settle, ChainFree;
    PlainConst(Eval(t, pm).term);
    if IsConst(t) || IsEvalVar(t) {
      LeafEval(t, pm);
    } else {
      InputIsNode(t);
      NodeHasOperands(t);
      if pm == map[] {
        NothingAssigned(t);
      } else {
        var ts, rs := t.children, Results(t.children, pm);
        forall i | 0 <= i < |ts|
          ensures IsConst(rs[i]) && (HasVar(ts[i]) ==> AnyChanged(ts, pm))
        {
          EvalIsConstant(ts[i], pm);
          ResultAt(ts, pm, i);
          ConstantValue(rs[i], Model((l: Term) => U(0), (k, n, vs) => U(0), map[]));
        }
        ResultsReady(t, rs);
        SettleShape(t, rs, AnyChanged(ts, pm));
      }
    }
  }

  lemma {:induction false} LeafEval(t: Term, pm: Partial)
    requires EvalInput(t) && PartialOk(pm) && (IsConst(t) || IsEvalVar(t)) && AllAssigned(t, pm)
    ensures IsConst(Eval(t, pm).term) && (HasVar(t) ==> Eval(t, pm).changed)
  {
    if t in pm {
      ModelValuePlain(t, pm);
    }
  }

  // ------------------------------------------------------------------
  // Results that are wrong
  // ------------------------------------------------------------------

  const BoolP := Node(Bool, Var, "p", [])
  const BoolQ := Node(Bool, Var, "q", [])
  const BoolR := Node(Bool, Var, "r", [])

  /** A variable, assigned or not. */
  lemma {:induction false} VarEval(v: Term, pm: Partial)
    requires v.kind.Var? && v.children == [] && PartialOk(pm) && pm != map[]
    ensures EvalInput(v) && Eval(v, pm) == if v in pm then Outcome(true, pm[v]) else Outcome(false, v)
  {
  }

  /** One more operand. */
  lemma {:induction false} ResultsStep(ts: seq<Term>, x: Term, pm: Partial)
    requires AllInputs(ts) && EvalInput(x) && PartialOk(pm)
    ensures AllInputs(ts + [x])
    ensures Results(ts + [x], pm) == Results(ts, pm) + [Eval(x, pm).term]
    ensures AnyChanged(ts + [x], pm) == (AnyChanged(ts, pm) || Eval(x, pm).changed)
  {
    hide Eval, EvalInput, PartialOk;
    assert (ts + [x])[..|ts + [x]| - 1] == ts;
  }

  lemma {:induction false} PairResults(a: Term, b: Term, pm: Partial)
    requires EvalInput(a) && EvalInput(b) && PartialOk(pm)
    ensures AllInputs([a, b])
    ensures Results([a, b], pm) == [Eval(a, pm).term, Eval(b, pm).term]
    ensures AnyChanged([a, b], pm) == (Eval(a, pm).changed || Eval(b, pm).changed)
  {
    hide Eval, EvalInput, PartialOk, Results, AnyChanged;
    NoResults(pm);
    ResultsStep([], a, pm);
    ResultsStep([a], b, pm);
    assert [] + [a] == [a] && [a] + [b] == [a, b];
  }

  lemma {:induction false} NoResults(pm: Partial)
    requires PartialOk(pm)
    ensures Results([], pm) == [] && !AnyChanged([], pm)
  {
    hide PartialOk;
  }

  lemma {:induction false} TripleResults(a: Term, b: Term, c: Term, pm: Partial)
    requires EvalInput(a) && EvalInput(b) && EvalInput(c) && PartialOk(pm)
    ensures AllInputs([a, b, c])
    ensures Results([a, b, c], pm) == [Eval(a, pm).term, Eval(b, pm).term, Eval(c, pm).term]
    ensures AnyChanged([a, b, c], pm) == (Eval(a, pm).changed || Eval(b, pm).changed || Eval(c, pm).changed)
  {
    hide Eval, EvalInput, PartialOk, Results, AnyChanged;
    PairResults(a, b, pm);
    ResultsStep([a, b], c, pm);
    assert [a, b] + [c] == [a, b, c];
  }

  /** How the next operand falls. */
  lemma {:induction false} PrefixSplit(rs: seq<Term>, i: nat)
    requires i < |rs|
    ensures rs[..i + 1] == rs[..i] + [rs[i]]
    ensures Consts(rs[..i + 1]) == if IsConst(rs[i]) then Consts(rs[..i]) + [rs[i]] else Consts(rs[..i])
    ensures NonConsts(rs[..i + 1]) == if IsConst(rs[i]) then NonConsts(rs[..i]) else NonConsts(rs[..i]) + [rs[i]]
    ensures TrueCount(rs[..i + 1]) == TrueCount(rs[..i]) + if IsTrue(rs[i]) then 1 else 0
  {
    hide IsConst;
    assert rs[..i + 1][..i] == rs[..i];
  }

  lemma {:induction false} SplitAppend(rs: seq<Term>, x: Term)
    ensures Consts(rs + [x]) == if IsConst(x) then Consts(rs) + [x] else Consts(rs)
    ensures NonConsts(rs + [x]) == if IsConst(x) then NonConsts(rs) else NonConsts(rs) + [x]
  {
    hide IsConst;
    assert (rs + [x])[..|rs|] == rs;
  }

  lemma {:induction false} SplitTriple(a: Term, b: Term, c: Term)
    ensures IsConst(a) && !IsConst(b) && !IsConst(c) ==> Consts([a, b, c]) == [a] && NonConsts([a, b, c]) == [b, c]
    ensures IsConst(c) && !IsConst(a) && !IsConst(b) ==> Consts([a, b, c]) == [c] && NonConsts([a, b, c]) == [a, b]
  {
    hide IsConst, Consts, NonConsts;
    NothingSplit();
    SplitAppend([], a);
    SplitAppend([a], b);
    SplitAppend([a, b], c);
    assert [] + [a] == [a] && [a] + [b] == [a, b] && [a, b] + [c] == [a, b, c];
    assert [] + [b] == [b] && [b] + [c] == [b, c] && [] + [c] == [c];
  }

  /** The three variables, one of them assigned. */
  lemma TripleVariables(v: Term, c: Term, pm: Partial)
    requires (v == BoolP || v == BoolR) && (c == TrueTerm || c == FalseTerm) && pm == map[v := c]
    ensures PartialOk(pm) && pm != map[] && AnyChanged([BoolP, BoolQ, BoolR], pm)
    ensures Results([BoolP, BoolQ, BoolR], pm) == if v == BoolP then [c, BoolQ, BoolR] else [BoolP, BoolQ, c]
  {
    hide Eval, EvalInput, Results, AnyChanged;
    assert v in pm;
    VarEval(BoolP, pm);
    VarEval(BoolQ, pm);
    VarEval(BoolR, pm);
    TripleResults(BoolP, BoolQ, BoolR, pm);
  }

  lemma TrueFolded()
    ensures Consts([TrueTerm, BoolQ, BoolR]) == [TrueTerm]
    ensures EqualOf([TrueTerm, BoolQ, BoolR]) == MkOper(Bool, Eq, [BoolQ, BoolR])
  {
    hide Consts, NonConsts, Without, MkEqPair;
    var rs := [TrueTerm, BoolQ, BoolR];
    SplitTriple(TrueTerm, BoolQ, BoolR);
    LastDropped(BoolQ, BoolR, TrueTerm);
    assert Consts(rs)[0] == TrueTerm && [BoolQ, BoolR] + [TrueTerm] == [BoolQ, BoolR, TrueTerm];
    assert EqualOf(rs) == MkEqual([BoolQ, BoolR, TrueTerm]);
  }

  lemma FalseFolded()
    ensures DistinctOf([BoolP, BoolQ, FalseTerm]) == MkOper(Bool, Distinct, [BoolP, BoolQ])
  {
    hide Consts, NonConsts, Without;
    var rs := [BoolP, BoolQ, FalseTerm];
    SplitTriple(BoolP, BoolQ, FalseTerm);
    LastDropped(BoolP, BoolQ, FalseTerm);
    assert [BoolP, BoolQ] + [FalseTerm] == [BoolP, BoolQ, FalseTerm];
    assert DistinctOf(rs) == MkDistinct([BoolP, BoolQ, FalseTerm]);
  }

  lemma TrueDropped(t: Term, pm: Partial)
    requires t == MkOper(Bool, Eq, [BoolP, BoolQ, BoolR]) && pm == map[BoolP := TrueTerm]
    ensures EvalInput(t) && PartialOk(pm)
    ensures Eval(t, pm) == Outcome(true, MkOper(Bool, Eq, [BoolQ, BoolR]))
  {
    hide Eval, EvalInput, PartialOk, Results, AnyChanged, Settle, Ready, EqualOf;
    TripleVariables(BoolP, TrueTerm, pm);
    TripleInput(t);
    NodeEval(t, pm);
    ComparisonSettled(t, [TrueTerm, BoolQ, BoolR], true);
    TrueFolded();
  }

  /** `(= p q r)` under p := true evaluates to `(= q r)`: with q and r false the
      result holds and the input does not. */
  lemma TrueOperandDropped() returns (t: Term, pm: Partial, m: Model)
    ensures t == MkOper(Bool, Eq, [BoolP, BoolQ, BoolR]) && pm == map[BoolP := TrueTerm]
    ensures EvalInput(t) && PartialOk(pm) && Extends(pm, m)
    ensures Eval(t, pm) == Outcome(true, MkOper(Bool, Eq, [BoolQ, BoolR]))
    ensures Holds(Eval(t, pm).term, m) && !Holds(t, m)
  {
    hide Value, Holds, Eval, EvalInput;
    t, pm := MkOper(Bool, Eq, [BoolP, BoolQ, BoolR]), map[BoolP := TrueTerm];
    m := Model((l: Term) => B(l == BoolP), (k, n, vs) => U(0), map[]);
    TrueDropped(t, pm);
    PairAndTriple(BoolP, BoolQ, BoolR, m);
  }

  lemma FalseDropped(t: Term, pm: Partial)
    requires t == MkOper(Bool, Distinct, [BoolP, BoolQ, BoolR]) && pm == map[BoolR := FalseTerm]
    ensures EvalInput(t) && PartialOk(pm)
    ensures Eval(t, pm) == Outcome(true, MkOper(Bool, Distinct, [BoolP, BoolQ]))
  {
    hide Eval, EvalInput, PartialOk, Results, AnyChanged, Settle, Ready, DistinctOf;
    TripleVariables(BoolR, FalseTerm, pm);
    TripleInput(t);
    NodeEval(t, pm);
    ComparisonSettled(t, [BoolP, BoolQ, FalseTerm], true);
    FalseFolded();
  }

  /** `(distinct p q r)` under r := false evaluates to `(distinct p q)`, which
      can hold although three Booleans are never distinct. */
  lemma FalseOperandDropped() returns (t: Term, pm: Partial, m: Model)
    ensures t == MkOper(Bool, Distinct, [BoolP, BoolQ, BoolR]) && pm == map[BoolR := FalseTerm]
    ensures EvalInput(t) && PartialOk(pm) && Extends(pm, m)
    ensures Eval(t, pm) == Outcome(true, MkOper(Bool, Distinct, [BoolP, BoolQ]))
    ensures Holds(Eval(t, pm).term, m) && !Holds(t, m)
  {
    hide Value, Holds, Eval, EvalInput;
    t, pm := MkOper(Bool, Distinct, [BoolP, BoolQ, BoolR]), map[BoolR := FalseTerm];
    m := Model((l: Term) => B(l == BoolP), (k, n, vs) => U(0), map[]);
    FalseDropped(t, pm);
    PairAndTriple(BoolP, BoolQ, BoolR, m);
  }

  lemma {:induction false} TripleInput(t: Term)
    requires t == MkOper(Bool, Eq, [BoolP, BoolQ, BoolR]) || t == MkOper(Bool, Distinct, [BoolP, BoolQ, BoolR])
    ensures EvalInput(t) && IsNode(t)
  {
    assert Operands(t, Bool);
  }

  lemma {:induction false} LastDropped(a: Term, b: Term, c: Term)
    requires a.kind.Var? && b.kind.Var? && (c == TrueTerm || c == FalseTerm)
    ensures Without([a, b, c], c.kind) == [a, b]
  {
    assert [a, b, c][..2] == [a, b] && [a, b][..1] == [a] && [a][..0] == [];
    assert Without([a], c.kind) == [a];
    assert Without([a, b], c.kind) == [a, b];
  }

  /** The model with p alone true. */
  lemma {:induction false} PairAndTriple(a: Term, b: Term, c: Term, m: Model)
    requires a.kind.Var? && b.kind.Var? && c.kind.Var? && a.sort == b.sort == c.sort == Bool
    requires m.leaf(a) == B(true) && m.leaf(b) == m.leaf(c) == B(false)
    ensures Value(a, m) == B(true) == Value(TrueTerm, m) && Value(c, m) == B(false) == Value(FalseTerm, m)
    ensures Holds(MkOper(Bool, Eq, [b, c]), m) && !Holds(MkOper(Bool, Eq, [a, b, c]), m)
    ensures Holds(MkOper(Bool, Distinct, [a, b]), m) && !Holds(MkOper(Bool, Distinct, [a, b, c]), m)
  {
    hide Value;
    Unfold(a, m);
    Unfold(b, m);
    Unfold(c, m);
    Unfold(TrueTerm, m);
    Unfold(FalseTerm, m);
    var bc, ab, abc := Values([b, c], m), Values([a, b], m), Values([a, b, c], m);
    assert abc[1] != abc[0] && abc[1] == abc[2] && bc[1] == bc[0] && ab[1] != ab[0];
    ChainHolds(MkOper(Bool, Eq, [b, c]), m);
    ChainHolds(MkOper(Bool, Eq, [a, b, c]), m);
    ChainHolds(MkOper(Bool, Distinct, [a, b]), m);
    ChainHolds(MkOper(Bool, Distinct, [a, b, c]), m);
  }

  /** `(xor (= x y z) p)` over integers or strings under p := true evaluates to
      `(distinct x y z)`: with exactly two of them equal the input holds and the
      result does not. */
  lemma ChainNegated(s: Sort) returns (t: Term, pm: Partial, m: Model)
    requires s == Int || s == Str
    ensures t == MkOper(Bool, Xor, [MkOper(Bool, Eq, Three(s)), BoolP]) && pm == map[BoolP := TrueTerm]
    ensures EvalInput(t) && PartialOk(pm) && Extends(pm, m)
    ensures Eval(t, pm) == Outcome(true, MkOper(Bool, Distinct, Three(s)))
    ensures !Holds(Eval(t, pm).term, m) && Holds(t, m)
  {
    hide Value, Holds, Consts, NonConsts, TrueCount, Eval, EvalInput, Results, AnyChanged, Settle, Ready, IsStrTerm;
    var c := MkOper(Bool, Eq, Three(s));
    t, pm := MkOper(Bool, Xor, [c, BoolP]), map[BoolP := TrueTerm];
    m := TwoAgree(s, true);
    assert BoolP in pm;
    VarEval(BoolP, pm);
    ChainEval(c, s, pm);
    PairResults(c, BoolP, pm);
    var rs := [c, TrueTerm];
    ChainAndTrue(c);
    XorInput(t, c);
    NodeEval(t, pm);
    XorSettled(t, rs, true);
    ChainSwapped(c, s);
    TornTriple(c, s, m);
    XorHolds([c, BoolP], m);
    OddAppend([c], BoolP, m);
    OddOfFew([c], m);
    assert [c] + [BoolP] == [c, BoolP];
  }

  /** So does `(= (= x y z) p)` under p := false. */
  lemma ChainComparedWithFalse(s: Sort) returns (t: Term, pm: Partial, m: Model)
    requires s == Int || s == Str
    ensures t == MkOper(Bool, Eq, [MkOper(Bool, Eq, Three(s)), BoolP]) && pm == map[BoolP := FalseTerm]
    ensures EvalInput(t) && PartialOk(pm) && Extends(pm, m)
    ensures Eval(t, pm) == Outcome(true, MkOper(Bool, Distinct, Three(s)))
    ensures !Holds(Eval(t, pm).term, m) && Holds(t, m)
  {
    hide Value, Holds, Consts, NonConsts, Eval, EvalInput, Results, AnyChanged, Settle, Ready, IsStrTerm, EqualOf;
    var c := MkOper(Bool, Eq, Three(s));
    t, pm := MkOper(Bool, Eq, [c, BoolP]), map[BoolP := FalseTerm];
    m := TwoAgree(s, false);
    assert BoolP in pm;
    VarEval(BoolP, pm);
    ChainEval(c, s, pm);
    PairResults(c, BoolP, pm);
    ChainAndFalse(c);
    EqInput(t, c);
    NodeEval(t, pm);
    ComparisonSettled(t, [c, FalseTerm], true);
    ChainSwapped(c, s);
    TornTriple(c, s, m);
    ValueHasSort(c, m);
    EqPairHolds(c, BoolP, m);
  }

  lemma {:induction false} XorInput(t: Term, c: Term)
    requires EvalInput(c) && c.sort == Bool && t == MkOper(Bool, Xor, [c, BoolP])
    ensures EvalInput(t) && IsNode(t)
  {
    assert Operands(t, Bool);
  }

  lemma {:induction false} EqInput(t: Term, c: Term)
    requires EvalInput(c) && c.sort == Bool && t == MkOper(Bool, Eq, [c, BoolP])
    ensures EvalInput(t) && IsNode(t)
  {
    assert Operands(t, Bool);
  }

  lemma {:induction false} ChainAndTrue(c: Term)
    requires c.kind.Eq?
    ensures NonConsts([c, TrueTerm]) == [c] && TrueCount([c, TrueTerm]) == 1
  {
    var rs := [c, TrueTerm];
    assert rs[..1] == [c] && [c][..0] == [];
    assert NonConsts([c]) == [c] && TrueCount([c]) == 0;
  }

  lemma {:induction false} ChainAndFalse(c: Term)
    requires c.kind.Eq?
    ensures Consts([c, FalseTerm]) == [FalseTerm] && IsCanonical(FalseTerm)
    ensures EqualOf([c, FalseTerm]) == MkNot(c)
  {
    hide MkNot, Consts, NonConsts;
    NothingSplit();
    SplitAppend([], c);
    SplitAppend([c], FalseTerm);
    assert [] + [c] == [c] && [c] + [FalseTerm] == [c, FalseTerm] && [] + [FalseTerm] == [FalseTerm];
  }

  /** An equality that nothing changes. */
  lemma ChainEval(c: Term, s: Sort, pm: Partial)
    requires (s == Int || s == Str) && c == MkOper(Bool, Eq, Three(s))
    requires PartialOk(pm) && pm.Keys == {BoolP}
    ensures EvalInput(c) && Eval(c, pm) == Outcome(false, c)
  {
    hide Consts, NonConsts, Eval, EvalInput, Results, AnyChanged, Settle, Ready;
    var x, y, z := VarOf("x", s), VarOf("y", s), VarOf("z", s);
    assert BoolP in pm && x !in pm && y !in pm && z !in pm;
    VarEval(x, pm);
    VarEval(y, pm);
    VarEval(z, pm);
    TripleResults(x, y, z, pm);
    ThreeInput(c, s);
    NodeEval(c, pm);
    ComparisonSettled(c, Three(s), false);
  }

  lemma {:induction false} ThreeInput(c: Term, s: Sort)
    requires (s == Int || s == Str) && c == MkOper(Bool, Eq, Three(s))
    ensures EvalInput(c) && IsNode(c) && Consts(Three(s)) == []
  {
    var rs := Three(s);
    assert Operands(c, s);
    PrefixSplit(rs, 0);
    PrefixSplit(rs, 1);
    PrefixSplit(rs, 2);
    NothingSplit();
    assert rs[..3] == rs && rs[..0] == [];
  }

  lemma TornTriple(c: Term, s: Sort, m: Model)
    requires (s == Int || s == Str) && c == MkOper(Bool, Eq, Three(s))
    requires m == TwoAgree(s, true) || m == TwoAgree(s, false)
    ensures !Holds(MkOper(Bool, Distinct, Three(s)), m) && !Holds(c, m)
    ensures Value(BoolP, m) == m.leaf(BoolP) && Value(TrueTerm, m) == B(true) && Value(FalseTerm, m) == B(false)
  {
    hide Value;
    ChainFails(c, s, m);
    Unfold(BoolP, m);
    Unfold(TrueTerm, m);
    Unfold(FalseTerm, m);
  }
}
