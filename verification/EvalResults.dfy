// Partial evaluation: the fragment, and what each kind of node ends with.
module EvalResults {
  import opened Terms
  import opened Builders
  import opened EvalBuilders
  import opened EvalValues

  /** The values a partial model gives to variables. */
  type Partial = map<Term, Term>

  predicate IsEvalVar(t: Term) { t.kind.Var? || t.kind.TempVar? }

  /** Models assign constants of the variable's sort. */
  predicate PartialOk(pm: Partial) {
    forall v | v in pm :: IsEvalVar(v) && v.children == [] && IsCanonical(pm[v]) && pm[v].sort == v.sort
  }

  /** A total assignment that extends the partial model. */
  ghost predicate Extends(pm: Partial, m: Model) {
    forall v | v in pm :: Value(v, m) == Value(pm[v], m)
  }

  /** The fragment: connectives, ite, =, distinct, integer arithmetic and
      comparisons, and string concatenation, over operands of the right sorts. */
  predicate EvalInput(t: Term) {
    match t.kind
    case ConstTrue => IsCanonical(t)
    case ConstFalse => IsCanonical(t)
    case IntConst(_) => IsCanonical(t)
    case StrConst(_) => IsCanonical(t)
    case Var => t.children == []
    case TempVar(_) => t.children == []
    case Not => t.sort == Bool && |t.children| == 1 && Operands(t, Bool)
    case And => t.sort == Bool && Operands(t, Bool)
    case Or => t.sort == Bool && Operands(t, Bool)
    case Xor => t.sort == Bool && Operands(t, Bool)
    case Implies => t.sort == Bool && |t.children| == 2 && Operands(t, Bool)
    case Eq => t.sort == Bool && |t.children| >= 2 && Operands(t, t.children[0].sort)
    case Distinct => t.sort == Bool && |t.children| >= 2 && Operands(t, t.children[0].sort)
    case Ite =>
      && |t.children| == 3 && t.children[0].sort == Bool && t.children[1].sort == t.sort && t.children[2].sort == t.sort
      && forall i | 0 <= i < |t.children| :: EvalInput(t.children[i])
    case Neg => t.sort == Int && |t.children| == 1 && Operands(t, Int)
    case Add => t.sort == Int && Operands(t, Int)
    case Sub => t.sort == Int && Operands(t, Int)
    case Mul => t.sort == Int && Operands(t, Int)
    case Max => t.sort == Int && Operands(t, Int)
    case Min => t.sort == Int && Operands(t, Int)
    case Le => t.sort == Bool && |t.children| == 2 && Operands(t, Int)
    case Lt => t.sort == Bool && |t.children| == 2 && Operands(t, Int)
    case Ge => t.sort == Bool && |t.children| == 2 && Operands(t, Int)
    case Gt => t.sort == Bool && |t.children| == 2 && Operands(t, Int)
    case StrConcat => t.sort == Str && Operands(t, Str)
    case _ => false
  }

  predicate Operands(t: Term, s: Sort)
    decreases t, 0
  {
    t.children != [] && AllOfSort(t.children, s) && forall i | 0 <= i < |t.children| :: EvalInput(t.children[i])
  }

  predicate IsFragmentOp(k: Kind) {
    || k.Not? || k.And? || k.Or? || k.Xor? || k.Implies? || k.Eq? || k.Distinct? || k.Ite?
    || k.Neg? || k.Add? || k.Sub? || k.Mul? || k.Max? || k.Min? || k.Le? || k.Lt? || k.Ge? || k.Gt? || k.StrConcat?
  }

  predicate IsComparison(k: Kind) { k.Eq? || k.Distinct? }

  /** Operators of the fragment over some operands. */
  predicate IsNode(t: Term) { IsFragmentOp(t.kind) && EvalInput(t) }

  lemma {:induction false} NodeHasOperands(t: Term)
    requires IsNode(t)
    ensures t.children != [] && !IsConst(t) && !IsEvalVar(t)
    ensures forall i | 0 <= i < |t.children| :: EvalInput(t.children[i])
  {
    if !t.kind.Ite? {
      assert exists s :: Operands(t, s) by {
        if t.kind.Eq? || t.kind.Distinct? {
          assert Operands(t, t.children[0].sort);
        } else {
          assert Operands(t, Bool) || Operands(t, Int) || Operands(t, Str);
        }
      }
      var s :| Operands(t, s);
    }
  }

  /** The sorts of a node and of its operands. */
  lemma {:induction false} NodeSorts(t: Term)
    requires IsNode(t)
    ensures t.kind.And? || t.kind.Or? || t.kind.Xor? || t.kind.Not? || t.kind.Implies? ==>
              t.sort == Bool && AllOfSort(t.children, Bool)
    ensures IsComparison(t.kind) ==> t.sort == Bool && |t.children| >= 2 && AllOfSort(t.children, t.children[0].sort)
    ensures IsOrder(t.kind) ==> t.sort == Bool && AllOfSort(t.children, Int)
    ensures IsIntNode(t.kind) || t.kind.Neg? ==> t.sort == Int && AllOfSort(t.children, Int)
    ensures t.kind.StrConcat? ==> t.sort == Str && AllOfSort(t.children, Str)
    ensures t.kind.Not? || t.kind.Neg? ==> |t.children| == 1
    ensures t.kind.Implies? || IsOrder(t.kind) ==> |t.children| == 2
    ensures t.kind.Ite? ==> |t.children| == 3 && t.children[0].sort == Bool && t.children[1].sort == t.children[2].sort == t.sort
  {
    if IsComparison(t.kind) {
      assert Operands(t, t.children[0].sort);
    } else if t.kind.And? || t.kind.Or? || t.kind.Xor? || t.kind.Not? || t.kind.Implies? {
      assert Operands(t, Bool);
    } else if t.kind.StrConcat? {
      assert Operands(t, Str);
    } else if !t.kind.Ite? {
      assert Operands(t, Int);
    }
  }

  predicate IsIntNode(k: Kind) { IsIntFold(k) || k.Sub? }

  lemma {:induction false} InputPlain(t: Term)
    requires EvalInput(t)
    ensures Plain(t)
  {
    if t.kind.Not? {
      assert Operands(t, Bool);
      InputPlain(t.children[0]);
    }
  }

  // ------------------------------------------------------------------
  // Results of operands, and of a node
  // ------------------------------------------------------------------

  /** The shape of a result: plain, and without chained comparisons when the
      input has none. */
  predicate Shape(t: Term, r: Term) { Plain(r) && (ChainFree(t) ==> ChainFree(r)) }

  /** Results of the operands of a node. */
  predicate Ready(t: Term, rs: seq<Term>) {
    && IsNode(t) && |rs| == |t.children|
    && (forall i | 0 <= i < |rs| :: rs[i].sort == t.children[i].sort)
    && AllPlain(rs) && (ChainFree(t) ==> AllChainFree(rs))
  }

  predicate AllConst(rs: seq<Term>) { forall i | 0 <= i < |rs| :: IsConst(rs[i]) }

  lemma {:induction false} ReadyFacts(t: Term, rs: seq<Term>)
    requires Ready(t, rs)
    ensures AllCanonical(rs) && rs != []
    ensures forall c | c in Consts(rs) :: IsCanonical(c)
    ensures t.children[0].sort == rs[0].sort
    ensures forall s | AllOfSort(t.children, s) :: AllOfSort(rs, s)
    ensures AllOfSort(t.children, Int) ==> IntConsts(Consts(rs))
  {
    hide EvalInput, ChainFree, Consts, IsArithTerm, IsStrTerm;
    NodeHasOperands(t);
    Members(rs);
    assert AllCanonical(rs);
    assert forall i | 0 <= i < |rs| :: IsConst(rs[i]) ==> IsCanonical(rs[i]);
    if AllOfSort(t.children, Int) {
      ConstsAreInts(rs);
    }
  }

  /** Rebuilding over the results keeps the value. */
  lemma {:induction false} Rebuilt(t: Term, rs: seq<Term>, m: Model)
    requires IsFragmentOp(t.kind) && Values(rs, m) == Values(t.children, m)
    ensures Value(MkOper(t.sort, t.kind, rs), m) == Value(t, m)
  {
    hide Value;
    Unfold(t, m);
    Unfold(MkOper(t.sort, t.kind, rs), m);
  }

  // ------------------------------------------------------------------
  // Conjunction and disjunction
  // ------------------------------------------------------------------

  /** The operands that are left, joined. */
  function Conjoin(cs: seq<Term>): Term { if cs == [] then TrueTerm else if |cs| == 1 then cs[0] else MkAnd(cs) }

  function Disjoin(cs: seq<Term>): Term { if cs == [] then FalseTerm else if |cs| == 1 then cs[0] else MkOr(cs) }

  lemma {:induction false} ConjoinHolds(cs: seq<Term>, m: Model)
    ensures Holds(Conjoin(cs), m) <==> AllHold(cs, m)
    ensures Holds(Disjoin(cs), m) <==> AnyHolds(cs, m)
  {
    hide Holds, MkAnd, MkOr;
    ConstantsHold(m);
    assert IsTrue(TrueTerm) && IsFalse(FalseTerm);
    MkAndHolds(cs, m);
    MkOrHolds(cs, m);
    if |cs| == 1 {
      assert cs == [cs[0]];
    }
  }

  /** Joined from Boolean operands that are not constants. */
  lemma {:induction false} JoinedShape(cs: seq<Term>)
    requires AllOfSort(cs, Bool) && AllPlain(cs)
    ensures Conjoin(cs).sort == Bool && Plain(Conjoin(cs)) && Disjoin(cs).sort == Bool && Plain(Disjoin(cs))
    ensures AllChainFree(cs) ==> ChainFree(Conjoin(cs)) && ChainFree(Disjoin(cs))
    ensures cs == [] ==> IsConst(Conjoin(cs)) && IsConst(Disjoin(cs))
  {
    hide MkAnd, MkOr, ChainFree, Plain;
    TruthPlain();
    ConstantsOk();
    JunctionShape(cs);
    assert forall c | c in cs :: c.sort == Bool && Plain(c);
    if AllChainFree(cs) {
      assert forall c | c in cs :: ChainFree(c);
      JunctionChainFree(MkAnd(cs), cs);
      JunctionChainFree(MkOr(cs), cs);
    }
    assert |cs| == 1 ==> cs[0] in cs;
    JunctionPlain(MkAnd(cs));
    JunctionPlain(MkOr(cs));
  }

  lemma {:induction false} JunctionPlain(t: Term)
    ensures t.kind.And? || t.kind.Or? ==> Plain(t)
  {
  }

  lemma {:induction false} TruthPlain()
    ensures IsConst(TrueTerm) && Plain(TrueTerm) && IsConst(FalseTerm) && Plain(FalseTerm)
    ensures ChainFree(TrueTerm) && ChainFree(FalseTerm)
  {
  }

  lemma {:induction false} JunctionChainFree(t: Term, cs: seq<Term>)
    requires forall c | c in cs :: ChainFree(c) && c.sort == Bool
    ensures (t.kind.And? || t.kind.Or?) && t.sort == Bool && (forall c | c in t.children :: c in cs) ==> ChainFree(t)
  {
    hide ChainFree;
    if (t.kind.And? || t.kind.Or?) && t.sort == Bool && (forall c | c in t.children :: c in cs) {
      forall i | 0 <= i < |t.children|
        ensures ChainFree(t.children[i]) && t.children[i].sort == Bool
      {
        assert t.children[i] in cs;
      }
      BoolNodeChainFree(t.kind, t.children);
      NameUnread(t);
    }
  }

  lemma {:induction false} NameUnread(t: Term)
    requires (t.kind.And? || t.kind.Or?) && ChainFree(MkOper(t.sort, t.kind, t.children))
    ensures ChainFree(t)
  {
  }

  predicate AllTrueConsts(rs: seq<Term>) { forall c | c in Consts(rs) :: IsTrue(c) }

  predicate AllFalseConsts(rs: seq<Term>) { forall c | c in Consts(rs) :: IsFalse(c) }

  predicate HasFalse(ts: seq<Term>) { exists i :: 0 <= i < |ts| && IsFalse(ts[i]) }

  /** What is left of Boolean operands when the constants are taken out. */
  lemma {:induction false} RestFacts(rs: seq<Term>, s: Sort)
    requires AllOfSort(rs, s) && AllPlain(rs)
    ensures var cs := NonConsts(rs);
            && AllOfSort(cs, s) && AllPlain(cs) && (AllChainFree(rs) ==> AllChainFree(cs))
            && (AllConst(rs) ==> cs == [])
  {
    hide ChainFree, Plain, IsConst, Consts, NonConsts;
    Members(rs);
    var cs := NonConsts(rs);
    forall i | 0 <= i < |cs|
      ensures exists j :: 0 <= j < |rs| && rs[j] == cs[i] && !IsConst(rs[j])
    {
      assert cs[i] in cs && cs[i] in rs;
      var j :| 0 <= j < |rs| && rs[j] == cs[i];
    }
    if cs != [] {
      assert exists j :: 0 <= j < |rs| && rs[j] == cs[0] && !IsConst(rs[j]);
    }
  }

  lemma {:induction false} DecidingConsts(rs: seq<Term>)
    requires AllOfSort(rs, Bool) && AllCanonical(rs)
    ensures !HasFalse(rs) ==> AllTrueConsts(rs)
    ensures !HasTrue(rs) ==> AllFalseConsts(rs)
  {
    hide Consts;
    Members(rs);
    forall c | c in Consts(rs)
      ensures exists i :: 0 <= i < |rs| && rs[i] == c && (IsTrue(rs[i]) || IsFalse(rs[i]))
    {
      var i :| 0 <= i < |rs| && rs[i] == c;
    }
  }

  lemma {:induction false} ConjunctionValue(rs: seq<Term>, m: Model)
    requires AllOfSort(rs, Bool) && AllPlain(rs)
    ensures AllCanonical(rs)
    ensures !HasFalse(rs) ==> Value(Conjoin(NonConsts(rs)), m) == Value(MkOper(Bool, And, rs), m)
    ensures !HasTrue(rs) ==> Value(Disjoin(NonConsts(rs)), m) == Value(MkOper(Bool, Or, rs), m)
  {
    hide Value, Holds, Conjoin, Disjoin, Consts, NonConsts, IsConst, IsCanonical, IsArithTerm, IsStrTerm;
    var cs := NonConsts(rs);
    assert AllCanonical(rs);
    DecidingConsts(rs);
    RestFacts(rs, Bool);
    JoinedShape(cs);
    AndHolds(MkOper(Bool, And, rs), m);
    OrHolds(MkOper(Bool, Or, rs), m);
    ConjoinHolds(cs, m);
    if !HasFalse(rs) {
      ConjunctionRest(rs, m);
    }
    if !HasTrue(rs) {
      DisjunctionRest(rs, m);
    }
    ValueHasSort(Conjoin(cs), m);
    ValueHasSort(Disjoin(cs), m);
    ValueHasSort(MkOper(Bool, And, rs), m);
    ValueHasSort(MkOper(Bool, Or, rs), m);
  }

  /** A constant operand that decides the connective. */
  lemma {:induction false} DecidedValue(rs: seq<Term>, m: Model)
    ensures HasFalse(rs) ==> Value(MkOper(Bool, And, rs), m) == Value(FalseTerm, m)
    ensures HasTrue(rs) ==> Value(MkOper(Bool, Or, rs), m) == Value(TrueTerm, m)
  {
    hide Value, Holds;
    ConstantsHold(m);
    assert IsTrue(TrueTerm) && IsFalse(FalseTerm);
    AndHolds(MkOper(Bool, And, rs), m);
    OrHolds(MkOper(Bool, Or, rs), m);
    ValueHasSort(FalseTerm, m);
    ValueHasSort(TrueTerm, m);
    ValueHasSort(MkOper(Bool, And, rs), m);
    ValueHasSort(MkOper(Bool, Or, rs), m);
  }

  // ------------------------------------------------------------------
  // Operators folded over one or two operands
  // ------------------------------------------------------------------

  lemma {:induction false} Fold1Value(t: Term, p: Term, m: Model)
    requires t.kind.Not? || t.kind.Neg?
    requires IsConst(p) ==> IsCanonical(p)
    ensures var r := Fold1(t.sort, t.kind, p);
            Value(r, m) == Value(MkOper(t.sort, t.kind, [p]), m) || t.sort != (if t.kind.Not? then Bool else Int)
  {
    hide Value;
    var u := MkOper(t.sort, t.kind, [p]);
    var vs := Values([p], m);
    Unfold(u, m);
    if IsConst(p) {
      ConstantValue(p, m);
    }
    Unfold(TrueTerm, m);
    Unfold(FalseTerm, m);
    if p.kind.IntConst? {
      Unfold(IntTerm(-p.kind.n), m);
    }
  }

  lemma {:induction false} ImpliesValue(l: Term, r: Term, m: Model)
    requires (IsConst(l) ==> IsCanonical(l)) && (IsConst(r) ==> IsCanonical(r))
    ensures Value(Fold2(Bool, Implies, l, r), m) == Value(MkOper(Bool, Implies, [l, r]), m)
  {
    hide Value;
    var vs := Values([l, r], m);
    Unfold(MkOper(Bool, Implies, [l, r]), m);
    assert AllTrue(vs[..1]) <==> AsBool(vs[0]);
    Unfold(TrueTerm, m);
    Unfold(FalseTerm, m);
    if IsTrue(l) || IsFalse(l) {
      ConstantValue(l, m);
    }
    if IsTrue(r) || IsFalse(r) {
      ConstantValue(r, m);
    }
  }

  lemma {:induction false} OrderValue(k: Kind, l: Term, r: Term, m: Model)
    requires IsOrder(k)
    requires (IsConst(l) ==> IsCanonical(l)) && (IsConst(r) ==> IsCanonical(r))
    ensures Value(Fold2(Bool, k, l, r), m) == Value(MkOper(Bool, k, [l, r]), m)
  {
    hide Value;
    Unfold(MkOper(Bool, k, [l, r]), m);
    if l.kind.IntConst? && r.kind.IntConst? {
      ConstantValue(l, m);
      ConstantValue(r, m);
      Unfold(BoolTerm(Compare(k, l.kind.n, r.kind.n)), m);
    }
  }

  lemma {:induction false} Fold2Value(s: Sort, k: Kind, l: Term, r: Term, m: Model)
    requires k.Implies? || IsOrder(k)
    requires s == Bool && (IsConst(l) ==> IsCanonical(l)) && (IsConst(r) ==> IsCanonical(r))
    ensures Value(Fold2(s, k, l, r), m) == Value(MkOper(s, k, [l, r]), m)
  {
    hide Value, Fold2;
    if k.Implies? {
      ImpliesValue(l, r, m);
    } else {
      OrderValue(k, l, r, m);
    }
  }

  lemma {:induction false} Fold1Shape(t: Term, p: Term)
    requires t.kind.Not? || t.kind.Neg?
    requires p.sort == t.sort == (if t.kind.Not? then Bool else Int) && Plain(p)
    requires ChainFree(t) ==> ChainFree(p)
    ensures var r := Fold1(t.sort, t.kind, p);
            r.sort == t.sort && Shape(t, r) && (IsConst(p) ==> IsConst(r))
  {
    hide IsArithTerm, IsStrTerm;
    var r := Fold1(t.sort, t.kind, p);
    TruthPlain();
    if r == MkOper(t.sort, t.kind, [p]) {
      assert r.children == [p];
    } else if t.kind.Neg? {
      CanonicalChainFree(r);
    }
  }

  lemma {:induction false} Fold2Shape(t: Term, p: Term, q: Term)
    requires t.sort == Bool && (t.kind.Implies? || IsOrder(t.kind))
    requires p.sort == q.sort == (if t.kind.Implies? then Bool else Int) && Plain(p) && Plain(q)
    requires ChainFree(t) ==> ChainFree(p) && ChainFree(q)
    ensures var r := Fold2(t.sort, t.kind, p, q);
            r.sort == Bool && Shape(t, r) && (IsConst(p) && IsConst(q) ==> IsConst(r))
  {
    hide ChainFree, IsArithTerm, IsStrTerm, Fold2, KindName, Plain;
    TruthPlain();
    PlainConst(p);
    PlainConst(q);
    Fold2Cases(t.kind, p, q);
    OrderPlain(t.kind, p, q);
    if ChainFree(t) {
      if t.kind.Implies? {
        BoolNodeChainFree(Implies, [p, q]);
      } else {
        OrderChainFree(t.kind, p, q);
      }
    }
  }

  lemma {:induction false} PlainConst(t: Term)
    requires Plain(t)
    ensures IsConst(t) ==> IsCanonical(t)
  {
  }

  lemma {:induction false} OrderPlain(k: Kind, p: Term, q: Term)
    requires k.Implies? || IsOrder(k)
    ensures Plain(MkOper(Bool, k, [p, q]))
  {
  }

  /** The node, or a truth value, and a truth value for two constants. */
  lemma {:induction false} Fold2Cases(k: Kind, p: Term, q: Term)
    requires k.Implies? || IsOrder(k)
    requires p.sort == q.sort == (if k.Implies? then Bool else Int)
    requires (IsConst(p) ==> IsCanonical(p)) && (IsConst(q) ==> IsCanonical(q))
    ensures var r := Fold2(Bool, k, p, q);
            && (r == MkOper(Bool, k, [p, q]) || r == TrueTerm || r == FalseTerm)
            && (IsConst(p) && IsConst(q) ==> r == TrueTerm || r == FalseTerm)
  {
  }

  lemma {:induction false} OrderChainFree(k: Kind, p: Term, q: Term)
    requires IsOrder(k) && ChainFree(p) && ChainFree(q)
    ensures ChainFree(MkOper(Bool, k, [p, q]))
  {
    hide IsArithTerm, IsStrTerm;
    var r := MkOper(Bool, k, [p, q]);
    assert r.children[0] == p && r.children[1] == q;
  }

  // ------------------------------------------------------------------
  // Folding constants into one operand
  // ------------------------------------------------------------------

  /** What +, *, max and min end with. */
  function Regrouped(k: Kind, rs: seq<Term>): Term
    requires IntConsts(Consts(rs))
  {
    var non, con := NonConsts(rs), Consts(rs);
    if con == [] then (if |non| == 1 then non[0] else MkOper(Int, k, non))
    else
      var c := IntTerm(FoldConsts(k, con));
      if non == [] then c else MkOper(Int, k, non + [c])
  }

  /** What subtraction ends with. */
  function Subtracted(rs: seq<Term>): Term
    requires rs != [] && IntConsts(Consts(rs))
  {
    var non, con := NonConsts(rs), Consts(rs);
    if con == [] then (if |non| == 1 then non[0] else MkOper(Int, Sub, non))
    else if IsConst(rs[0]) then
      var c := IntTerm(FoldConsts(Sub, con));
      if non == [] then c else MkOper(Int, Sub, [c] + non)
    else
      var c := IntTerm(FoldConsts(Add, con));
      if non == [] then c else MkOper(Int, Sub, non + [c])
  }

  lemma {:induction false} RegroupedValue(k: Kind, rs: seq<Term>, m: Model)
    requires IsIntFold(k) && rs != [] && AllOfSort(rs, Int) && AllCanonical(rs) && IntConsts(Consts(rs))
    ensures Value(Regrouped(k, rs), m) == Value(MkOper(Int, k, rs), m)
  {
    hide Value, Consts, NonConsts, FoldConsts, IsCanonical, IsConst;
    Covers(rs);
    if Consts(rs) == [] {
      if |rs| == 1 {
        assert rs == [rs[0]];
        OneOperand(k, rs[0], m);
      }
    } else {
      RegroupKeeps(k, rs, m);
    }
  }

  lemma {:induction false} SubtractedValue(rs: seq<Term>, m: Model)
    requires rs != [] && AllOfSort(rs, Int) && IntConsts(Consts(rs))
    ensures Value(Subtracted(rs), m) == Value(MkOper(Int, Sub, rs), m)
  {
    hide Value, Consts, NonConsts, FoldConsts, IsCanonical, IsConst;
    Covers(rs);
    if Consts(rs) == [] {
      if |rs| == 1 {
        assert rs == [rs[0]];
        OneDifference(rs[0], m);
      }
    } else if IsConst(rs[0]) {
      DifferenceFromConst(rs, m);
    } else {
      DifferenceFromOther(rs, m);
    }
  }

  /** Integer nodes over operands, and what is left of them, keep the shape. */
  lemma {:induction false} IntNodeShape(t: Term, k: Kind, ts: seq<Term>)
    requires IsIntNode(k) && (ChainFree(t) ==> AllChainFree(ts))
    ensures Shape(t, MkOper(Int, k, ts)) && MkOper(Int, k, ts).sort == Int
  {
    hide IsArithTerm, IsStrTerm, KindName;
    var r := MkOper(Int, k, ts);
    if ChainFree(t) {
      assert !IsComp(r);
    }
  }

  lemma {:induction false} IntConstShape(t: Term, n: int)
    ensures Shape(t, IntTerm(n)) && IntTerm(n).sort == Int && IsConst(IntTerm(n)) && ChainFree(IntTerm(n))
  {
    CanonicalChainFree(IntTerm(n));
  }

  /** The shape of a regrouped or subtracted result. */
  lemma {:induction false} FoldedShape(t: Term, rs: seq<Term>)
    requires IsIntNode(t.kind) && rs != [] && AllOfSort(rs, Int) && IntConsts(Consts(rs))
    requires AllPlain(rs) && (ChainFree(t) ==> AllChainFree(rs))
    ensures var r := if t.kind.Sub? then Subtracted(rs) else Regrouped(t.kind, rs);
            r.sort == Int && Shape(t, r) && (AllConst(rs) ==> IsConst(r))
  {
    hide ChainFree, Plain, Consts, NonConsts, FoldConsts, IsConst, IsCanonical;
    var non, con := NonConsts(rs), Consts(rs);
    RestFacts(rs, Int);
    Covers(rs);
    forall n: int
      ensures Shape(t, IntTerm(n)) && IsConst(IntTerm(n)) && ChainFree(IntTerm(n))
    {
      IntConstShape(t, n);
    }
    IntNodeShape(t, t.kind, non);
    if con != [] {
      IntNodeShape(t, t.kind, non + [IntTerm(FoldConsts(t.kind, con))]);
      IntNodeShape(t, t.kind, non + [IntTerm(FoldConsts(Add, con))]);
      IntNodeShape(t, t.kind, [IntTerm(FoldConsts(Sub, con))] + non);
    }
  }

  // ------------------------------------------------------------------
  // Exclusive or
  // ------------------------------------------------------------------

  /** What an exclusive or ends with: the open operands, negated for an odd
      number of true constants. */
  function XorOf(rest: seq<Term>, odd: bool): Term {
    if rest == [] then BoolTerm(odd)
    else if |rest| == 1 then (if odd then MkNot(rest[0]) else rest[0])
    else if odd then MkNot(MkXor(rest))
    else MkXor(rest)
  }

  /** Where it goes wrong: the one open operand is negated and torn. */
  ghost predicate XorMisread(rest: seq<Term>, odd: bool, m: Model) { odd && |rest| == 1 && Torn(rest[0], m) }

  lemma {:induction false} XorOfExact(rest: seq<Term>, odd: bool, m: Model)
    requires AllOfSort(rest, Bool) && AllPlain(rest) && forall x | x in rest :: !IsConst(x)
    ensures (Holds(XorOf(rest, odd), m) <==> Odd(Values(rest, m)) != odd) <==> !XorMisread(rest, odd, m)
    ensures XorOf(rest, odd).sort == Bool && Plain(XorOf(rest, odd))
    ensures AllChainFree(rest) ==> ChainFree(XorOf(rest, odd))
    ensures rest == [] ==> IsConst(XorOf(rest, odd))
  {
    hide Holds, MkNot, MkXor, ChainFree, Odd, Value, Plain, Torn;
    ConstantsHold(m);
    TruthPlain();
    OddOfFew(rest, m);
    MkXorHolds(rest, m);
    if rest == [] {
      assert IsTrue(TrueTerm) && IsFalse(FalseTerm);
    } else if |rest| == 1 {
      MkNotExact(rest[0], m);
      if AllChainFree(rest) {
        NegationChainFree(rest[0]);
      }
    } else {
      XorNode(rest, m);
      MkNotExact(MkXor(rest), m);
      if AllChainFree(rest) {
        MkXorChainFree(rest);
        NegationChainFree(MkXor(rest));
      }
    }
  }

  /** mkXor of open operands is the node over them, which is never torn. */
  lemma {:induction false} XorNode(rest: seq<Term>, m: Model)
    requires |rest| > 1 && forall x | x in rest :: !IsConst(x)
    ensures Plain(MkXor(rest)) && !Torn(MkXor(rest), m)
  {
    hide Without;
    assert forall i | 0 <= i < |rest| :: rest[i] in rest;
    WithoutNone(rest, ConstFalse);
  }

  lemma {:induction false} XorValue(rs: seq<Term>, m: Model)
    requires AllOfSort(rs, Bool) && AllPlain(rs)
    ensures var cs, odd := NonConsts(rs), TrueCount(rs) % 2 == 1;
            Value(XorOf(cs, odd), m) == Value(MkOper(Bool, Xor, rs), m) <==> !XorMisread(cs, odd, m)
  {
    hide Value, Holds, XorOf, Consts, NonConsts, IsConst, IsCanonical, TrueCount, Torn, Odd, IsArithTerm, IsStrTerm;
    var cs, odd := NonConsts(rs), TrueCount(rs) % 2 == 1;
    assert AllCanonical(rs);
    RestFacts(rs, Bool);
    Members(rs);
    XorOfExact(cs, odd, m);
    XorHolds(rs, m);
    ParityRest(rs, m);
    ValueHasSort(XorOf(cs, odd), m);
    ValueHasSort(MkOper(Bool, Xor, rs), m);
  }

  // ------------------------------------------------------------------
  // Equality and distinctness
  // ------------------------------------------------------------------

  /** What equality ends with. */
  function EqualOf(rs: seq<Term>): Term
    requires forall c | c in Consts(rs) :: IsCanonical(c)
  {
    var non, con := NonConsts(rs), Consts(rs);
    if con == [] then MkEqual(non)
    else if exists c :: c in con && ConstValue(c) != ConstValue(con[0]) then FalseTerm
    else if non == [] then TrueTerm
    else MkEqual(non + [con[0]])
  }

  /** What distinctness ends with. */
  function DistinctOf(rs: seq<Term>): Term {
    var non, con := NonConsts(rs), Consts(rs);
    if exists i, j :: 0 <= i < j < |con| && con[i] == con[j] then FalseTerm
    else if con == [] then MkDistinct(non)
    else if non == [] then TrueTerm
    else MkDistinct(non + con)
  }

  lemma {:induction false} CanonicalConsts(rs: seq<Term>)
    requires AllCanonical(rs)
    ensures forall c | c in Consts(rs) :: IsCanonical(c) && c in rs
  {
    Members(rs);
  }

  /** All values agree exactly when the constants agree and the others agree
      with them. */
  lemma {:induction false} EqualSplit(rs: seq<Term>, m: Model)
    requires AllCanonical(rs) && Consts(rs) != []
    ensures forall c | c in Consts(rs) :: IsCanonical(c)
    ensures var non, con := NonConsts(rs), Consts(rs);
            AllEqual(Values(rs, m)) <==>
            (forall c | c in con :: ConstValue(c) == ConstValue(con[0])) && AllEqual(Values(non + [con[0]], m))
  {
    hide Value, Consts, NonConsts, IsCanonical, IsConst, ConstValue;
    var non, con := NonConsts(rs), Consts(rs);
    var all := non + [con[0]];
    Members(rs);
    Covers(rs);
    CanonicalConsts(rs);
    assert con[0] in con && con[0] in rs;
    forall c | c in con
      ensures Value(c, m) == ConstValue(c)
    {
      ConstantValue(c, m);
    }
    EqualTo(rs, con[0], m);
    assert all[|non|] == con[0];
    EqualTo(all, con[0], m);
    assert forall x | x in all :: x in rs;
    assert forall x | x in rs :: x in con || x in all by {
      forall x | x in non
        ensures x in all
      {
        var i :| 0 <= i < |non| && non[i] == x;
        assert all[i] == x;
      }
    }
  }

  /** Equality as agreement with one member. */
  lemma {:induction false} EqualTo(ts: seq<Term>, x: Term, m: Model)
    requires x in ts
    ensures AllEqual(Values(ts, m)) <==> forall y | y in ts :: Value(y, m) == Value(x, m)
  {
    hide Value;
    var vs := Values(ts, m);
    var k :| 0 <= k < |ts| && ts[k] == x;
    assert vs[k] == Value(x, m);
    if AllEqual(vs) {
      forall y | y in ts
        ensures Value(y, m) == Value(x, m)
      {
        var i :| 0 <= i < |ts| && ts[i] == y;
        assert vs[i] == vs[0] && vs[k] == vs[0];
      }
    } else {
      var i :| 0 <= i < |vs| && vs[i] != vs[0];
      assert ts[i] in ts && ts[0] in ts;
    }
  }

  /** The operands mkEq is called on. */
  function EqualArgs(rs: seq<Term>): seq<Term> {
    if Consts(rs) == [] then NonConsts(rs) else NonConsts(rs) + [Consts(rs)[0]]
  }

  predicate HasRepeated(cs: seq<Term>) { exists i, j :: 0 <= i < j < |cs| && cs[i] == cs[j] }

  /** Where a comparison of Booleans goes wrong: mkEq or mkDistinct is called,
      and misreads. */
  ghost predicate ComparisonMisread(k: Kind, rs: seq<Term>, m: Model) {
    && rs != [] && rs[0].sort == Bool
    && NonConsts(rs) != []
    && if k.Eq? then (forall c | c in Consts(rs) :: c == Consts(rs)[0]) && EqualMisread(EqualArgs(rs), m)
       else !HasRepeated(Consts(rs)) && DistinctMisread(NonConsts(rs) + Consts(rs), m)
  }

  /** Sorts and shapes of the two parts. */
  lemma {:induction false} SplitMembers(rs: seq<Term>, s: Sort)
    requires AllOfSort(rs, s) && AllPlain(rs)
    ensures var non, con := NonConsts(rs), Consts(rs);
            && |non| + |con| == |rs|
            && AllOfSort(non + con, s) && AllPlain(non + con) && (AllChainFree(rs) ==> AllChainFree(non + con))
            && AllOfSort(EqualArgs(rs), s) && AllPlain(EqualArgs(rs)) && (AllChainFree(rs) ==> AllChainFree(EqualArgs(rs)))
  {
    hide ChainFree, Plain, Consts, NonConsts, IsConst;
    var non, con := NonConsts(rs), Consts(rs);
    Members(rs);
    Covers(rs);
    forall i | 0 <= i < |non + con|
      ensures exists j :: 0 <= j < |rs| && rs[j] == (non + con)[i]
    {
      if i < |non| {
        assert non[i] in non && non[i] in rs;
      } else {
        assert con[i - |non|] in con && con[i - |non|] in rs;
      }
    }
    var one := EqualArgs(rs);
    forall i | 0 <= i < |one|
      ensures one[i] == (non + con)[i]
    {
    }
  }

  lemma {:induction false} EqualConsts(con: seq<Term>)
    requires con != [] && forall c | c in con :: IsCanonical(c)
    ensures (forall c | c in con :: ConstValue(c) == ConstValue(con[0])) <==> (forall c | c in con :: c == con[0])
  {
    hide ConstValue, IsCanonical;
    forall c | c in con
      ensures ConstValue(c) == ConstValue(con[0]) <==> c == con[0]
    {
      SameConstant(c, con[0]);
    }
  }

  lemma {:induction false} EqualOfExact(rs: seq<Term>, s: Sort, m: Model)
    requires |rs| >= 2 && AllOfSort(rs, s) && AllPlain(rs)
    ensures forall c | c in Consts(rs) :: IsCanonical(c)
    ensures EqualOf(rs).sort == Bool && Plain(EqualOf(rs))
    ensures (Holds(EqualOf(rs), m) <==> AllEqual(Values(rs, m))) <==> !ComparisonMisread(Eq, rs, m)
  {
    hide Value, Holds, Consts, NonConsts, IsCanonical, IsConst, ConstValue, MkEqual, Plain, EqualMisread, AllEqual;
    var non, con := NonConsts(rs), Consts(rs);
    AllPlainCanonical(rs);
    CanonicalConsts(rs);
    Covers(rs);
    ConstantsHold(m);
    TruthPlain();
    assert IsTrue(TrueTerm) && IsFalse(FalseTerm);
    SplitMembers(rs, s);
    var args := EqualArgs(rs);
    if con != [] {
      assert con[0] in con;
      EqualConsts(con);
      EqualSplit(rs, m);
    }
    if non == [] {
      OneEqual(args, m);
    } else {
      if s == Bool {
        MkEqualExact(args, m);
      } else {
        PlainComparands(args, s, Eq);
        MkEqualHolds(args, s, m);
      }
    }
  }

  lemma {:induction false} OneEqual(ts: seq<Term>, m: Model)
    requires |ts| == 1
    ensures AllEqual(Values(ts, m))
  {
    hide Value;
  }

  lemma {:induction false} AllPlainCanonical(rs: seq<Term>)
    requires AllPlain(rs)
    ensures AllCanonical(rs)
  {
  }

  /** Operands that are not Boolean are no negations. */
  lemma {:induction false} PlainComparands(ts: seq<Term>, s: Sort, k: Kind)
    requires |ts| >= 2 && AllOfSort(ts, s) && AllPlain(ts) && s != Bool && IsComparison(k)
    ensures forall i | 0 <= i < |ts| :: !ts[i].kind.Not?
    ensures Plain(MkOper(Bool, k, ts))
  {
    assert forall i | 0 <= i < |ts| :: Plain(ts[i]);
  }

  lemma {:induction false} DistinctMultiset(vs: seq<Val>)
    ensures PairwiseDistinct(vs) <==> forall v :: multiset(vs)[v] <= 1
  {
    if vs != [] {
      var n := |vs| - 1;
      var x := vs[n];
      DistinctMultiset(vs[..n]);
      assert vs == vs[..n] + [x];
      if PairwiseDistinct(vs) {
        assert x !in vs[..n];
      }
      if forall v :: multiset(vs)[v] <= 1 {
        assert multiset(vs)[x] == multiset(vs[..n])[x] + 1;
        assert x !in multiset(vs[..n]);
        assert forall v :: multiset(vs[..n])[v] <= multiset(vs)[v];
      }
    }
  }

  lemma {:induction false} ValuesConcat(a: seq<Term>, b: seq<Term>, m: Model)
    ensures Values(a + b, m) == Values(a, m) + Values(b, m)
  {
    hide Value;
  }

  /** Taking the constants to the end permutes the values. */
  lemma {:induction false} SplitPermutes(rs: seq<Term>, m: Model)
    ensures multiset(Values(rs, m)) == multiset(Values(NonConsts(rs) + Consts(rs), m))
  {
    hide Value, Consts, NonConsts, IsConst;
    if rs == [] {
      NothingSplit();
    } else {
      var n := |rs| - 1;
      var x, before := rs[n], rs[..n];
      var non, con := NonConsts(before), Consts(before);
      SplitPermutes(before, m);
      SplitLast(rs);
      ValuesConcat(before, [x], m);
      ValuesConcat(non, con, m);
      ValuesConcat(non + [x], con, m);
      ValuesConcat(non, [x], m);
      ValuesConcat(non, con + [x], m);
      ValuesConcat(con, [x], m);
    }
  }

  lemma {:induction false} DistinctPermuted(rs: seq<Term>, m: Model)
    ensures PairwiseDistinct(Values(rs, m)) <==> PairwiseDistinct(Values(NonConsts(rs) + Consts(rs), m))
  {
    hide Value, Consts, NonConsts, PairwiseDistinct;
    SplitPermutes(rs, m);
    DistinctMultiset(Values(rs, m));
    DistinctMultiset(Values(NonConsts(rs) + Consts(rs), m));
  }

  /** Different constants have different values. */
  lemma {:induction false} ConstsDistinct(cs: seq<Term>, m: Model)
    requires forall c | c in cs :: IsCanonical(c)
    ensures PairwiseDistinct(Values(cs, m)) <==> !(exists i, j :: 0 <= i < j < |cs| && cs[i] == cs[j])
  {
    hide Value, IsCanonical, ConstValue;
    var vs := Values(cs, m);
    forall i, j | 0 <= i < j < |cs|
      ensures vs[i] == vs[j] <==> cs[i] == cs[j]
    {
      ConstantValue(cs[i], m);
      ConstantValue(cs[j], m);
      SameConstant(cs[i], cs[j]);
    }
  }

  lemma {:induction false} SubsetDistinct(a: seq<Term>, b: seq<Term>, m: Model)
    ensures PairwiseDistinct(Values(a + b, m)) ==> PairwiseDistinct(Values(b, m))
  {
    hide Value;
    ValuesConcat(a, b, m);
    var vs, ws := Values(a + b, m), Values(b, m);
    if PairwiseDistinct(vs) {
      forall i, j | 0 <= i < j < |ws|
        ensures ws[i] != ws[j]
      {
        assert vs[|a| + i] != vs[|a| + j];
      }
    }
  }

  /** What mkDistinct is called on has the values of the operands, reordered,
      and a repeated constant settles the matter. */
  lemma {:induction false} DistinctSplit(rs: seq<Term>, m: Model)
    requires AllPlain(rs)
    ensures PairwiseDistinct(Values(rs, m)) <==> PairwiseDistinct(Values(NonConsts(rs) + Consts(rs), m))
    ensures HasRepeated(Consts(rs)) ==> !PairwiseDistinct(Values(rs, m))
    ensures NonConsts(rs) == [] && !HasRepeated(Consts(rs)) ==> PairwiseDistinct(Values(rs, m))
  {
    hide Value, Consts, NonConsts, IsCanonical, IsConst, PairwiseDistinct, Plain;
    var non, con := NonConsts(rs), Consts(rs);
    AllPlainCanonical(rs);
    CanonicalConsts(rs);
    DistinctPermuted(rs, m);
    ConstsDistinct(con, m);
    SubsetDistinct(non, con, m);
    assert non == [] ==> non + con == con;
  }

  lemma {:induction false} DistinctOfExact(rs: seq<Term>, s: Sort, m: Model)
    requires |rs| >= 2 && AllOfSort(rs, s) && AllPlain(rs)
    ensures DistinctOf(rs).sort == Bool && Plain(DistinctOf(rs))
    ensures (Holds(DistinctOf(rs), m) <==> PairwiseDistinct(Values(rs, m))) <==> !ComparisonMisread(Distinct, rs, m)
  {
    hide Value, Holds, Consts, NonConsts, MkDistinct, Plain, PairwiseDistinct, DistinctMisread, Values;
    var non, con := NonConsts(rs), Consts(rs);
    Covers(rs);
    ConstantsHold(m);
    TruthPlain();
    assert IsTrue(TrueTerm) && IsFalse(FalseTerm);
    SplitMembers(rs, s);
    DistinctSplit(rs, m);
    if !HasRepeated(con) && non != [] {
      assert con == [] ==> non + con == non;
      assert DistinctOf(rs) == MkDistinct(non + con);
      if s == Bool {
        MkDistinctExact(non + con, m);
      } else {
        PlainComparands(non + con, s, Distinct);
        MkDistinctHolds(non + con, s, m);
      }
    }
  }

  lemma {:induction false} ComparisonValue(t: Term, rs: seq<Term>, m: Model)
    requires IsNode(t) && IsComparison(t.kind) && Ready(t, rs) && Values(rs, m) == Values(t.children, m)
    ensures forall c | c in Consts(rs) :: IsCanonical(c)
    ensures var r := if t.kind.Eq? then EqualOf(rs) else DistinctOf(rs);
            Value(r, m) == Value(t, m) <==> !ComparisonMisread(t.kind, rs, m)
  {
    hide Value, Holds, EvalInput, Consts, EqualOf, DistinctOf, ChainFree, Plain, AllEqual, PairwiseDistinct;
    ReadyFacts(t, rs);
    NodeSorts(t);
    var s := t.children[0].sort;
    EqualOfExact(rs, s, m);
    DistinctOfExact(rs, s, m);
    ChainHolds(t, m);
    ValueHasSort(EqualOf(rs), m);
    ValueHasSort(DistinctOf(rs), m);
    ValueHasSort(t, m);
  }

  /** The comparisons that mkNot swaps when they are chained. */
  predicate Swapped(k: Kind, s: Sort) { s == Int || (s == Str && k.Eq?) }

  /** An equality or distinctness node over two operands, or over operands that
      do not make it one that mkNot swaps. */
  lemma {:induction false} ComparisonChainFree(k: Kind, ops: seq<Term>, s: Sort)
    requires IsComparison(k) && AllOfSort(ops, s) && AllChainFree(ops) && ops != [] && (Swapped(k, s) ==> |ops| == 2)
    ensures ChainFree(MkOper(Bool, k, ops))
  {
    var r := MkOper(Bool, k, ops);
    assert ChainFree(ops[0]);
    assert s != Int ==> !IsArithTerm(ops[0]);
    assert s != Int && s != Str ==> !IsStrTerm(ops[0]);
    assert forall i | 0 <= i < |r.children| :: ChainFree(r.children[i]);
  }

  /** Integer operands make an arithmetic comparison. */
  lemma {:induction false} SwappedComparison(t: Term)
    requires IsNode(t) && IsComparison(t.kind) && Swapped(t.kind, t.children[0].sort)
    ensures ChainFree(t) ==> |t.children| == 2
  {
    var s := t.children[0].sort;
    assert Operands(t, s) && EvalInput(t.children[0]);
    assert s == Int ==> IsArithTerm(t.children[0]);
  }

  lemma {:induction false} KeptChainFree(args: seq<Term>, k: Kind, s: Sort)
    requires AllOfSort(args, s) && AllChainFree(args)
    ensures AllOfSort(Without(args, k), s) && AllChainFree(Without(args, k))
  {
    hide ChainFree, Without;
    var rest := Without(args, k);
    forall i | 0 <= i < |rest|
      ensures rest[i].sort == s && ChainFree(rest[i])
    {
      assert rest[i] in args;
    }
  }

  lemma {:induction false} MkEqualChainFree(args: seq<Term>, s: Sort)
    requires |args| >= 2 && AllOfSort(args, s) && AllPlain(args) && AllChainFree(args) && (Swapped(Eq, s) ==> |args| == 2)
    ensures ChainFree(MkEqual(args))
  {
    hide ChainFree, Plain, Without, MkEqPair, IsArithTerm, IsStrTerm, Holds, Value;
    TruthPlain();
    if |args| == 2 {
      if s != Bool {
        PlainComparands(args, s, Eq);
      }
      MkEqPairHolds(args[0], args[1], Model((l: Term) => U(0), (k, n, vs) => U(0), map[]));
      if s != Bool {
        PlainPair(args[0], args[1]);
        ComparisonChainFree(Eq, [args[0], args[1]], s);
      }
    } else {
      var rest := Without(args, ConstTrue);
      KeptChainFree(args, ConstTrue, s);
      if |rest| >= 2 {
        ComparisonChainFree(Eq, rest, s);
      }
    }
  }

  lemma {:induction false} MkDistinctChainFree(args: seq<Term>, s: Sort)
    requires |args| >= 2 && AllOfSort(args, s) && AllChainFree(args) && (s == Int ==> |args| == 2)
    ensures ChainFree(MkDistinct(args))
  {
    hide ChainFree, Without, IsArithTerm, IsStrTerm;
    TruthPlain();
    var rest := Without(args, ConstFalse);
    KeptChainFree(args, ConstFalse, s);
    if s == Int {
      WithoutNone(args, ConstFalse);
    }
    if |rest| >= 2 {
      ComparisonChainFree(Distinct, rest, s);
    }
  }

  /** Constant when every operand is, and of the input's shape. */
  lemma {:induction false} ComparisonShape(t: Term, rs: seq<Term>)
    requires Ready(t, rs) && IsComparison(t.kind)
    ensures forall c | c in Consts(rs) :: IsCanonical(c)
    ensures var r := if t.kind.Eq? then EqualOf(rs) else DistinctOf(rs);
            r.sort == Bool && Shape(t, r) && (AllConst(rs) ==> IsConst(r))
  {
    hide Consts, NonConsts, IsCanonical, IsConst, MkEqual, MkDistinct, ChainFree, Plain, EvalInput, ConstValue;
    var m := Model((l: Term) => U(0), (k, n, vs) => U(0), map[]);
    ReadyFacts(t, rs);
    NodeSorts(t);
    var s := t.children[0].sort;
    TruthPlain();
    RestFacts(rs, s);
    Covers(rs);
    EqualOfExact(rs, s, m);
    DistinctOfExact(rs, s, m);
    if ChainFree(t) {
      if Swapped(t.kind, s) {
        SwappedComparison(t);
      }
      SplitMembers(rs, s);
      ComparisonOfChainFree(t.kind, rs, s);
    }
  }

  lemma {:induction false} ComparisonOfChainFree(k: Kind, rs: seq<Term>, s: Sort)
    requires |rs| >= 2 && AllOfSort(rs, s) && AllPlain(rs) && AllChainFree(rs) && (Swapped(k, s) ==> |rs| == 2)
    requires IsComparison(k)
    requires forall c | c in Consts(rs) :: IsCanonical(c)
    ensures ChainFree(if k.Eq? then EqualOf(rs) else DistinctOf(rs))
  {
    hide Consts, NonConsts, IsCanonical, IsConst, MkEqual, MkDistinct, ChainFree, Plain, ConstValue;
    var non, con := NonConsts(rs), Consts(rs);
    TruthPlain();
    Covers(rs);
    SplitMembers(rs, s);
    assert con == [] ==> non + con == non;
    if k.Distinct? {
      MkDistinctChainFree(non + con, s);
    }
    if k.Eq? && non != [] {
      MkEqualChainFree(EqualArgs(rs), s);
    }
  }

  // ------------------------------------------------------------------
  // Concatenation
  // ------------------------------------------------------------------

  /** The operands with each run of constants folded into one. */
  function Runs(rs: seq<Term>): seq<Term> {
    if rs == [] then []
    else
      var p, e := Runs(rs[..|rs| - 1]), rs[|rs| - 1];
      if p != [] && IsConst(p[|p| - 1]) && IsConst(e) then p[..|p| - 1] + [Fold2(Str, StrConcat, p[|p| - 1], e)]
      else p + [e]
  }

  function ConcatOfParts(ts: seq<Term>): Term {
    if |ts| == 1 then ts[0] else MkOper(Str, StrConcat, ts)
  }

  ghost function Joined(ts: seq<Term>, m: Model): string { ConcatOf(Values(ts, m)) }

  lemma {:induction false} JoinedAppend(ts: seq<Term>, x: Term, m: Model)
    ensures Joined(ts + [x], m) == Joined(ts, m) + AsStr(Value(x, m))
  {
    ConcatAppend(ts, x, m);
  }

  /** Two string constants fold into one. */
  lemma {:induction false} FoldedString(x: Term, y: Term, m: Model)
    requires IsConst(x) && IsConst(y) && Plain(x) && Plain(y) && x.sort == y.sort == Str
    ensures var f := Fold2(Str, StrConcat, x, y);
            && AsStr(Value(f, m)) == AsStr(Value(x, m)) + AsStr(Value(y, m))
            && f.sort == Str && IsConst(f) && Plain(f) && ChainFree(f)
  {
    hide Value;
    var f := Fold2(Str, StrConcat, x, y);
    assert f == StrTerm(x.kind.s + y.kind.s);
    ConstantValue(x, m);
    ConstantValue(y, m);
    ConstantValue(f, m);
    CanonicalChainFree(f);
  }

  predicate StrPart(x: Term, free: bool) { x.sort == Str && Plain(x) && (free ==> ChainFree(x)) }

  predicate StrParts(ts: seq<Term>, free: bool) { forall i | 0 <= i < |ts| :: StrPart(ts[i], free) }

  lemma {:induction false} FoldedPart(x: Term, y: Term)
    requires IsConst(x) && IsConst(y) && StrPart(x, false) && StrPart(y, false)
    ensures StrPart(Fold2(Str, StrConcat, x, y), true) && IsConst(Fold2(Str, StrConcat, x, y))
  {
    FoldedString(x, y, Model((l: Term) => U(0), (k, n, vs) => U(0), map[]));
  }

  /** The last part folded with a constant. */
  lemma {:induction false} FoldedParts(p: seq<Term>, e: Term, free: bool)
    requires p != [] && StrParts(p, free) && StrPart(e, free) && IsConst(p[|p| - 1]) && IsConst(e)
    ensures var q := p[..|p| - 1] + [Fold2(Str, StrConcat, p[|p| - 1], e)];
            StrParts(q, free) && IsConst(q[|q| - 1])
  {
    hide StrPart, IsConst, Fold2;
    var x := p[|p| - 1];
    WeakerPart(x, free);
    WeakerPart(e, free);
    FoldedPart(x, e);
    WeakerPart(Fold2(Str, StrConcat, x, e), true);
    if !free {
      assert StrPart(Fold2(Str, StrConcat, x, e), free);
    }
  }

  /** Folding runs keeps sorts and shapes. */
  lemma {:induction false} RunsParts(rs: seq<Term>, free: bool)
    requires StrParts(rs, free)
    ensures StrParts(Runs(rs), free) && (rs != [] ==> Runs(rs) != [])
  {
    hide StrPart, IsConst, Fold2;
    if rs != [] {
      var n := |rs| - 1;
      var p, e := Runs(rs[..n]), rs[n];
      RunsParts(rs[..n], free);
      if p != [] && IsConst(p[|p| - 1]) && IsConst(e) {
        FoldedParts(p, e, free);
      }
    }
  }

  /** Constants alone fold into one. */
  lemma {:induction false} RunsOfConsts(rs: seq<Term>)
    requires StrParts(rs, false) && AllConst(rs)
    ensures |Runs(rs)| <= 1 && AllConst(Runs(rs))
  {
    hide StrPart, IsConst, Fold2;
    if rs != [] {
      var n := |rs| - 1;
      var p, e := Runs(rs[..n]), rs[n];
      RunsOfConsts(rs[..n]);
      RunsParts(rs[..n], false);
      if p != [] {
        FoldedParts(p, e, false);
      }
    }
  }

  lemma {:induction false} WeakerPart(x: Term, free: bool)
    requires StrPart(x, free)
    ensures StrPart(x, false) && (free ==> StrPart(x, true))
  {
  }

  lemma {:induction false} RunsShape(rs: seq<Term>)
    requires AllOfSort(rs, Str) && AllPlain(rs)
    ensures var ts := Runs(rs);
            && AllOfSort(ts, Str) && AllPlain(ts) && (AllChainFree(rs) ==> AllChainFree(ts))
            && (rs != [] ==> ts != []) && (AllConst(rs) ==> AllConst(ts) && |ts| <= 1)
  {
    hide Plain, ChainFree, IsConst, Runs;
    var free := AllChainFree(rs);
    RunsParts(rs, free);
    var ts := Runs(rs);
    if AllConst(rs) {
      RunsParts(rs, false);
      RunsOfConsts(rs);
    }
    assert forall i | 0 <= i < |ts| :: StrPart(ts[i], free);
  }

  /** It keeps the concatenation, in order. */
  lemma {:induction false} RunsKeep(rs: seq<Term>, m: Model)
    requires AllOfSort(rs, Str) && AllPlain(rs)
    ensures Joined(Runs(rs), m) == Joined(rs, m)
  {
    hide Value, Joined, Plain, IsConst, Fold2;
    if rs != [] {
      var n := |rs| - 1;
      var p, e := Runs(rs[..n]), rs[n];
      RunsKeep(rs[..n], m);
      RunsShape(rs[..n]);
      assert rs == rs[..n] + [e];
      JoinedAppend(rs[..n], e, m);
      JoinedAppend(p, e, m);
      if p != [] && IsConst(p[|p| - 1]) && IsConst(e) {
        LastFolded(p, e, m);
      }
    }
  }

  lemma {:induction false} LastFolded(p: seq<Term>, e: Term, m: Model)
    requires p != [] && AllOfSort(p, Str) && AllPlain(p) && IsConst(p[|p| - 1]) && IsConst(e) && Plain(e) && e.sort == Str
    ensures var k := |p| - 1;
            Joined(p[..k] + [Fold2(Str, StrConcat, p[k], e)], m) == Joined(p, m) + AsStr(Value(e, m))
  {
    hide Value, Joined, Plain, IsConst, Fold2;
    var k := |p| - 1;
    FoldedString(p[k], e, m);
    assert p == p[..k] + [p[k]];
    JoinedAppend(p[..k], p[k], m);
    JoinedAppend(p[..k], Fold2(Str, StrConcat, p[k], e), m);
  }

  lemma {:induction false} ConcatOfPartsValue(rs: seq<Term>, m: Model)
    requires rs != [] && AllOfSort(rs, Str) && AllPlain(rs)
    ensures Value(ConcatOfParts(Runs(rs)), m) == Value(MkOper(Str, StrConcat, rs), m)
  {
    hide Value, Plain;
    var ts := Runs(rs);
    RunsShape(rs);
    RunsKeep(rs, m);
    ConcatValue(rs, m);
    ConcatValue(ts, m);
    if |ts| == 1 {
      ValueHasSort(ts[0], m);
      assert Values(ts, m)[..0] == [];
    }
  }

  lemma {:induction false} StrNodeShape(ts: seq<Term>)
    ensures Plain(MkOper(Str, StrConcat, ts)) && (AllChainFree(ts) ==> ChainFree(MkOper(Str, StrConcat, ts)))
  {
  }

  lemma {:induction false} ConcatShape(t: Term, rs: seq<Term>)
    requires rs != [] && AllOfSort(rs, Str) && AllPlain(rs) && (ChainFree(t) ==> AllChainFree(rs))
    ensures var r := ConcatOfParts(Runs(rs));
            r.sort == Str && Shape(t, r) && (AllConst(rs) ==> IsConst(r))
  {
    hide Runs, Plain, ChainFree;
    RunsShape(rs);
    var ts := Runs(rs);
    if |ts| > 1 {
      StrNodeShape(ts);
    }
  }

  // ------------------------------------------------------------------
  // If-then-else
  // ------------------------------------------------------------------

  function IteOf(a: Term, b: Term, c: Term): Term {
    if IsConst(a) then (if IsTrue(a) then b else c) else MkOper(b.sort, Ite, [a, b, c])
  }

  lemma {:induction false} IteValue(a: Term, b: Term, c: Term, m: Model)
    requires a.sort == Bool && (IsConst(a) ==> IsCanonical(a)) && b.sort == c.sort
    ensures Value(IteOf(a, b, c), m) == Value(MkOper(b.sort, Ite, [a, b, c]), m)
  {
    hide Value;
    Unfold(MkOper(b.sort, Ite, [a, b, c]), m);
    if IsConst(a) {
      ConstantValue(a, m);
      ValueHasSort(b, m);
      ValueHasSort(c, m);
    }
  }

  lemma {:induction false} IteShape(t: Term, a: Term, b: Term, c: Term)
    requires Plain(b) && Plain(c) && b.sort == c.sort
    requires ChainFree(t) ==> ChainFree(a) && ChainFree(b) && ChainFree(c)
    ensures Shape(t, IteOf(a, b, c)) && IteOf(a, b, c).sort == b.sort
    ensures IsConst(a) && IsConst(b) && IsConst(c) ==> IsConst(IteOf(a, b, c))
  {
    hide IsArithTerm, IsStrTerm;
    var r := MkOper(b.sort, Ite, [a, b, c]);
    if ChainFree(t) {
      assert r.children[0] == a && r.children[1] == b && r.children[2] == c;
    }
  }
}
