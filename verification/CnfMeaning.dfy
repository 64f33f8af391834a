// What the literals and clauses of the encoder mean.
module CnfMeaning {
  import opened Terms
  import opened Builders
  import opened LetExpansion
  import opened Tseitin
  import opened CnfEncoder

  // ------------------------------------------------------------------
  // The encoder's state stays well formed
  // ------------------------------------------------------------------

  /** A step speaks of literals and atoms older than the variable it draws. */
  ghost predicate StepOk(s: Step, id: nat) {
    match s
    case Gate(k, ls) => GateOk(k, |ls|) && AllLits(ls) && AllBelow(ls, id)
    case Abstract(a) => a.sort == Bool && Below(a, id)
  }

  ghost predicate StepsOk(base: nat, steps: seq<Step>) {
    forall i {:trigger steps[i]} | 0 <= i < |steps| :: StepOk(steps[i], base + i)
  }

  ghost predicate LitBelow(l: Term, n: nat) { IsLit(l) && Below(l, n) }

  ghost predicate EncOk(st: Enc) {
    && StepsOk(st.base, st.steps)
    && (forall a | a in st.cnfMap :: LitBelow(st.cnfMap[a], Next(st)) && Below(a, Next(st)))
    && (forall e | e in st.visited :: LitBelow(st.visited[e], Next(st)) && Below(e, Next(st)))
  }

  ghost predicate Later(st: Enc, st': Enc) {
    st'.base == st.base && st.steps <= st'.steps
  }

  lemma FreshLit(n: nat)
    ensures LitBelow(TempTerm(n), n + 1) && LitBelow(MkNot(TempTerm(n)), n + 1)
  {
    assert AllBelow([], n + 1);
    assert AllBelow([TempTerm(n)], n + 1);
  }

  lemma AddStepOk(st: Enc, s: Step)
    requires EncOk(st) && StepOk(s, Next(st))
    ensures EncOk(AddStep(st, s)) && Later(st, AddStep(st, s))
  {
    hide StepOk;
    var st' := AddStep(st, s);
    forall t | Below(t, Next(st))
      ensures Below(t, Next(st'))
    {
      BelowGrows(t, Next(st), Next(st'));
    }
  }

  lemma MkNotBelow(a: Term, n: nat)
    requires Below(a, n)
    ensures Below(MkNot(a), n)
  {
    assert AllBelow([a], n);
  }

  lemma AddAtomOk(a: Term, st: Enc)
    requires EncOk(st) && a.sort == Bool && Below(a, Next(st))
    ensures var (l, st') := AddAtom(a, st);
            EncOk(st') && Later(st, st') && LitBelow(l, Next(st'))
  {
    hide Below, IsLit, MkNot;
    var st1 := AddStep(st, Abstract(a));
    AddStepOk(st, Abstract(a));
    FreshLit(Next(st));
    BelowGrows(a, Next(st), Next(st1));
    MkNotBelow(a, Next(st1));
  }

  lemma {:induction false} AddGateOk(k: Kind, ls: seq<Term>, st: Enc)
    requires EncOk(st) && GateOk(k, |ls|) && AllLits(ls) && AllBelow(ls, Next(st))
    ensures var (l, st') := AddGate(k, ls, st);
            EncOk(st') && Later(st, st') && LitBelow(l, Next(st'))
  {
    hide Below, IsLit;
    AddStepOk(st, Gate(k, ls));
    FreshLit(Next(st));
  }

  lemma {:induction false} FoldXorOk(ls: seq<Term>, st: Enc)
    requires EncOk(st) && ls != [] && AllLits(ls) && AllBelow(ls, Next(st))
    ensures var (l, st') := FoldXor(ls, st);
            EncOk(st') && Later(st, st') && LitBelow(l, Next(st'))
  {
    hide Below, IsLit;
    if |ls| > 1 {
      var n := |ls| - 1;
      var (r, st1) := FoldXor(ls[..n], st);
      FoldXorOk(ls[..n], st);
      BelowGrows(ls[n], Next(st), Next(st1));
      AddGateOk(Xor, [r, ls[n]], st1);
    }
  }

  /** Encoding keeps the state well formed and yields a literal. */
  lemma {:induction false} EncodeOk(e: Term, st: Enc)
    requires EncOk(st) && Supported(e) && Below(e, Next(st))
    ensures var (l, st') := Encode(e, st);
            EncOk(st') && Later(st, st') && LitBelow(l, Next(st'))
    decreases Rank(e), e, 2
  {
    hide Below, IsLit, EncOk;
    if IsAtom(e) {
      if e in st.cnfMap {
        LookupOk(st, e);
      } else {
        AddAtomOk(e, st);
      }
    } else if IsLeafOfEncoding(e) {
      LeafIsLit(e);
    } else if e in st.visited {
      LookupOk(st, e);
    } else if e.kind.Let? {
      ExpandBelow(e, Next(st));
      EncodeOk(ExpandLet(e), st);
      RememberOk(e, Encode(ExpandLet(e), st), st);
    } else {
      ConnectiveBelow(e, Next(st));
      EncodeConnectiveOk(e, st);
    }
  }

  lemma LeafIsLit(e: Term)
    requires IsLeafOfEncoding(e) && e.sort == Bool
    ensures IsLit(e)
  {
  }

  lemma LookupOk(st: Enc, e: Term)
    requires EncOk(st)
    ensures e in st.cnfMap ==> LitBelow(st.cnfMap[e], Next(st))
    ensures e in st.visited ==> LitBelow(st.visited[e], Next(st))
  {
  }

  lemma ConnectiveBelow(e: Term, n: nat)
    requires Below(e, n)
    ensures AllBelow(e.children, n)
  {
  }

  lemma RememberOk(e: Term, r: (Term, Enc), st: Enc)
    requires EncOk(r.1) && Later(st, r.1) && LitBelow(r.0, Next(r.1)) && Below(e, Next(st))
    ensures var (l, st') := Remember(e, r);
            EncOk(st') && Later(st, st') && LitBelow(l, Next(st'))
  {
    hide Below, IsLit;
    BelowGrows(e, Next(st), Next(r.1));
  }

  lemma {:induction false} EncodeConnectiveOk(e: Term, st: Enc)
    requires EncOk(st) && Supported(e) && Below(e, Next(st)) && AllBelow(e.children, Next(st))
    requires !IsAtom(e) && !IsLeafOfEncoding(e) && e !in st.visited && !e.kind.Let?
    ensures var (l, st') := Encode(e, st);
            EncOk(st') && Later(st, st') && LitBelow(l, Next(st'))
    decreases Rank(e), e, 1
  {
    hide Below, IsLit, EncOk;
    SupportedAreBool(e.children);
    if e.kind.Eq? && |e.children| > 2 {
      EncodeChainOk(e, st);
    } else if e.kind.Distinct? && |e.children| > 2 {
      FalseIsLit(Next(st));
    } else {
      var (ls, st1) := EncodeAll(e.children, st);
      EncodeAllOk(e.children, st);
      if e.kind.Xor? {
        FoldXorOk(ls, st1);
        RememberOk(e, FoldXor(ls, st1), st);
      } else {
        AddGateOk(e.kind, ls, st1);
        RememberOk(e, AddGate(e.kind, ls, st1), st);
      }
    }
  }

  /** Chained equality, read off the encoder. */
  lemma {:induction false} EncodeChain(e: Term, st: Enc)
    requires !IsAtom(e) && !IsLeafOfEncoding(e) && e !in st.visited
    requires e.kind.Eq? && |e.children| > 2 && AllBool(e.children)
    ensures RankAll(e.children[1..]) <= RankAll(e.children)
    ensures var (first, st1) := Encode(e.children[0], st);
            var (eqs, st2) := EncodeEqs(first, e.children[1..], st1);
            Encode(e, st) == Remember(e, AddGate(And, eqs, st2))
  {
    hide IsAtom, IsLeafOfEncoding, EncodeEqs;
    assert HasBinder(e.children[0]) ==> AnyHasBinder(e.children);
    assert AnyHasBinder(e.children[1..]) ==> AnyHasBinder(e.children);
  }

  /** The other connectives likewise. */
  lemma {:induction false} EncodeNode(e: Term, st: Enc)
    requires !IsAtom(e) && !IsLeafOfEncoding(e) && e !in st.visited
    requires IsConnective(e.kind) && ArityOk(e.kind, |e.children|)
    requires e.kind.Eq? || e.kind.Distinct? ==> |e.children| == 2 && AllBool(e.children)
    ensures var (ls, st1) := EncodeAll(e.children, st);
            Encode(e, st) ==
            if e.kind.Xor? then Remember(e, FoldXor(ls, st1))
            else if |ls| == 1 && !e.kind.Not? then (ls[0], st1)
            else Remember(e, AddGate(e.kind, ls, st1))
  {
    hide IsAtom, IsLeafOfEncoding, EncodeAll, FoldXor;
  }

  lemma {:induction false} EncodeChainOk(e: Term, st: Enc)
    requires EncOk(st) && AllSupported(e.children) && Below(e, Next(st)) && AllBelow(e.children, Next(st))
    requires !IsAtom(e) && !IsLeafOfEncoding(e) && e !in st.visited
    requires e.kind.Eq? && |e.children| > 2 && AllBool(e.children)
    ensures var (l, st') := Encode(e, st);
            EncOk(st') && Later(st, st') && LitBelow(l, Next(st'))
    decreases Rank(e), e, 0
  {
    hide Encode, EncodeEqs, IsAtom, IsLeafOfEncoding, Below, IsLit, EncOk, Supported, AddGate, Remember;
    EncodeChain(e, st);
    var (first, st1) := Encode(e.children[0], st);
    var (eqs, st2) := EncodeEqs(first, e.children[1..], st1);
    assert HasBinder(e.children[0]) ==> AnyHasBinder(e.children);
    EncodeOk(e.children[0], st);
    AllBelowGrows(e.children[1..], Next(st), Next(st1));
    EncodeEqsOk(first, e.children[1..], st1);
    AddGateOk(And, eqs, st2);
    RememberOk(e, AddGate(And, eqs, st2), st);
  }

  lemma FalseIsLit(n: nat)
    ensures LitBelow(FalseTerm, n)
  {
    assert AllBelow([], n);
  }

  lemma {:induction false} EncodeAllOk(es: seq<Term>, st: Enc)
    requires EncOk(st) && AllSupported(es) && AllBelow(es, Next(st))
    ensures var (ls, st') := EncodeAll(es, st);
            EncOk(st') && Later(st, st') && AllLits(ls) && AllBelow(ls, Next(st'))
    decreases RankAll(es), es, 0
  {
    hide Below, IsLit, EncOk;
    if es != [] {
      var n := |es| - 1;
      assert AnyHasBinder(es[..n]) ==> AnyHasBinder(es);
      var (ls, st1) := EncodeAll(es[..n], st);
      EncodeAllOk(es[..n], st);
      BelowGrows(es[n], Next(st), Next(st1));
      EncodeOk(es[n], st1);
      AllBelowGrows(ls, Next(st1), Next(Encode(es[n], st1).1));
    }
  }

  lemma {:induction false} EncodeEqsOk(first: Term, es: seq<Term>, st: Enc)
    requires EncOk(st) && AllSupported(es) && AllBelow(es, Next(st)) && LitBelow(first, Next(st))
    ensures var (qs, st') := EncodeEqs(first, es, st);
            EncOk(st') && Later(st, st') && AllLits(qs) && AllBelow(qs, Next(st'))
    decreases RankAll(es), es, 0
  {
    hide Below, IsLit, EncOk;
    if es != [] {
      var n := |es| - 1;
      assert AnyHasBinder(es[..n]) ==> AnyHasBinder(es);
      var (qs, st1) := EncodeEqs(first, es[..n], st);
      EncodeEqsOk(first, es[..n], st);
      BelowGrows(es[n], Next(st), Next(st1));
      var (l, st2) := Encode(es[n], st1);
      EncodeOk(es[n], st1);
      BelowGrows(first, Next(st), Next(st2));
      AddGateOk(Eq, [first, l], st2);
      AllBelowGrows(qs, Next(st1), Next(AddGate(Eq, [first, l], st2).1));
    }
  }

  // ------------------------------------------------------------------
  // What the steps say about the literals
  // ------------------------------------------------------------------

  /** `m` obeys a step: a gate variable relates to its operands as its clauses
      say (`exact` makes implications definitions in both directions), and an
      abstraction variable has the value of its atom. */
  ghost predicate StepHolds(s: Step, id: nat, m: Model, exact: bool) {
    match s
    case Gate(k, ls) => GateRelation(k, Holds(TempTerm(id), m), Truths(ls, m), exact)
    case Abstract(a) => Holds(TempTerm(id), m) == Holds(a, m)
  }

  ghost predicate StepsHold(st: Enc, m: Model, exact: bool) {
    forall i {:trigger st.steps[i]} | 0 <= i < |st.steps| :: StepHolds(st.steps[i], st.base + i, m, exact)
  }

  /** Whether a literal is implied by its formula (`up`) or implies it (not
      `up`), judged from the polarity of the implications inside. Exact steps
      lose nothing. */
  predicate Faithful(e: Term, up: bool, exact: bool)
    decreases Rank(e), e, 1
  {
    if IsAtom(e) || IsLeafOfEncoding(e) then true
    else match e.kind
      case Let => Faithful(ExpandLet(e), up, exact)
      case Not => AllFaithful(e.children, !up, exact)
      case And => AllFaithful(e.children, up, exact)
      case Or => AllFaithful(e.children, up, exact)
      case Implies =>
        var n := |e.children| - 1;
        n >= 0 &&
        if n == 0 then AllFaithful(e.children, up, exact)
        else
          assert AnyHasBinder(e.children[..n]) || AnyHasBinder(e.children[n..]) ==> AnyHasBinder(e.children);
          (exact || !up) && AllFaithful(e.children[..n], !up, exact) && AllFaithful(e.children[n..], up, exact)
      case Ite =>
        |e.children| == 3 &&
        (assert AnyHasBinder(e.children[..1]) || AnyHasBinder(e.children[1..]) ==> AnyHasBinder(e.children);
         && AllFaithful(e.children[..1], true, exact) && AllFaithful(e.children[..1], false, exact)
         && AllFaithful(e.children[1..], up, exact))
      case Xor => AllFaithful(e.children, true, exact) && AllFaithful(e.children, false, exact)
      case Eq => AllFaithful(e.children, true, exact) && AllFaithful(e.children, false, exact)
      case Distinct =>
        |e.children| > 2 || (AllFaithful(e.children, true, exact) && AllFaithful(e.children, false, exact))
      case _ => false
  }

  predicate AllFaithful(es: seq<Term>, up: bool, exact: bool)
    decreases RankAll(es), es, 0
  {
    forall i | 0 <= i < |es| :: Faithful(es[i], up, exact)
  }

  /** What the literal of `e` says about `e`. */
  ghost predicate Means(e: Term, l: Term, m: Model, exact: bool) {
    && (Faithful(e, false, exact) ==> (Holds(l, m) ==> Holds(e, m)))
    && (Faithful(e, true, exact) ==> (Holds(e, m) ==> Holds(l, m)))
  }

  ghost predicate AllMean(es: seq<Term>, ls: seq<Term>, m: Model, exact: bool)
    requires |es| == |ls|
  {
    forall i | 0 <= i < |es| :: Means(es[i], ls[i], m, exact)
  }

  ghost predicate TablesMean(st: Enc, m: Model, exact: bool) {
    && (forall a | a in st.cnfMap :: Holds(st.cnfMap[a], m) == Holds(a, m))
    && (forall e | e in st.visited :: Means(e, st.visited[e], m, exact))
  }

  lemma StepsHoldEarlier(st: Enc, st': Enc, m: Model, exact: bool)
    requires Later(st, st') && StepsHold(st', m, exact)
    ensures StepsHold(st, m, exact)
  {
    hide StepHolds;
    forall i | 0 <= i < |st.steps|
      ensures StepHolds(st.steps[i], st.base + i, m, exact)
    {
      assert st.steps[i] == st'.steps[i];
    }
  }

  lemma LastGateHolds(k: Kind, ls: seq<Term>, st: Enc, m: Model, exact: bool)
    requires StepsHold(AddGate(k, ls, st).1, m, exact)
    ensures GateRelation(k, Holds(AddGate(k, ls, st).0, m), Truths(ls, m), exact)
  {
    hide GateRelation, Holds;
    var st' := AddGate(k, ls, st).1;
    assert st'.steps[|st.steps|] == Gate(k, ls);
  }

  lemma AddAtomMeans(a: Term, st: Enc, m: Model, exact: bool)
    requires Negates(a, m) && TablesMean(st, m, exact)
    requires StepsHold(AddAtom(a, st).1, m, exact)
    ensures var (l, st') := AddAtom(a, st);
            TablesMean(st', m, exact) && Holds(l, m) == Holds(a, m)
  {
    hide Holds, Negatable, MkNot, Means;
    var (l, st') := AddAtom(a, st);
    assert st'.steps[|st.steps|] == Abstract(a);
    LitIsNegatable(l);
    MkNotHolds(l, m);
  }

  lemma LitIsNegatable(l: Term)
    requires IsLit(l)
    ensures Negatable(l)
  {
  }

  lemma {:induction false} FoldXorMeans(ls: seq<Term>, st: Enc, m: Model, exact: bool)
    requires ls != [] && StepsHold(FoldXor(ls, st).1, m, exact)
    ensures Holds(FoldXor(ls, st).0, m) == Parity(Truths(ls, m))
    ensures Later(st, FoldXor(ls, st).1) && FoldXor(ls, st).1.cnfMap == st.cnfMap
    ensures FoldXor(ls, st).1.visited == st.visited
  {
    hide Holds;
    var bs := Truths(ls, m);
    if |ls| == 1 {
      assert bs[..0] == [];
    } else {
      var n := |ls| - 1;
      var (r, st1) := FoldXor(ls[..n], st);
      StepsHoldEarlier(st1, FoldXor(ls, st).1, m, exact);
      FoldXorMeans(ls[..n], st, m, exact);
      LastGateHolds(Xor, [r, ls[n]], st1, m, exact);
      assert Truths(ls[..n], m) == bs[..n];
      ParityOfTwo(Truths([r, ls[n]], m));
    }
  }

  lemma ParityOfTwo(bs: seq<bool>)
    requires |bs| == 2
    ensures Parity(bs) == (bs[0] != bs[1])
  {
    assert bs[..1][..0] == [];
    assert Parity(bs[..1]) == bs[0];
  }

  predicate Implied(xs: seq<bool>, ys: seq<bool>) {
    |xs| == |ys| && forall i | 0 <= i < |xs| :: xs[i] ==> ys[i]
  }

  /** The operands' truth values next to their literals', by polarity. */
  lemma OperandsImplied(es: seq<Term>, ls: seq<Term>, m: Model, exact: bool)
    requires |es| == |ls| && AllMean(es, ls, m, exact)
    ensures AllFaithful(es, true, exact) ==> Implied(Truths(es, m), Truths(ls, m))
    ensures AllFaithful(es, false, exact) ==> Implied(Truths(ls, m), Truths(es, m))
  {
    hide Holds, Faithful;
    forall i | 0 <= i < |es|
      ensures AllFaithful(es, true, exact) ==> (Truths(es, m)[i] ==> Truths(ls, m)[i])
      ensures AllFaithful(es, false, exact) ==> (Truths(ls, m)[i] ==> Truths(es, m)[i])
    {
      assert Means(es[i], ls[i], m, exact);
    }
  }

  lemma SliceMeans(es: seq<Term>, ls: seq<Term>, i: nat, j: nat, m: Model, exact: bool)
    requires |es| == |ls| && AllMean(es, ls, m, exact) && i <= j <= |es|
    ensures AllMean(es[i..j], ls[i..j], m, exact)
    ensures Truths(es[i..j], m) == Truths(es, m)[i..j] && Truths(ls[i..j], m) == Truths(ls, m)[i..j]
  {
    hide Means, Holds;
  }

  /** The setting of the gate lemmas: a connective, the literals of its
      operands, and a variable the gate relates to them. */
  ghost predicate GateSetting(e: Term, ls: seq<Term>, c: Term, m: Model, exact: bool) {
    && !IsAtom(e) && !IsLeafOfEncoding(e)
    && |ls| == |e.children| && AllMean(e.children, ls, m, exact)
    && Holds(e, m) == Connective(e.kind, Truths(e.children, m))
    && GateRelation(e.kind, Holds(c, m), Truths(ls, m), exact)
  }

  /** Xor, equality and distinct want both directions of every operand. */
  lemma SymmetricMeans(e: Term, ls: seq<Term>, c: Term, m: Model, exact: bool)
    requires GateSetting(e, ls, c, m, exact) && |ls| <= 2
    requires e.kind.Xor? || e.kind.Eq? || e.kind.Distinct?
    ensures Means(e, c, m, exact)
  {
    hide Holds, IsAtom, IsLeafOfEncoding, AllMean, AllFaithful;
    OperandsImplied(e.children, ls, m, exact);
    if Faithful(e, true, exact) || Faithful(e, false, exact) {
      assert Truths(ls, m) == Truths(e.children, m);
    }
  }

  lemma MonotoneMeans(e: Term, ls: seq<Term>, c: Term, m: Model, exact: bool)
    requires GateSetting(e, ls, c, m, exact)
    requires e.kind.And? || e.kind.Or? || (e.kind.Not? && |ls| == 1)
    ensures Means(e, c, m, exact)
  {
    hide Holds, IsAtom, IsLeafOfEncoding, AllMean, AllFaithful;
    OperandsImplied(e.children, ls, m, exact);
    var xs, ys := Truths(e.children, m), Truths(ls, m);
    ImpliedMonotone(xs, ys);
    ImpliedMonotone(ys, xs);
  }

  lemma ImpliedMonotone(xs: seq<bool>, ys: seq<bool>)
    ensures Implied(xs, ys) ==> (AllOf(xs) ==> AllOf(ys)) && (AnyOf(xs) ==> AnyOf(ys))
  {
    if Implied(xs, ys) && AnyOf(xs) {
      var i :| 0 <= i < |xs| && xs[i];
      assert ys[i];
    }
  }

  lemma ImpliesMeans(e: Term, ls: seq<Term>, c: Term, m: Model, exact: bool)
    requires GateSetting(e, ls, c, m, exact) && e.kind.Implies? && |ls| > 1
    ensures Means(e, c, m, exact)
  {
    hide Holds, IsAtom, IsLeafOfEncoding, AllMean, AllFaithful;
    var n, es := |ls| - 1, e.children;
    SliceMeans(es, ls, 0, n, m, exact);
    SliceMeans(es, ls, n, |ls|, m, exact);
    assert es[n..|ls|] == es[n..] && ls[n..|ls|] == ls[n..];
    OperandsImplied(es[..n], ls[..n], m, exact);
    OperandsImplied(es[n..], ls[n..], m, exact);
    var xs, ys := Truths(es, m), Truths(ls, m);
    assert xs[n..][0] == xs[n] && ys[n..][0] == ys[n];
    assert AllOf(ys) <==> AllOf(ys[..n]) && ys[n];
  }

  lemma IteMeans(e: Term, ls: seq<Term>, c: Term, m: Model, exact: bool)
    requires GateSetting(e, ls, c, m, exact) && e.kind.Ite? && |ls| == 3
    ensures Means(e, c, m, exact)
  {
    hide Holds, IsAtom, IsLeafOfEncoding, AllMean, AllFaithful;
    var es := e.children;
    SliceMeans(es, ls, 0, 1, m, exact);
    SliceMeans(es, ls, 1, 3, m, exact);
    assert es[1..3] == es[1..] && ls[1..3] == ls[1..];
    OperandsImplied(es[..1], ls[..1], m, exact);
    OperandsImplied(es[1..], ls[1..], m, exact);
    var xs, ys := Truths(es, m), Truths(ls, m);
    assert xs[..1][0] == xs[0] && ys[..1][0] == ys[0];
    assert xs[1..][0] == xs[1] && ys[1..][0] == ys[1] && xs[1..][1] == xs[2] && ys[1..][1] == ys[2];
  }

  /** The literal of a connective whose gate holds means its formula. */
  lemma GateMeans(e: Term, ls: seq<Term>, c: Term, m: Model, exact: bool)
    requires IsConnective(e.kind) && e.sort == Bool && AllBool(e.children) && GateOk(e.kind, |e.children|)
    requires |ls| == |e.children| && AllMean(e.children, ls, m, exact)
    requires !IsAtom(e) && !IsLeafOfEncoding(e)
    requires e.kind.Not? || |ls| != 1
    requires GateRelation(e.kind, Holds(c, m), Truths(ls, m), exact)
    ensures Means(e, c, m, exact)
  {
    hide Holds, IsAtom, IsLeafOfEncoding, Means, AllMean, GateRelation, Connective, Faithful;
    ConnectiveHolds(e, m);
    if e.kind.And? || e.kind.Or? || e.kind.Not? {
      MonotoneMeans(e, ls, c, m, exact);
    } else if e.kind.Implies? {
      ImpliesMeans(e, ls, c, m, exact);
    } else if e.kind.Ite? {
      IteMeans(e, ls, c, m, exact);
    } else {
      SymmetricMeans(e, ls, c, m, exact);
    }
  }

  /** `and`, `or` and `=>` of one operand are that operand. */
  lemma SingleMeans(e: Term, l: Term, m: Model, exact: bool)
    requires (e.kind.And? || e.kind.Or? || e.kind.Implies?) && e.sort == Bool
    requires |e.children| == 1 && e.children[0].sort == Bool && Means(e.children[0], l, m, exact)
    requires !IsAtom(e) && !IsLeafOfEncoding(e)
    ensures Means(e, l, m, exact)
  {
    hide Holds, IsAtom, IsLeafOfEncoding;
    ConnectiveHolds(e, m);
    var bs := Truths(e.children, m);
    assert bs == [Holds(e.children[0], m)];
    assert AllOf(bs) == bs[0] && AnyOf(bs) == bs[0] && AllOf(bs[..0]);
    assert AllFaithful(e.children, true, exact) ==> Faithful(e.children[0], true, exact);
    assert AllFaithful(e.children, false, exact) ==> Faithful(e.children[0], false, exact);
  }

  /** Whatever obeys the steps gives every literal its meaning, in the memo
      table and the atom table too. */
  lemma {:induction false} EncodeMeans(e: Term, st: Enc, m: Model, exact: bool)
    requires EncOk(st) && Supported(e) && Below(e, Next(st))
    requires AtomsNegated(e, m)
    requires StepsHold(Encode(e, st).1, m, exact) && TablesMean(st, m, exact)
    ensures TablesMean(Encode(e, st).1, m, exact) && Means(e, Encode(e, st).0, m, exact)
    decreases Rank(e), e, 2
  {
    hide Below, IsLit, EncOk, StepsHold, Holds;
    if IsAtom(e) {
      if e !in st.cnfMap {
        AddAtomMeans(e, st, m, exact);
      }
    } else if !IsLeafOfEncoding(e) && e !in st.visited {
      if e.kind.Let? {
        ExpandBelow(e, Next(st));
        RememberSteps(e, Encode(ExpandLet(e), st), m, exact);
        EncodeMeans(ExpandLet(e), st, m, exact);
        LetMeans(e, Encode(ExpandLet(e), st).0, m, exact);
      } else {
        EncodeConnectiveMeans(e, st, m, exact);
      }
    }
  }

  lemma RememberSteps(e: Term, r: (Term, Enc), m: Model, exact: bool)
    ensures StepsHold(Remember(e, r).1, m, exact) <==> StepsHold(r.1, m, exact)
  {
    hide StepHolds;
  }

  lemma LetMeans(e: Term, l: Term, m: Model, exact: bool)
    requires e.kind.Let? && WellFormed(e) && Means(ExpandLet(e), l, m, exact)
    requires !IsAtom(e) && !IsLeafOfEncoding(e)
    ensures Means(e, l, m, exact)
  {
    hide Value;
    ExpandKeepsValue(e, m);
  }

  lemma AddGateTables(k: Kind, ls: seq<Term>, st: Enc, m: Model, exact: bool)
    requires TablesMean(st, m, exact)
    ensures TablesMean(AddGate(k, ls, st).1, m, exact)
  {
    hide Means, Holds;
  }

  lemma RememberTables(e: Term, r: (Term, Enc), m: Model, exact: bool)
    requires TablesMean(r.1, m, exact) && Means(e, r.0, m, exact)
    ensures TablesMean(Remember(e, r).1, m, exact)
  {
    hide Means, Holds;
  }

  lemma {:induction false} EncodeConnectiveMeans(e: Term, st: Enc, m: Model, exact: bool)
    requires EncOk(st) && Supported(e) && Below(e, Next(st))
    requires AtomsNegated(e, m)
    requires !IsAtom(e) && !IsLeafOfEncoding(e) && e !in st.visited && !e.kind.Let?
    requires StepsHold(Encode(e, st).1, m, exact) && TablesMean(st, m, exact)
    ensures TablesMean(Encode(e, st).1, m, exact) && Means(e, Encode(e, st).0, m, exact)
    decreases Rank(e), e, 1
  {
    hide Below, IsLit, EncOk, StepsHold, Holds, Means, TablesMean, GateRelation, IsAtom, IsLeafOfEncoding;
    var es := e.children;
    SupportedAreBool(es);
    ConnectiveBelow(e, Next(st));
    if e.kind.Eq? && |es| > 2 {
      ChainMeans(e, st, m, exact);
    } else if e.kind.Distinct? && |es| > 2 {
      ManyDistinct(e, m, exact);
    } else {
      var (ls, st1) := EncodeAll(es, st);
      EncodeAllOk(es, st);
      if e.kind.Xor? {
        var r := FoldXor(ls, st1);
        RememberSteps(e, r, m, exact);
        FoldXorOk(ls, st1);
        StepsHoldEarlier(st1, r.1, m, exact);
        EncodeAllMeans(es, st, m, exact);
        FoldXorMeans(ls, st1, m, exact);
        SameTables(st1, r.1, m, exact);
        XorMeans(e, ls, r.0, m, exact);
        RememberTables(e, r, m, exact);
      } else if |ls| == 1 && !e.kind.Not? {
        EncodeAllMeans(es, st, m, exact);
        SingleMeans(e, ls[0], m, exact);
      } else {
        var r := AddGate(e.kind, ls, st1);
        RememberSteps(e, r, m, exact);
        StepsHoldEarlier(st1, r.1, m, exact);
        EncodeAllMeans(es, st, m, exact);
        LastGateHolds(e.kind, ls, st1, m, exact);
        GateMeans(e, ls, r.0, m, exact);
        AddGateTables(e.kind, ls, st1, m, exact);
        RememberTables(e, r, m, exact);
      }
    }
  }

  lemma SameTables(st: Enc, st': Enc, m: Model, exact: bool)
    requires TablesMean(st, m, exact) && st'.cnfMap == st.cnfMap && st'.visited == st.visited
    ensures TablesMean(st', m, exact)
  {
    hide Means, Holds;
  }

  lemma XorMeans(e: Term, ls: seq<Term>, r: Term, m: Model, exact: bool)
    requires e.kind.Xor? && e.sort == Bool && AllBool(e.children) && |e.children| >= 1
    requires !IsAtom(e) && !IsLeafOfEncoding(e)
    requires |ls| == |e.children| && AllMean(e.children, ls, m, exact)
    requires Holds(r, m) == Parity(Truths(ls, m))
    ensures Means(e, r, m, exact)
  {
    hide Holds, IsAtom, IsLeafOfEncoding, AllMean, AllFaithful;
    ConnectiveHolds(e, m);
    OperandsImplied(e.children, ls, m, exact);
    if Faithful(e, true, exact) || Faithful(e, false, exact) {
      assert Truths(ls, m) == Truths(e.children, m);
    }
  }

  /** Three Booleans are never pairwise distinct. */
  lemma ManyDistinct(e: Term, m: Model, exact: bool)
    requires e.kind.Distinct? && e.sort == Bool && AllBool(e.children) && |e.children| > 2
    ensures Means(e, FalseTerm, m, exact)
  {
    ConnectiveHolds(e, m);
    Unfold(FalseTerm, m);
    hide Value, Faithful;
    var bs := Truths(e.children, m);
    assert bs[0] == bs[1] || bs[0] == bs[2] || bs[1] == bs[2];
  }

  lemma {:induction false} ChainMeans(e: Term, st: Enc, m: Model, exact: bool)
    requires EncOk(st) && Supported(e) && AllBelow(e.children, Next(st)) && AllBool(e.children)
    requires AtomsNegated(e, m)
    requires !IsAtom(e) && !IsLeafOfEncoding(e) && e !in st.visited && e.kind.Eq? && |e.children| > 2
    requires StepsHold(Encode(e, st).1, m, exact) && TablesMean(st, m, exact)
    ensures TablesMean(Encode(e, st).1, m, exact) && Means(e, Encode(e, st).0, m, exact)
    decreases Rank(e), e, 0
  {
    hide Below, IsLit, EncOk, StepsHold, Holds, Means, TablesMean, GateRelation, IsAtom, IsLeafOfEncoding;
    var es, rest := e.children, e.children[1..];
    assert HasBinder(es[0]) ==> AnyHasBinder(es);
    assert AnyHasBinder(rest) ==> AnyHasBinder(es);
    var (first, st1) := Encode(es[0], st);
    EncodeOk(es[0], st);
    AllBelowGrows(rest, Next(st), Next(st1));
    var (eqs, st2) := EncodeEqs(first, rest, st1);
    EncodeEqsOk(first, rest, st1);
    var r := AddGate(And, eqs, st2);
    RememberSteps(e, r, m, exact);
    StepsHoldEarlier(st2, r.1, m, exact);
    StepsHoldEarlier(st1, st2, m, exact);
    EncodeMeans(es[0], st, m, exact);
    EncodeEqsMean(first, rest, st1, m, exact);
    LastGateHolds(And, eqs, st2, m, exact);
    ChainGateMeans(e, first, eqs, r.0, m, exact);
    AddGateTables(And, eqs, st2, m, exact);
    RememberTables(e, r, m, exact);
  }

  lemma ChainGateMeans(e: Term, first: Term, eqs: seq<Term>, c: Term, m: Model, exact: bool)
    requires e.kind.Eq? && e.sort == Bool && AllBool(e.children) && |e.children| > 2
    requires !IsAtom(e) && !IsLeafOfEncoding(e)
    requires Means(e.children[0], first, m, exact) && |eqs| == |e.children| - 1
    requires EqsMean(first, e.children[1..], eqs, m, exact)
    requires GateRelation(And, Holds(c, m), Truths(eqs, m), exact)
    ensures Means(e, c, m, exact)
  {
    hide Holds, IsAtom, IsLeafOfEncoding;
    ConnectiveHolds(e, m);
    var xs, qs := Truths(e.children, m), Truths(eqs, m);
    if Faithful(e, true, exact) || Faithful(e, false, exact) {
      var es := e.children;
      assert AllFaithful(es, true, exact) && AllFaithful(es, false, exact);
      assert AllFaithful(es[1..], true, exact) && AllFaithful(es[1..], false, exact);
      assert Faithful(es[0], true, exact) && Faithful(es[0], false, exact);
      forall i | 0 <= i < |qs|
        ensures qs[i] == (xs[0] == xs[i + 1])
      {
        assert Holds(eqs[i], m) == (Holds(first, m) == Holds(e.children[1..][i], m));
      }
      if AllOf(qs) {
        forall i | 0 <= i < |xs|
          ensures xs[i] == xs[0]
        {
          if i > 0 {
            assert qs[i - 1];
          }
        }
      }
    }
  }

  /** The chain's equality literals compare every operand with the first. */
  ghost predicate EqsMean(first: Term, es: seq<Term>, qs: seq<Term>, m: Model, exact: bool)
    requires |qs| == |es|
  {
    AllFaithful(es, true, exact) && AllFaithful(es, false, exact) ==>
      forall i {:trigger qs[i]} | 0 <= i < |es| :: Holds(qs[i], m) == (Holds(first, m) == Holds(es[i], m))
  }

  lemma {:induction false} EncodeEqsMean(first: Term, es: seq<Term>, st: Enc, m: Model, exact: bool)
    requires EncOk(st) && AllSupported(es) && AllBelow(es, Next(st)) && LitBelow(first, Next(st))
    requires AllAtomsNegated(es, m)
    requires StepsHold(EncodeEqs(first, es, st).1, m, exact) && TablesMean(st, m, exact)
    ensures TablesMean(EncodeEqs(first, es, st).1, m, exact)
    ensures EqsMean(first, es, EncodeEqs(first, es, st).0, m, exact)
    decreases RankAll(es), es, 0
  {
    hide Below, IsLit, EncOk, StepsHold, Holds, TablesMean, GateRelation, Means;
    if es != [] {
      var n := |es| - 1;
      assert AnyHasBinder(es[..n]) ==> AnyHasBinder(es);
      var (qs, st1) := EncodeEqs(first, es[..n], st);
      EncodeEqsOk(first, es[..n], st);
      BelowGrows(es[n], Next(st), Next(st1));
      var (l, st2) := Encode(es[n], st1);
      EncodeOk(es[n], st1);
      StepsHoldEarlier(st2, EncodeEqs(first, es, st).1, m, exact);
      StepsHoldEarlier(st1, st2, m, exact);
      EncodeEqsMean(first, es[..n], st, m, exact);
      EncodeMeans(es[n], st1, m, exact);
      LastGateHolds(Eq, [first, l], st2, m, exact);
      AddGateTables(Eq, [first, l], st2, m, exact);
      EqsSnoc(first, es, qs, l, AddGate(Eq, [first, l], st2).0, m, exact);
    }
  }

  lemma EqsSnoc(first: Term, es: seq<Term>, qs: seq<Term>, l: Term, q: Term, m: Model, exact: bool)
    requires es != [] && |qs| == |es| - 1 && EqsMean(first, es[..|es| - 1], qs, m, exact)
    requires Means(es[|es| - 1], l, m, exact)
    requires GateRelation(Eq, Holds(q, m), Truths([first, l], m), exact)
    ensures EqsMean(first, es, qs + [q], m, exact)
  {
    hide Holds, Faithful;
    var n := |es| - 1;
    if AllFaithful(es, true, exact) && AllFaithful(es, false, exact) {
      var bs := Truths([first, l], m);
      assert bs[0] == Holds(first, m) && bs[1] == Holds(l, m);
      assert Faithful(es[n], true, exact) && Faithful(es[n], false, exact);
      assert AllFaithful(es[..n], true, exact) && AllFaithful(es[..n], false, exact);
    }
  }

  lemma {:induction false} EncodeAllMeans(es: seq<Term>, st: Enc, m: Model, exact: bool)
    requires EncOk(st) && AllSupported(es) && AllBelow(es, Next(st))
    requires AllAtomsNegated(es, m)
    requires StepsHold(EncodeAll(es, st).1, m, exact) && TablesMean(st, m, exact)
    ensures TablesMean(EncodeAll(es, st).1, m, exact)
    ensures AllMean(es, EncodeAll(es, st).0, m, exact)
    decreases RankAll(es), es, 0
  {
    hide Below, IsLit, EncOk, StepsHold, Holds, TablesMean, Means, Encode, Supported, AtomsNegated;
    if es != [] {
      var n := |es| - 1;
      assert AnyHasBinder(es[..n]) ==> AnyHasBinder(es);
      var (ls, st1) := EncodeAll(es[..n], st);
      EncodeAllOk(es[..n], st);
      BelowGrows(es[n], Next(st), Next(st1));
      EncodeOk(es[n], st1);
      StepsHoldEarlier(st1, EncodeAll(es, st).1, m, exact);
      EncodeAllMeans(es[..n], st, m, exact);
      EncodeMeans(es[n], st1, m, exact);
    }
  }
}
