// The main results about the CNF encodings.
module CnfTheorems {
  import opened Terms
  import opened Builders
  import opened LetExpansion
  import opened Tseitin
  import opened CnfEncoder
  import opened CnfMeaning
  import opened TopLevelCnf

  function StepClauses(s: Step, id: nat): seq<Term> {
    if s.Gate? && GateOk(s.k, |s.ls|) then GateClauses(s.k, TempTerm(id), s.ls) else []
  }

  /** The clauses of the gates, in the order they were drawn. */
  function ClausesOf(base: nat, steps: seq<Step>): seq<Term> {
    if steps == [] then []
    else
      var n := |steps| - 1;
      ClausesOf(base, steps[..n]) + StepClauses(steps[n], base + n)
  }

  function Start(base: nat): Enc { Enc(base, map[], map[], []) }

  /** The abstraction variables have the values of their atoms. */
  ghost predicate RespectsAtoms(st: Enc, m: Model) {
    forall i {:trigger st.steps[i]} | 0 <= i < |st.steps| :: RespectsStep(st.steps[i], st.base + i, m)
  }

  ghost predicate RespectsStep(s: Step, id: nat, m: Model) {
    s.Abstract? ==> Holds(TempTerm(id), m) == Holds(s.atom, m)
  }

  lemma StepClausesHold(s: Step, id: nat, m: Model)
    requires StepOk(s, id)
    ensures AllHold(StepClauses(s, id), m) && RespectsStep(s, id, m) <==> StepHolds(s, id, m, false)
  {
    hide Holds, GateRelation, GateClauses;
    if s.Gate? {
      FreshLit(id);
      GateClausesExact(s.k, TempTerm(id), s.ls, m);
    }
  }

  /** A model obeys the steps exactly when it satisfies their clauses and
      reads the abstraction variables as their atoms. */
  lemma {:induction false} ClausesHold(base: nat, steps: seq<Step>, m: Model)
    requires StepsOk(base, steps)
    ensures var st := Enc(base, map[], map[], steps);
            AllHold(ClausesOf(base, steps), m) && RespectsAtoms(st, m) <==> StepsHold(st, m, false)
  {
    hide Holds, StepOk, StepHolds, RespectsStep, StepClauses;
    if steps != [] {
      var n := |steps| - 1;
      var st, st1 := Enc(base, map[], map[], steps), Enc(base, map[], map[], steps[..n]);
      ClausesHold(base, steps[..n], m);
      StepClausesHold(steps[n], base + n, m);
      AllHoldConcat(ClausesOf(base, steps[..n]), StepClauses(steps[n], base + n), m);
      assert RespectsAtoms(st, m) <==> RespectsAtoms(st1, m) && RespectsStep(steps[n], base + n, m) by {
        assert forall i | 0 <= i < n :: steps[i] == steps[..n][i];
      }
      assert StepsHold(st, m, false) <==> StepsHold(st1, m, false) && StepHolds(steps[n], base + n, m, false) by {
        assert forall i | 0 <= i < n :: steps[i] == steps[..n][i];
      }
    }
  }

  /** The value a step defines for its variable. */
  ghost function StepValue(s: Step, m: Model): bool {
    match s
    case Gate(k, ls) => Connective(k, Truths(ls, m))
    case Abstract(a) => Holds(a, m)
  }

  lemma StepSurvives(s: Step, id: nat, m: Model, m': Model, n: nat)
    requires StepOk(s, id) && id < n && AgreeBelow(m, m', n) && StepHolds(s, id, m, true)
    ensures StepHolds(s, id, m', true)
  {
    hide Value, GateRelation;
    assert Below(TempTerm(id), n) by { assert AllBelow([], n); }
    SameBelow(TempTerm(id), m, m', n);
    if s.Gate? {
      AllBelowGrows(s.ls, id, n);
      SameBelowAll(s.ls, m, m', n);
    } else {
      BelowGrows(s.atom, id, n);
      SameBelow(s.atom, m, m', n);
    }
  }

  lemma StepDefined(s: Step, id: nat, m: Model)
    requires StepOk(s, id)
    ensures StepHolds(s, id, SetTemp(m, id, StepValue(s, m)), true)
  {
    hide Value, Connective;
    var m' := SetTemp(m, id, StepValue(s, m));
    SetTempAgrees(m, id, StepValue(s, m));
    if s.Gate? {
      SameBelowAll(s.ls, m, m', id);
    } else {
      SameBelow(s.atom, m, m', id);
    }
  }

  /** Any model can be changed on the fresh variables alone so that it obeys
      every step exactly. */
  lemma {:induction false} ExtendModel(base: nat, steps: seq<Step>, m: Model) returns (m': Model)
    requires StepsOk(base, steps)
    ensures AgreeBelow(m, m', base) && StepsHold(Enc(base, map[], map[], steps), m', true)
  {
    hide Value, Holds, StepOk, StepHolds;
    if steps == [] {
      m' := m;
    } else {
      var n := |steps| - 1;
      var id, s := base + n, steps[n];
      var m1 := ExtendModel(base, steps[..n], m);
      m' := SetTemp(m1, id, StepValue(s, m1));
      SetTempAgrees(m1, id, StepValue(s, m1));
      StepDefined(s, id, m1);
      forall i | 0 <= i < |steps|
        ensures StepHolds(steps[i], base + i, m', true)
      {
        if i < n {
          assert steps[i] == steps[..n][i];
          StepSurvives(steps[i], base + i, m1, m', id);
        }
      }
    }
  }

  /** With exact steps every literal means its formula both ways. */
  lemma {:induction false} ExactIsFaithful(e: Term, up: bool)
    requires Supported(e)
    ensures Faithful(e, up, true)
    decreases Rank(e), e, 1
  {
    hide IsAtom, IsLeafOfEncoding;
    if !IsAtom(e) && !IsLeafOfEncoding(e) {
      if e.kind.Let? {
        ExactIsFaithful(ExpandLet(e), up);
      } else {
        ExactAreFaithful(e.children);
      }
    }
  }

  lemma {:induction false} ExactAreFaithful(es: seq<Term>)
    requires AllSupported(es)
    ensures forall i, j, up: bool | 0 <= i <= j <= |es| :: AllFaithful(es[i..j], up, true)
    ensures forall up: bool :: AllFaithful(es, up, true)
    ensures forall i, up: bool | 0 <= i <= |es| :: AllFaithful(es[i..], up, true) && AllFaithful(es[..i], up, true)
    decreases RankAll(es), es, 0
  {
    forall i, up: bool | 0 <= i < |es|
      ensures Faithful(es[i], up, true)
    {
      ExactIsFaithful(es[i], up);
    }
  }

  lemma StartOk(base: nat, m: Model, exact: bool)
    ensures EncOk(Start(base)) && TablesMean(Start(base), m, exact)
  {
  }

  lemma StepsOnly(st: Enc, m: Model, exact: bool)
    ensures StepsHold(st, m, exact) <==> StepsHold(Enc(st.base, map[], map[], st.steps), m, exact)
    ensures RespectsAtoms(st, m) <==> RespectsAtoms(Enc(st.base, map[], map[], st.steps), m)
  {
    hide StepHolds, RespectsStep;
  }

  /** Definitions are conservative: every model extends to the fresh variables
      so that the clauses hold, and then the literal and every memoised
      literal have the value of their formula, implications included. */
  lemma TseitinExtends(e: Term, base: nat, m: Model) returns (m': Model)
    requires Supported(e) && Below(e, base) && AtomsNegated(e, m)
    ensures AgreeBelow(m, m', base)
    ensures var (l, st) := Encode(e, Start(base));
            && AllHold(ClausesOf(base, st.steps), m') && RespectsAtoms(st, m')
            && Holds(l, m') == Holds(e, m') == Holds(e, m)
            && forall f | f in st.visited && Supported(f) :: Holds(st.visited[f], m') == Holds(f, m')
  {
    hide Value, Holds, StepsHold, RespectsAtoms, StepsOk;
    var (l, st) := Encode(e, Start(base));
    EncodeStart(e, base);
    m' := ExtendModel(base, st.steps, m);
    SameNegated(e, m, m', base);
    ExactObeys(base, st.steps, m');
    ClausesHold(base, st.steps, m');
    StepsOnly(st, m', false);
    StepsOnly(st, m', true);
    StartOk(base, m', true);
    EncodeMeans(e, Start(base), m', true);
    ExactMeaning(e, l, m');
    SameTruth(e, m, m', base);
    forall f | f in st.visited && Supported(f)
      ensures Holds(st.visited[f], m') == Holds(f, m')
    {
      ExactMeaning(f, st.visited[f], m');
    }
  }

  lemma EncodeStart(e: Term, base: nat)
    requires Supported(e) && Below(e, base)
    ensures var st := Encode(e, Start(base)).1;
            StepsOk(base, st.steps) && st.base == base
  {
    EncodeOk(e, Start(base));
  }

  lemma SameTruth(e: Term, m: Model, m': Model, n: nat)
    requires AgreeBelow(m, m', n) && Below(e, n)
    ensures Holds(e, m') == Holds(e, m)
  {
    SameBelow(e, m, m', n);
  }

  /** Negating atoms has nothing to do with the fresh variables. */
  lemma {:induction false} SameNegated(e: Term, m: Model, m': Model, n: nat)
    requires AgreeBelow(m, m', n) && Below(e, n) && AtomsNegated(e, m)
    ensures AtomsNegated(e, m')
    decreases Rank(e), e
  {
    hide Value, MkNot, IsAtom, IsLeafOfEncoding;
    if IsAtom(e) {
      MkNotBelow(e, n);
      SameTruth(e, m, m', n);
      SameTruth(MkNot(e), m, m', n);
    } else if !IsLeafOfEncoding(e) {
      if e.kind.Let? {
        ExpandBelow(e, n);
        SameNegated(ExpandLet(e), m, m', n);
      } else {
        forall i | 0 <= i < |e.children|
          ensures AtomsNegated(e.children[i], m')
        {
          assert HasBinder(e.children[i]) ==> AnyHasBinder(e.children);
          assert AllBelow(e.children, n);
          SameNegated(e.children[i], m, m', n);
        }
      }
    }
  }

  /** Comparisons have two operands. */
  predicate BinaryAtoms(e: Term)
    decreases Rank(e), e, 1
  {
    if IsAtom(e) then Negatable(e)
    else if IsLeafOfEncoding(e) then true
    else if e.kind.Let? then BinaryAtoms(ExpandLet(e))
    else AllBinaryAtoms(e.children)
  }

  predicate AllBinaryAtoms(es: seq<Term>)
    decreases RankAll(es), es, 0
  {
    forall i | 0 <= i < |es| :: BinaryAtoms(es[i])
  }

  /** Then mkNot negates the atoms in every model. */
  lemma {:induction false} BinaryAtomsNegated(e: Term, m: Model)
    requires BinaryAtoms(e)
    ensures AtomsNegated(e, m)
    decreases Rank(e), e
  {
    hide Value, MkNot, Holds, IsAtom, IsLeafOfEncoding, Negatable;
    if IsAtom(e) {
      MkNotHolds(e, m);
    } else if !IsLeafOfEncoding(e) {
      if e.kind.Let? {
        BinaryAtomsNegated(ExpandLet(e), m);
      } else {
        forall i | 0 <= i < |e.children|
          ensures AtomsNegated(e.children[i], m)
        {
          assert HasBinder(e.children[i]) ==> AnyHasBinder(e.children);
          BinaryAtomsNegated(e.children[i], m);
        }
      }
    }
  }

  lemma ExactMeaning(e: Term, l: Term, m: Model)
    requires Supported(e) && Means(e, l, m, true)
    ensures Holds(l, m) == Holds(e, m)
  {
    hide Holds, Supported;
    ExactIsFaithful(e, true);
    ExactIsFaithful(e, false);
  }

  /** Exact steps are in particular what the clauses ask for. */
  lemma ExactObeys(base: nat, steps: seq<Step>, m: Model)
    requires StepsOk(base, steps) && StepsHold(Enc(base, map[], map[], steps), m, true)
    ensures StepsHold(Enc(base, map[], map[], steps), m, false)
  {
    hide Holds;
    forall i | 0 <= i < |steps|
      ensures StepHolds(steps[i], base + i, m, false)
    {
      assert StepOk(steps[i], base + i) && StepHolds(steps[i], base + i, m, true);
      if steps[i].Gate? {
        var bs := Truths(steps[i].ls, m);
        if steps[i].k.Implies? && AllOf(bs) {
          assert bs[|bs| - 1];
        }
      }
    }
  }

  /** Clauses define: in every model of the clauses that reads abstraction
      variables as their atoms, the literal and every memoised literal imply
      their formula unless an implication stands under an odd number of
      negations, and are implied by it unless one stands under an even
      number. */
  lemma TseitinDefines(e: Term, base: nat, m: Model)
    requires Supported(e) && Below(e, base) && AtomsNegated(e, m)
    requires var st := Encode(e, Start(base)).1;
             AllHold(ClausesOf(base, st.steps), m) && RespectsAtoms(st, m)
    ensures var (l, st) := Encode(e, Start(base));
            && Means(e, l, m, false)
            && forall f | f in st.visited :: Means(f, st.visited[f], m, false)
  {
    hide Value, Holds, StepsHold, RespectsAtoms, StepsOk, Means;
    var (l, st) := Encode(e, Start(base));
    EncodeStart(e, base);
    StepsOnly(st, m, false);
    ClausesHold(base, st.steps, m);
    StartOk(base, m, false);
    EncodeMeans(e, Start(base), m, false);
  }

  /** All the clauses of a formula asserted at the top. */
  function TopClauses(e: Term, base: nat): seq<Term> {
    var (st, cs) := AssertTop(e, Start(base));
    ClausesOf(base, st.steps) + cs
  }

  ghost predicate SatisfiesCnf(e: Term, base: nat, m: Model) {
    AllHold(TopClauses(e, base), m) && RespectsAtoms(AssertTop(e, Start(base)).0, m)
  }

  lemma TopStart(e: Term, base: nat)
    requires Supported(e) && Below(e, base)
    ensures var st := AssertTop(e, Start(base)).0;
            StepsOk(base, st.steps) && st.base == base
  {
    AssertTopOk(e, Start(base));
  }

  /** Every model of the formula extends to a model of its clauses. */
  lemma TopLevelComplete(e: Term, base: nat, m: Model) returns (m': Model)
    requires Supported(e) && Below(e, base) && AtomsNegated(e, m) && Holds(e, m)
    ensures AgreeBelow(m, m', base) && SatisfiesCnf(e, base, m')
  {
    hide Value, Holds, StepsHold, RespectsAtoms, StepsOk, Asserts;
    var (st, cs) := AssertTop(e, Start(base));
    TopStart(e, base);
    m' := ExtendModel(base, st.steps, m);
    SameTruth(e, m, m', base);
    SameNegated(e, m, m', base);
    ExactObeys(base, st.steps, m');
    ClausesHold(base, st.steps, m');
    StepsOnly(st, m', false);
    StepsOnly(st, m', true);
    StartOk(base, m', true);
    AssertTopMeans(e, Start(base), m', true);
    ExactAsserts(e, cs, m');
    AllHoldConcat(ClausesOf(base, st.steps), cs, m');
  }

  lemma ExactAsserts(e: Term, cs: seq<Term>, m: Model)
    requires Supported(e) && Asserts(e, cs, m, true)
    ensures Holds(e, m) <==> AllHold(cs, m)
  {
    hide Holds, Supported, AllHold;
    ExactIsFaithful(e, true);
    ExactIsFaithful(e, false);
  }

  /** A model of the clauses satisfies the formula, provided implications
      occur positively only and mkNot negates the atoms there. */
  lemma TopLevelSound(e: Term, base: nat, m: Model)
    requires Supported(e) && Below(e, base) && Faithful(e, false, false) && AtomsNegated(e, m)
    requires SatisfiesCnf(e, base, m)
    ensures Holds(e, m)
  {
    hide Value, Holds, StepsHold, RespectsAtoms, StepsOk, Faithful;
    var (st, cs) := AssertTop(e, Start(base));
    TopStart(e, base);
    AllHoldConcat(ClausesOf(base, st.steps), cs, m);
    StepsOnly(st, m, false);
    ClausesHold(base, st.steps, m);
    StartOk(base, m, false);
    AssertTopMeans(e, Start(base), m, false);
  }

  /** The two halves together: a valuation of the original variables extends
      to the clauses exactly when it satisfies the formula. */
  lemma TopLevelEquisatisfiable(e: Term, base: nat, m: Model)
    requires Supported(e) && Below(e, base) && Faithful(e, false, false) && AtomsNegated(e, m)
    ensures Holds(e, m) <==> exists m' :: AgreeBelow(m, m', base) && SatisfiesCnf(e, base, m')
  {
    hide Value, Holds, SatisfiesCnf, AgreeBelow, Supported, Faithful, Below;
    if Holds(e, m) {
      var m' := TopLevelComplete(e, base, m);
    }
    if m' :| AgreeBelow(m, m', base) && SatisfiesCnf(e, base, m') {
      SameNegated(e, m, m', base);
      TopLevelSound(e, base, m');
      SameTruth(e, m, m', base);
    }
  }

  const BoolA := Node(Bool, Var, "a", [])
  const BoolB := Node(Bool, Var, "b", [])
  const BoolP := Node(Bool, Var, "p", [])
  const AImpliesB := Node(Bool, Implies, "=>", [BoolA, BoolB])

  /** An implication below xor, which toNNF leaves in place: with `a` false,
      the implication's variable may be false, so the clauses of
      (xor (=> a b) p) are satisfied where the formula is not. */
  lemma ImplicationBelowXor() returns (e: Term, m: Model)
    ensures e == Node(Bool, Xor, "xor", [AImpliesB, BoolP]) && Supported(e) && Below(e, 0)
    ensures SatisfiesCnf(e, 0, m) && !Holds(e, m) && !Faithful(e, false, false)
  {
    e := Node(Bool, Xor, "xor", [AImpliesB, BoolP]);
    m := Model((l: Term) => B(l == BoolP), (k, n, vs) => U(0), map[]);
    hide Value, Holds, Supported, Below, Faithful, SatisfiesCnf;
    XorInput(e);
    ImplicationAlone(m);
    XorFalse(e, m);
    XorClauses(e, m);
  }

  lemma {:induction false} XorInput(e: Term)
    requires e == Node(Bool, Xor, "xor", [AImpliesB, BoolP])
    ensures Supported(e) && Below(e, 0) && !Faithful(e, false, false)
  {
    ImplicationSupported();
    assert AllSupported(e.children) && AllBelow(e.children, 0);
    assert !Faithful(AImpliesB, true, false);
    assert e.children[0] == AImpliesB;
    assert !AllFaithful(e.children, true, false);
  }

  lemma ImplicationSupported()
    ensures Supported(AImpliesB) && Supported(BoolP) && Supported(BoolA) && Supported(BoolB)
    ensures Below(AImpliesB, 0) && Below(BoolP, 0) && Below(BoolA, 0) && Below(BoolB, 0)
  {
    assert AllBelow([], 0);
    assert AllBelow([BoolA, BoolB], 0);
    assert AllSupported([BoolA, BoolB]);
  }

  lemma ImplicationAlone(m: Model)
    requires m.leaf(BoolA) == B(false) && m.leaf(BoolP) == B(true)
    ensures !Holds(BoolA, m) && Holds(BoolP, m) && Holds(AImpliesB, m)
  {
    Unfold(BoolA, m);
    Unfold(BoolP, m);
    hide Value;
    ConnectiveHolds(AImpliesB, m);
    assert Truths([BoolA, BoolB], m)[0] == Holds(BoolA, m);
  }

  lemma XorFalse(e: Term, m: Model)
    requires e == Node(Bool, Xor, "xor", [AImpliesB, BoolP]) && Holds(AImpliesB, m) && Holds(BoolP, m)
    ensures !Holds(e, m)
  {
    hide Value, Holds;
    ConnectiveHolds(e, m);
    var bs := Truths(e.children, m);
    ParityOfTwo(bs);
  }

  lemma EncodeAllSnoc(es: seq<Term>, e: Term, st: Enc)
    ensures var (ls, st1) := EncodeAll(es, st);
            var (l, st2) := Encode(e, st1);
            EncodeAll(es + [e], st) == (ls + [l], st2)
  {
    hide Encode;
    var all := es + [e];
    assert all[..|all| - 1] == es && all[|all| - 1] == e;
  }

  lemma TwoOperands(a: Term, b: Term, st: Enc)
    ensures var (l, st1) := Encode(a, st);
            var (l', st2) := Encode(b, st1);
            EncodeAll([a, b], st) == ([l, l'], st2)
  {
    hide Encode;
    var none: seq<Term> := [];
    assert EncodeAll(none, st) == (none, st);
    EncodeAllSnoc(none, a, st);
    EncodeAllSnoc([a], b, st);
    assert none + [a] == [a] && [a] + [b] == [a, b];
    var (l, st1) := Encode(a, st);
    var (l', st2) := Encode(b, st1);
    assert none + [l] == [l] && [l] + [l'] == [l, l'];
  }

  lemma LeafPair(a: Term, b: Term, st: Enc)
    requires IsLeafOfEncoding(a) && IsLeafOfEncoding(b) && !IsAtom(a) && !IsAtom(b)
    ensures EncodeAll([a, b], st) == ([a, b], st)
  {
    TwoOperands(a, b, st);
  }

  lemma EncodeImplication(a: Term, b: Term, e: Term, st: Enc)
    requires IsVBool(a) && IsVBool(b) && a.children == [] && b.children == []
    requires e == Node(Bool, Implies, "=>", [a, b]) && e !in st.visited
    ensures Encode(e, st) == Remember(e, AddGate(Implies, [a, b], st))
  {
    LeafPair(a, b, st);
    hide EncodeAll, IsAtom;
    NotAtoms(e);
  }

  lemma NotAtoms(e: Term)
    requires e.kind.Implies?
    ensures !IsAtom(e) && !IsLeafOfEncoding(e)
  {
  }

  const XorState := Enc(0, map[], map[AImpliesB := TempTerm(0)], [Gate(Implies, [BoolA, BoolB])])

  lemma XorOperands()
    ensures EncodeAll([AImpliesB, BoolP], Start(0)) == ([TempTerm(0), BoolP], XorState)
  {
    EncodeImplication(BoolA, BoolB, AImpliesB, Start(0));
    var r := Remember(AImpliesB, AddGate(Implies, [BoolA, BoolB], Start(0)));
    assert r.1.visited == XorState.visited && r.1.steps == XorState.steps;
    hide Encode, EncodeAll;
    TwoOperands(AImpliesB, BoolP, Start(0));
  }

  lemma XorEncoding(e: Term)
    requires e == Node(Bool, Xor, "xor", [AImpliesB, BoolP])
    ensures AssertTop(e, Start(0)) == (XorState, DifferClauses(TempTerm(0), BoolP))
  {
    hide DifferClauses, Encode, EncodeAll, FoldXor;
    XorOperands();
    assert !IsAtom(e) && !IsLiteral(e);
    var ls := [TempTerm(0), BoolP];
    assert AssertTop(e, Start(0)) == AssertXor(ls, XorState);
    assert ls[..1] == [TempTerm(0)];
    FoldOne(TempTerm(0), XorState);
  }

  lemma FoldOne(l: Term, st: Enc)
    ensures FoldXor([l], st) == (l, st)
  {
  }

  lemma XorClauses(e: Term, m: Model)
    requires e == Node(Bool, Xor, "xor", [AImpliesB, BoolP])
    requires m.leaf(TempTerm(0)) == B(false) && !Holds(BoolA, m) && Holds(BoolP, m)
    ensures SatisfiesCnf(e, 0, m)
  {
    Unfold(TempTerm(0), m);
    assert !Holds(TempTerm(0), m);
    XorEncoding(e);
    hide Value, Holds, AssertTop, AllHold, DifferClauses, ClausesOf;
    GateAndUnits(m);
    XorRespects(m);
  }

  lemma XorRespects(m: Model)
    ensures RespectsAtoms(XorState, m)
  {
  }

  lemma GateAndUnits(m: Model)
    requires !Holds(TempTerm(0), m) && !Holds(BoolA, m) && Holds(BoolP, m)
    ensures AllHold(ClausesOf(0, XorState.steps) + DifferClauses(TempTerm(0), BoolP), m)
  {
    hide Value, Holds, MkOr, MkNot, GateClauses, ClausesOf;
    var c := TempTerm(0);
    DifferHold(c, BoolP, m);
    GateClausesExact(Implies, c, [BoolA, BoolB], m);
    assert Truths([BoolA, BoolB], m)[0] == Holds(BoolA, m);
    OneStep(XorState.steps[0]);
    assert XorState.steps == [XorState.steps[0]];
    AllHoldConcat(ClausesOf(0, XorState.steps), DifferClauses(c, BoolP), m);
  }

  lemma OneStep(s: Step)
    ensures ClausesOf(0, [s]) == StepClauses(s, 0)
  {
    hide StepClauses;
    assert [s][..0] == [];
    assert ClausesOf(0, []) == [];
  }

  // ------------------------------------------------------------------
  // Chained comparisons as atoms
  // ------------------------------------------------------------------

  /** A chained integer equality or disequality and what mkNot makes of it get
      complementary literals. Once the first has the value of its atom, the
      second has the value of its own exactly where all operands agree or all
      differ. */
  lemma ChainLiterals(a: Term, st: Enc, m: Model)
    requires a.sort == Bool && IsArithComp(a) && (a.kind.Eq? || a.kind.Distinct?) && |a.children| >= 2
    requires a !in st.cnfMap && RespectsStep(Abstract(a), Next(st), m)
    ensures var (c, st1) := Encode(a, st);
            var (d, st2) := Encode(MkNot(a), st1);
            var vs := Values(a.children, m);
            && (Holds(c, m) <==> Holds(a, m)) && (Holds(d, m) <==> !Holds(c, m)) && st2 == st1
            && ((Holds(d, m) <==> Holds(MkNot(a), m)) <==> AllEqual(vs) || PairwiseDistinct(vs))
  {
    hide Value, Holds, Values;
    ChainEncoding(a, st);
    MkNotOnChain(a, m);
    MkNotHolds(TempTerm(Next(st)), m);
  }

  lemma ChainEncoding(a: Term, st: Enc)
    requires IsArithComp(a) && (a.kind.Eq? || a.kind.Distinct?) && a !in st.cnfMap
    ensures var (c, st1) := Encode(a, st);
            && c == TempTerm(Next(st)) && st1.steps == st.steps + [Abstract(a)] && st1.base == st.base
            && Encode(MkNot(a), st1) == (MkNot(c), st1)
  {
    hide IsArithTerm, IsStrTerm;
    assert IsAtom(a) && IsAtom(MkNot(a));
  }

  const ChainEq := Node(Bool, Eq, "=", [IntX, IntY, IntZ])
  const ChainDistinct := MkOper(Bool, Distinct, [IntX, IntY, IntZ])

  function Negated(t: Term): Term { Node(Bool, Not, "not", [t]) }

  /** Neither all equal nor all different: satisfiable, and the two literals
      being complements, no model satisfies the clauses. */
  lemma ChainsUnsatisfiable() returns (e: Term, m: Model)
    ensures e == Node(Bool, And, "and", [Negated(ChainEq), Negated(ChainDistinct)])
    ensures Supported(e) && Below(e, 0) && Holds(e, m)
    ensures forall k :: !AllHold(TopClauses(e, 0), k)
  {
    e := Node(Bool, And, "and", [Negated(ChainEq), Negated(ChainDistinct)]);
    m := Model((l: Term) => if l.name == "z" then N(1) else N(0), (k, n, vs) => U(0), map[]);
    hide Value, Holds, AssertTop, TopClauses, AllHold, Supported, Below;
    ChainsSupported(e);
    ChainsHold(e, m);
    ChainClauses(e);
    forall k
      ensures !AllHold(TopClauses(e, 0), k)
    {
      Complementary(TempTerm(0), k);
    }
  }

  lemma ChainsSupported(e: Term)
    requires e == Node(Bool, And, "and", [Negated(ChainEq), Negated(ChainDistinct)])
    ensures Supported(e) && Below(e, 0)
  {
    assert AllBelow([], 0);
    assert AllBelow([IntX, IntY, IntZ], 0);
    assert AllSupported([ChainEq]) && AllSupported([ChainDistinct]);
    assert AllBelow([ChainEq], 0) && AllBelow([ChainDistinct], 0);
    assert AllSupported(e.children) && AllBelow(e.children, 0);
  }

  lemma Complementary(c: Term, m: Model)
    requires c.sort == Bool && c.kind.TempVar?
    ensures !AllHold([MkNot(c), c], m)
  {
    hide Holds, MkNot;
    MkNotHolds(c, m);
    assert [MkNot(c), c][0] == MkNot(c) && [MkNot(c), c][1] == c;
  }

  lemma ChainsHold(e: Term, m: Model)
    requires e == Node(Bool, And, "and", [Negated(ChainEq), Negated(ChainDistinct)])
    requires m.leaf(IntX) == N(0) && m.leaf(IntY) == N(0) && m.leaf(IntZ) == N(1)
    ensures Holds(e, m)
  {
    hide Value, Holds, Values;
    ChainValues(m);
    AndHolds(e, m);
    NotHolds(Negated(ChainEq), m);
    NotHolds(Negated(ChainDistinct), m);
  }

  lemma ChainValues(m: Model)
    requires m.leaf(IntX) == N(0) && m.leaf(IntY) == N(0) && m.leaf(IntZ) == N(1)
    ensures !Holds(ChainEq, m) && !Holds(ChainDistinct, m)
  {
    var vs := Values([IntX, IntY, IntZ], m);
    Unfold(ChainEq, m);
    Unfold(ChainDistinct, m);
    assert vs[0] == N(0) && vs[1] == N(0) && vs[2] == N(1);
  }

  lemma ChainClauses(e: Term)
    requires e == Node(Bool, And, "and", [Negated(ChainEq), Negated(ChainDistinct)])
    ensures TopClauses(e, 0) == [MkNot(TempTerm(0)), TempTerm(0)]
  {
    hide Encode, ClausesOf, AssertTop, AssertAll, MkNot;
    var c := TempTerm(0);
    ChainSwap();
    TwiceNegated(c);
    var st := Encode(ChainEq, Start(0)).1;
    ChainEncoding(ChainEq, Start(0));
    AssertNegation(ChainEq, Start(0));
    AssertNegation(ChainDistinct, st);
    AssertPair(Negated(ChainEq), Negated(ChainDistinct), Start(0));
    AssertConjunction(e, Start(0));
    OneStep(Abstract(ChainEq));
    assert st.steps == [Abstract(ChainEq)];
    assert [MkNot(c)] + [MkNot(MkNot(c))] == [MkNot(c), c];
  }

  lemma TwiceNegated(c: Term)
    requires c.kind.TempVar?
    ensures MkNot(MkNot(c)) == c
  {
  }

  lemma AssertNegation(t: Term, st: Enc)
    requires IsComp(t)
    ensures var (l, st1) := Encode(t, st);
            AssertTop(Negated(t), st) == (st1, [MkNot(l)])
  {
    hide Encode, MkNot;
  }

  lemma AssertConjunction(e: Term, st: Enc)
    requires e.kind.And?
    ensures AssertTop(e, st) == AssertAll(e.children, st)
  {
    hide AssertAll, Encode;
  }

  lemma AssertPair(a: Term, b: Term, st: Enc)
    ensures var (st1, cs) := AssertTop(a, st);
            var (st2, ds) := AssertTop(b, st1);
            AssertAll([a, b], st) == (st2, cs + ds)
  {
    hide AssertTop;
    var (st1, cs) := AssertTop(a, st);
    assert [a, b][..1] == [a] && [a][..0] == [];
    assert AssertAll([], st) == (st, []);
    assert AssertAll([a], st) == (st1, [] + cs) && [] + cs == cs;
  }

  const BoolQ := Node(Bool, Var, "q", [])
  const BoolR := Node(Bool, Var, "r", [])
  const EitherEq := Node(Bool, Or, "or", [ChainEq, BoolQ])
  const EitherDistinct := Node(Bool, Or, "or", [ChainDistinct, BoolR])

  /** In normal form already: a model of the clauses that does not satisfy the
      formula, since `distinct` gets the literal not (=). */
  lemma ChainsInNormalForm() returns (e: Term, m: Model)
    ensures e == Node(Bool, And, "and", [EitherEq, EitherDistinct]) && Supported(e) && Below(e, 0)
    ensures SatisfiesCnf(e, 0, m) && !Holds(e, m)
  {
    e := Node(Bool, And, "and", [EitherEq, EitherDistinct]);
    m := Model((l: Term) => if l.sort == Int then N(if l.name == "z" then 1 else 0) else B(l == BoolQ),
               (k, n, vs) => U(0), map[]);
    hide Value, Holds, AssertTop, TopClauses, AllHold, Supported, Below, RespectsAtoms;
    EitherSupported(e);
    EitherClauses(e);
    EitherValues(e, m);
    EitherHold(m);
  }

  lemma EitherSupported(e: Term)
    requires e == Node(Bool, And, "and", [EitherEq, EitherDistinct])
    ensures Supported(e) && Below(e, 0)
  {
    assert AllBelow([], 0);
    assert AllBelow([IntX, IntY, IntZ], 0);
    assert AllSupported(EitherEq.children) && AllSupported(EitherDistinct.children);
    assert AllBelow(EitherEq.children, 0) && AllBelow(EitherDistinct.children, 0);
    assert AllSupported(e.children) && AllBelow(e.children, 0);
  }

  lemma EitherClauses(e: Term)
    requires e == Node(Bool, And, "and", [EitherEq, EitherDistinct])
    ensures var c := TempTerm(0);
            && TopClauses(e, 0) == [MkOr([c, BoolQ]), MkOr([MkNot(c), BoolR])]
            && AssertTop(e, Start(0)).0.steps == [Abstract(ChainEq)] && AssertTop(e, Start(0)).0.base == 0
  {
    hide Encode, ClausesOf, MkOr, MkNot;
    var c := TempTerm(0);
    var st := Encode(ChainEq, Start(0)).1;
    ChainEncoding(ChainEq, Start(0));
    ChainSwap();
    AssertOr(ChainEq, BoolQ, EitherEq, Start(0));
    AssertOr(ChainDistinct, BoolR, EitherDistinct, st);
    AssertPair(EitherEq, EitherDistinct, Start(0));
    AssertConjunction(e, Start(0));
    OneStep(Abstract(ChainEq));
    assert st.steps == [Abstract(ChainEq)];
    assert [MkOr([c, BoolQ])] + [MkOr([MkNot(c), BoolR])] == [MkOr([c, BoolQ]), MkOr([MkNot(c), BoolR])];
  }

  lemma ChainSwap()
    ensures MkNot(ChainEq) == ChainDistinct
  {
  }

  lemma {:induction false} AssertOr(a: Term, q: Term, e: Term, st: Enc)
    requires IsArithComp(a) && q.kind.Var? && q.sort == Bool && e == Node(Bool, Or, "or", [a, q])
    ensures var (l, st1) := Encode(a, st);
            AssertTop(e, st) == (st1, [MkOr([l, q])])
  {
    hide Encode, MkOr, IsArithTerm, IsStrTerm;
    var (l, st1) := Encode(a, st);
    TwoOperands(a, q, st);
    LeafEncoding(q, st1);
    assert !IsAtom(e) && !IsLiteral(e);
  }

  lemma {:induction false} LeafEncoding(q: Term, st: Enc)
    requires q.kind.Var? && q.sort == Bool
    ensures Encode(q, st) == (q, st)
  {
  }

  lemma EitherValues(e: Term, m: Model)
    requires e == Node(Bool, And, "and", [EitherEq, EitherDistinct])
    requires m.leaf(IntX) == N(0) && m.leaf(IntY) == N(0) && m.leaf(IntZ) == N(1)
    requires m.leaf(BoolR) == B(false) && m.leaf(BoolQ) == B(true) && m.leaf(TempTerm(0)) == B(false)
    ensures !Holds(e, m) && !Holds(ChainEq, m) && Holds(BoolQ, m) && !Holds(TempTerm(0), m)
  {
    Unfold(BoolQ, m);
    Unfold(BoolR, m);
    Unfold(TempTerm(0), m);
    hide Value, Values;
    assert !Holds(BoolR, m) && Holds(BoolQ, m) && !Holds(TempTerm(0), m);
    hide Holds;
    ChainValues(m);
    AndHolds(e, m);
    OrHolds(EitherDistinct, m);
    assert e.children[1] == EitherDistinct && EitherDistinct.children == [ChainDistinct, BoolR];
  }

  lemma EitherHold(m: Model)
    requires !Holds(ChainEq, m) && Holds(BoolQ, m) && !Holds(TempTerm(0), m)
    ensures var c := TempTerm(0);
            && AllHold([MkOr([c, BoolQ]), MkOr([MkNot(c), BoolR])], m)
            && forall st: Enc :: st.base == 0 && st.steps == [Abstract(ChainEq)] ==> RespectsAtoms(st, m)
  {
    hide Value, Holds, MkOr, MkNot;
    var c := TempTerm(0);
    MkNotHolds(c, m);
    Clause2(c, BoolQ, m);
    Clause2(MkNot(c), BoolR, m);
  }
}
