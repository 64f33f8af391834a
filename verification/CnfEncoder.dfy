// The recursive encoder toTseitinCNF: memo table, atom table, fresh variables.
module CnfEncoder {
  import opened Terms
  import opened Builders
  import opened LetExpansion
  import opened Tseitin

  /** One fresh variable: a gate over literals, or the abstraction of an atom. */
  datatype Step = Gate(k: Kind, ls: seq<Term>) | Abstract(atom: Term)

  /** The encoder's state. Step number i defines the variable base + i. */
  datatype Enc = Enc(base: nat, cnfMap: map<Term, Term>, visited: map<Term, Term>, steps: seq<Step>)

  function Next(st: Enc): nat { st.base + |st.steps| }

  function AddStep(st: Enc, s: Step): Enc { st.(steps := st.steps + [s]) }

  function AddGate(k: Kind, ls: seq<Term>, st: Enc): (Term, Enc) {
    (TempTerm(Next(st)), AddStep(st, Gate(k, ls)))
  }

  function Remember(e: Term, r: (Term, Enc)): (Term, Enc) {
    (r.0, r.1.(visited := r.1.visited[e := r.0]))
  }

  /** A single operand stands for the whole of an `and` or `or`. */
  function GateOrOperand(e: Term, ls: seq<Term>, st: Enc): (Term, Enc) {
    if |ls| == 1 && !e.kind.Not? then (ls[0], st) else Remember(e, AddGate(e.kind, ls, st))
  }

  /** An atom met for the first time, registered with its negation. */
  function AddAtom(a: Term, st: Enc): (Term, Enc) {
    var c := TempTerm(Next(st));
    (c, AddStep(st, Abstract(a)).(cnfMap := st.cnfMap[a := c][MkNot(a) := MkNot(c)]))
  }

  predicate IsLeafOfEncoding(e: Term) { IsLiteral(e) || e.kind.TempVar? }

  /** The literal that stands for `e`. Nodes the source reports as errors get
      the false constant, as there. */
  function Encode(e: Term, st: Enc): (Term, Enc)
    decreases Rank(e), e, 1
  {
    if IsAtom(e) then if e in st.cnfMap then (st.cnfMap[e], st) else AddAtom(e, st)
    else if IsLeafOfEncoding(e) then (e, st)
    else if e in st.visited then (st.visited[e], st)
    else if e.kind.Let? then Remember(e, Encode(ExpandLet(e), st))
    else if !IsConnective(e.kind) || !ArityOk(e.kind, |e.children|) then (FalseTerm, st)
    else if (e.kind.Eq? || e.kind.Distinct?) && !AllBool(e.children) then (FalseTerm, st)
    else if e.kind.Xor? then
      var (ls, st1) := EncodeAll(e.children, st);
      Remember(e, FoldXor(ls, st1))
    else if e.kind.Eq? && |e.children| != 2 then
      assert HasBinder(e.children[0]) ==> AnyHasBinder(e.children);
      assert AnyHasBinder(e.children[1..]) ==> AnyHasBinder(e.children);
      var (first, st1) := Encode(e.children[0], st);
      var (eqs, st2) := EncodeEqs(first, e.children[1..], st1);
      Remember(e, AddGate(And, eqs, st2))
    else if e.kind.Distinct? && |e.children| > 2 then
      // more than two Booleans are never pairwise distinct
      (FalseTerm, st)
    else
      var (ls, st1) := EncodeAll(e.children, st);
      if e.kind.Eq? || e.kind.Distinct? then Remember(e, AddGate(e.kind, ls, st1))
      else GateOrOperand(e, ls, st1)
  }

  function EncodeAll(es: seq<Term>, st: Enc): (r: (seq<Term>, Enc))
    ensures |r.0| == |es|
    decreases RankAll(es), es, 0
  {
    if es == [] then ([], st)
    else
      var n := |es| - 1;
      assert AnyHasBinder(es[..n]) ==> AnyHasBinder(es);
      var (ls, st1) := EncodeAll(es[..n], st);
      var (l, st2) := Encode(es[n], st1);
      (ls + [l], st2)
  }

  /** One equality gate between `first` and each further operand, each drawn
      right after the operand it compares. */
  function EncodeEqs(first: Term, es: seq<Term>, st: Enc): (r: (seq<Term>, Enc))
    ensures |r.0| == |es|
    decreases RankAll(es), es, 0
  {
    if es == [] then ([], st)
    else
      var n := |es| - 1;
      assert AnyHasBinder(es[..n]) ==> AnyHasBinder(es);
      var (qs, st1) := EncodeEqs(first, es[..n], st);
      var (l, st2) := Encode(es[n], st1);
      var (q, st3) := AddGate(Eq, [first, l], st2);
      (qs + [q], st3)
  }

  /** A chain of binary xor gates, from the left. */
  function FoldXor(ls: seq<Term>, st: Enc): (Term, Enc)
    requires ls != []
  {
    if |ls| == 1 then (ls[0], st)
    else
      var (r, st1) := FoldXor(ls[..|ls| - 1], st);
      AddGate(Xor, [r, ls[|ls| - 1]], st1)
  }

  // ------------------------------------------------------------------
  // Inputs the encoder accepts
  // ------------------------------------------------------------------

  /** Formulas no branch of the encoder reports as an error. */
  predicate Supported(e: Term)
    decreases Rank(e), e, 1
  {
    if IsAtom(e) || IsLeafOfEncoding(e) then e.sort == Bool
    else if e.kind.Let? then WellFormed(e) && Supported(ExpandLet(e))
    else e.sort == Bool && IsConnective(e.kind) && ArityOk(e.kind, |e.children|) && AllSupported(e.children)
  }

  predicate AllSupported(es: seq<Term>)
    decreases RankAll(es), es, 0
  {
    forall i | 0 <= i < |es| :: Supported(es[i])
  }

  /** mkNot negates the atoms in this model: their negations share a variable
      with them. */
  ghost predicate AtomsNegated(e: Term, m: Model)
    decreases Rank(e), e, 1
  {
    if IsAtom(e) then Negates(e, m)
    else if IsLeafOfEncoding(e) then true
    else if e.kind.Let? then AtomsNegated(ExpandLet(e), m)
    else AllAtomsNegated(e.children, m)
  }

  ghost predicate AllAtomsNegated(es: seq<Term>, m: Model)
    decreases RankAll(es), es, 0
  {
    forall i | 0 <= i < |es| :: AtomsNegated(es[i], m)
  }

  lemma SupportedIsBool(e: Term)
    requires Supported(e)
    ensures e.sort == Bool
    decreases Rank(e), e
  {
    if !IsAtom(e) && !IsLeafOfEncoding(e) && e.kind.Let? {
      SupportedIsBool(ExpandLet(e));
      ExpandKeepsSort(e);
    }
  }

  lemma SupportedAreBool(es: seq<Term>)
    requires AllSupported(es)
    ensures AllBool(es)
  {
    forall i | 0 <= i < |es|
      ensures es[i].sort == Bool
    {
      SupportedIsBool(es[i]);
    }
  }

  /** Every fresh variable in the term was drawn before number `n`. */
  predicate Below(t: Term, n: nat)
    decreases t, 1
  {
    (t.kind.TempVar? ==> t.kind.id < n) && AllBelow(t.children, n)
  }

  predicate AllBelow(ts: seq<Term>, n: nat)
    decreases ts, 0
  {
    forall i | 0 <= i < |ts| :: Below(ts[i], n)
  }

  lemma BelowGrows(t: Term, n: nat, k: nat)
    requires Below(t, n) && n <= k
    ensures Below(t, k)
    decreases t, 1
  {
    AllBelowGrows(t.children, n, k);
  }

  lemma AllBelowGrows(ts: seq<Term>, n: nat, k: nat)
    requires AllBelow(ts, n) && n <= k
    ensures AllBelow(ts, k)
    decreases ts, 0
  {
    forall i | 0 <= i < |ts|
      ensures Below(ts[i], k)
    {
      BelowGrows(ts[i], n, k);
    }
  }

  lemma ExpandBelow(t: Term, n: nat)
    requires Below(t, n)
    ensures Below(Expand(t), n)
    decreases t, 1
  {
    if IsBinder(t.kind) {
      if t.children != [] {
        ExpandBelow(t.children[BinderChild(t)], n);
      }
    } else if HasBinder(t) {
      forall i | 0 <= i < |t.children|
        ensures Below(Expand(t.children[i]), n)
      {
        ExpandBelow(t.children[i], n);
      }
    }
  }

  // ------------------------------------------------------------------
  // Fresh variables do not disturb older terms
  // ------------------------------------------------------------------

  /** The models differ at most on fresh variables numbered `n` or more. */
  ghost predicate AgreeBelow(m: Model, m': Model, n: nat) {
    && m'.uf == m.uf && m'.params == m.params
    && forall l: Term {:trigger m'.leaf(l)} :: (l.kind.TempVar? ==> l.kind.id < n) ==> m'.leaf(l) == m.leaf(l)
  }

  function SetTemp(m: Model, k: nat, b: bool): Model {
    m.(leaf := (l: Term) => if l.kind == TempVar(k) then B(b) else m.leaf(l))
  }

  lemma SetTempAgrees(m: Model, k: nat, b: bool)
    ensures AgreeBelow(m, SetTemp(m, k, b), k)
    ensures Holds(TempTerm(k), SetTemp(m, k, b)) == b
  {
    Unfold(TempTerm(k), SetTemp(m, k, b));
  }

  lemma {:induction false} SameBelow(t: Term, m: Model, m': Model, n: nat)
    requires AgreeBelow(m, m', n) && Below(t, n)
    ensures Value(t, m') == Value(t, m)
    decreases t, 1
  {
    hide Value, AgreeBelow;
    SameBelowAll(t.children, m, m', n);
    var vs := Values(t.children, m);
    if t.kind.FuncApply? {
      SameBelowCall(t, m, m', n);
    } else {
      Unfold(t, m);
      Unfold(t, m');
      SameInterpretation(t, vs, m, m', n);
    }
  }

  lemma {:induction false} SameBelowCall(t: Term, m: Model, m': Model, n: nat)
    requires AgreeBelow(m, m', n) && Below(t, n) && t.kind.FuncApply?
    requires Values(t.children, m') == Values(t.children, m)
    ensures Value(t, m') == Value(t, m)
    decreases t, 0
  {
    hide Value;
    UnfoldCall(t, m);
    UnfoldCall(t, m');
    if IsCall(t) {
      assert Below(t.children[0], n) && AllBelow(t.children[0].children, n);
      assert Below(t.children[0].children[0], n);
      SameBelow(t.children[0].children[0], CalleeModel(t, m), CalleeModel(t, m'), n);
    }
  }

  lemma SameInterpretation(t: Term, vs: seq<Val>, m: Model, m': Model, n: nat)
    requires AgreeBelow(m, m', n) && (t.kind.TempVar? ==> t.kind.id < n)
    ensures Interpret(t, vs, m') == Interpret(t, vs, m)
  {
  }

  lemma {:induction false} SameBelowAll(ts: seq<Term>, m: Model, m': Model, n: nat)
    requires AgreeBelow(m, m', n) && AllBelow(ts, n)
    ensures Values(ts, m') == Values(ts, m)
    ensures Truths(ts, m') == Truths(ts, m)
    decreases ts, 0
  {
    hide Value, AgreeBelow;
    forall i | 0 <= i < |ts|
      ensures Value(ts[i], m') == Value(ts[i], m)
    {
      SameBelow(ts[i], m, m', n);
    }
    assert Truths(ts, m') == Truths(ts, m);
  }
}
