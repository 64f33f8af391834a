// The converter as the parser runs it: tables, counter and clause vector are
// fields that the methods update. Each method is tied to the encoder function
// of the same step, so what is proved of those holds of the vector.
module CnfConverter {
  import opened Terms
  import opened Builders
  import opened LetExpansion
  import opened Tseitin
  import opened CnfEncoder
  import opened CnfMeaning
  import opened TopLevelCnf
  import opened CnfTheorems

  /** The clause vector grew by exactly the clauses of the new steps. */
  ghost predicate Emitted(before: seq<Term>, after: seq<Term>, st: Enc, st': Enc) {
    && before <= after
    && st'.base == st.base && st.steps <= st'.steps
    && ClausesOf(st'.base, st'.steps) == ClausesOf(st.base, st.steps) + after[|before|..]
  }

  lemma EmittedNothing(cs: seq<Term>, st: Enc, st': Enc)
    requires st'.base == st.base && st'.steps == st.steps
    ensures Emitted(cs, cs, st, st')
  {
  }

  lemma EmittedTwice(a: seq<Term>, b: seq<Term>, c: seq<Term>, s: Enc, t: Enc, u: Enc)
    requires Emitted(a, b, s, t) && Emitted(b, c, t, u)
    ensures Emitted(a, c, s, u)
  {
    hide ClausesOf;
    assert c[|a|..] == b[|a|..] + c[|b|..];
  }

  lemma EmittedStep(cs: seq<Term>, st: Enc, s: Step)
    ensures Emitted(cs, cs + StepClauses(s, Next(st)), st, AddStep(st, s))
  {
    hide StepClauses;
    var all := st.steps + [s];
    assert all != [] && all[..|all| - 1] == st.steps && all[|all| - 1] == s;
  }

  /** (not c or a) for every operand, and (not a or ... or c). */
  method AndClauses(c: Term, ls: seq<Term>) returns (cs: seq<Term>)
    requires |ls| > 0
    ensures cs == GateClauses(And, c, ls)
  {
    hide MkOr, MkNot;
    cs := [];
    var long: seq<Term> := [];
    for i := 0 to |ls|
      invariant cs == PairClauses(MkNot(c), ls)[..i] && long == Negs(ls)[..i]
    {
      cs := cs + [MkOr([MkNot(c), ls[i]])];
      long := long + [MkNot(ls[i])];
    }
    assert long == Negs(ls);
    cs := cs + [MkOr(long + [c])];
  }

  /** (not a or c) for every operand, and (a or ... or not c). */
  method OrClauses(c: Term, ls: seq<Term>) returns (cs: seq<Term>)
    requires |ls| > 0
    ensures cs == GateClauses(Or, c, ls)
  {
    hide MkOr, MkNot;
    cs := [];
    var long: seq<Term> := [];
    for i := 0 to |ls|
      invariant cs == PairClausesLeft(Negs(ls), c)[..i] && long == ls[..i]
    {
      cs := cs + [MkOr([MkNot(ls[i]), c])];
      long := long + [ls[i]];
    }
    assert long == ls;
    cs := cs + [MkOr(long + [MkNot(c)])];
  }

  /** The two long clauses of an implication. */
  method ImpliesClauses(c: Term, ls: seq<Term>) returns (cs: seq<Term>)
    requires |ls| > 0
    ensures cs == GateClauses(Implies, c, ls)
  {
    hide MkOr, MkNot;
    var n := |ls| - 1;
    var one: seq<Term>, two: seq<Term> := [MkNot(c)], [];
    for i := 0 to |ls|
      invariant two == Negs(ls)[..i]
      invariant one == [MkNot(c)] + if i <= n then Negs(ls[..n])[..i] else Negs(ls[..n]) + [ls[n]]
    {
      if i == n {
        one := one + [ls[i]];
      } else {
        one := one + [MkNot(ls[i])];
      }
      two := two + [MkNot(ls[i])];
    }
    assert two == Negs(ls);
    assert one == [MkNot(c)] + Negs(ls[..n]) + [ls[n]];
    cs := [MkOr(one), MkOr(two + [c])];
  }

  class Converter {
    var nextTemp: nat
    var cnfMap: map<Term, Term>
    var atomOf: map<Term, Term>
    var visited: map<Term, Term>
    var clauses: seq<Term>
    ghost var base: nat
    ghost var steps: seq<Step>

    constructor (counter: nat)
      ensures Valid() && View() == Start(counter) && clauses == []
    {
      nextTemp, cnfMap, atomOf, visited, clauses := counter, map[], map[], map[], [];
      base, steps := counter, [];
    }

    ghost function View(): Enc
      reads this
    {
      Enc(base, cnfMap, visited, steps)
    }

    ghost predicate Valid()
      reads this
    {
      nextTemp == base + |steps|
    }

    method MkTempVar() returns (c: Term)
      modifies this`nextTemp
      ensures c == TempTerm(old(nextTemp)) && nextTemp == old(nextTemp) + 1
    {
      c := TempTerm(nextTemp);
      nextTemp := nextTemp + 1;
    }

    /** Draws a variable and pushes the clauses that define it. */
    method EmitGate(k: Kind, ls: seq<Term>) returns (c: Term)
      requires Valid() && GateOk(k, |ls|)
      modifies this
      ensures Valid() && (c, View()) == AddGate(k, ls, old(View()))
      ensures Emitted(old(clauses), clauses, old(View()), View()) && atomOf == old(atomOf)
    {
      hide MkOr, MkNot, Emitted;
      EmittedStep(clauses, View(), Gate(k, ls));
      c := MkTempVar();
      var cs;
      if k.And? {
        cs := AndClauses(c, ls);
      } else if k.Or? {
        cs := OrClauses(c, ls);
      } else if k.Implies? {
        cs := ImpliesClauses(c, ls);
      } else {
        cs := GateClauses(k, c, ls);
      }
      clauses := clauses + cs;
      steps := steps + [Gate(k, ls)];
    }

    /** Registers a fresh variable for an atom and its negation. */
    method AbstractAtom(a: Term) returns (c: Term)
      requires Valid()
      modifies this
      ensures Valid() && (c, View()) == AddAtom(a, old(View()))
      ensures Emitted(old(clauses), clauses, old(View()), View())
      ensures atomOf == old(atomOf)[c := a][MkNot(c) := MkNot(a)]
    {
      hide MkNot, Emitted;
      EmittedStep(clauses, View(), Abstract(a));
      assert StepClauses(Abstract(a), nextTemp) == [] && clauses + [] == clauses;
      c := MkTempVar();
      var notAtom, notVar := MkNot(a), MkNot(c);
      cnfMap := cnfMap[a := c][notAtom := notVar];
      atomOf := atomOf[c := a][notVar := notAtom];
      steps := steps + [Abstract(a)];
      EmittedNothing(clauses, AddStep(old(View()), Abstract(a)), View());
      EmittedTwice(old(clauses), clauses, clauses, old(View()), AddStep(old(View()), Abstract(a)), View());
    }

    method Memoise(e: Term, l: Term)
      requires Valid()
      modifies this`visited
      ensures Valid() && (l, View()) == Remember(e, (l, old(View())))
    {
      visited := visited[e := l];
    }

    /** A chain of binary xor gates over literals. */
    method XorChain(ls: seq<Term>) returns (r: Term)
      requires Valid() && ls != []
      modifies this
      ensures Valid() && (r, View()) == FoldXor(ls, old(View()))
      ensures Emitted(old(clauses), clauses, old(View()), View())
    {
      hide Emitted;
      r := ls[0];
      EmittedNothing(clauses, View(), View());
      assert ls[..1] == [ls[0]];
      var i := 1;
      while i < |ls|
        invariant 1 <= i <= |ls| && Valid()
        invariant (r, View()) == FoldXor(ls[..i], old(View()))
        invariant Emitted(old(clauses), clauses, old(View()), View())
      {
        ghost var st, cs := View(), clauses;
        assert ls[..i + 1][..i] == ls[..i];
        r := EmitGate(Xor, [r, ls[i]]);
        EmittedTwice(old(clauses), cs, clauses, old(View()), st, View());
        i := i + 1;
      }
      assert ls[..|ls|] == ls;
    }

    /** The literal of `e`, with the clauses that define it pushed. */
    method ToTseitinCNF(e: Term) returns (l: Term)
      requires Valid()
      modifies this
      ensures Valid() && (l, View()) == Encode(e, old(View()))
      ensures Emitted(old(clauses), clauses, old(View()), View())
      decreases Rank(e), e, 2
    {
      hide Emitted, IsAtom, IsLeafOfEncoding;
      EmittedNothing(clauses, View(), View());
      if IsAtom(e) {
        if e in cnfMap {
          return cnfMap[e];
        }
        l := AbstractAtom(e);
        return;
      }
      if IsLeafOfEncoding(e) {
        return e;
      }
      if e in visited {
        return visited[e];
      }
      if e.kind.Let? {
        l := ToTseitinCNF(ExpandLet(e));
        ghost var st, cs := View(), clauses;
        Memoise(e, l);
        EmittedNothing(clauses, st, View());
        EmittedTwice(old(clauses), cs, clauses, old(View()), st, View());
        return;
      }
      if !IsConnective(e.kind) || !ArityOk(e.kind, |e.children|) {
        return FalseTerm;
      }
      if (e.kind.Eq? || e.kind.Distinct?) && !AllBool(e.children) {
        return FalseTerm;
      }
      l := ConnectiveToCNF(e);
    }

    method ConnectiveToCNF(e: Term) returns (l: Term)
      requires Valid() && !IsAtom(e) && !IsLeafOfEncoding(e) && e !in visited && !e.kind.Let?
      requires IsConnective(e.kind) && ArityOk(e.kind, |e.children|)
      requires e.kind.Eq? || e.kind.Distinct? ==> AllBool(e.children)
      modifies this
      ensures Valid() && (l, View()) == Encode(e, old(View()))
      ensures Emitted(old(clauses), clauses, old(View()), View())
      decreases Rank(e), e, 1
    {
      hide Emitted, IsAtom, IsLeafOfEncoding;
      EmittedNothing(clauses, View(), View());
      ghost var st, cs;
      if e.kind.Distinct? && |e.children| > 2 {
        return FalseTerm;
      }
      if e.kind.Eq? && |e.children| > 2 {
        l := ChainToCNF(e);
        return;
      }
      hide Encode;
      EncodeNode(e, View());
      var ls := OperandsToCNF(e.children);
      if |ls| == 1 && !e.kind.Not? && !e.kind.Xor? {
        return ls[0];
      }
      st, cs := View(), clauses;
      if e.kind.Xor? {
        l := XorChain(ls);
      } else {
        l := EmitGate(e.kind, ls);
      }
      EmittedTwice(old(clauses), cs, clauses, old(View()), st, View());
      st, cs := View(), clauses;
      Memoise(e, l);
      EmittedNothing(clauses, st, View());
      EmittedTwice(old(clauses), cs, clauses, old(View()), st, View());
    }

    /** A chained equality. */
    method ChainToCNF(e: Term) returns (l: Term)
      requires Valid() && !IsAtom(e) && !IsLeafOfEncoding(e) && e !in visited
      requires e.kind.Eq? && |e.children| > 2 && AllBool(e.children)
      modifies this
      ensures Valid() && (l, View()) == Encode(e, old(View()))
      ensures Emitted(old(clauses), clauses, old(View()), View())
      decreases Rank(e), e, 0
    {
      hide Emitted, IsAtom, IsLeafOfEncoding, Encode, EncodeEqs;
      ghost var st, cs;
      EncodeChain(e, View());
      assert HasBinder(e.children[0]) ==> AnyHasBinder(e.children);
      assert AnyHasBinder(e.children[1..]) ==> AnyHasBinder(e.children);
      var first := ToTseitinCNF(e.children[0]);
      st, cs := View(), clauses;
      var eqs := EqualToFirst(first, e.children[1..]);
      EmittedTwice(old(clauses), cs, clauses, old(View()), st, View());
      st, cs := View(), clauses;
      l := EmitGate(And, eqs);
      EmittedTwice(old(clauses), cs, clauses, old(View()), st, View());
      st, cs := View(), clauses;
      Memoise(e, l);
      EmittedNothing(clauses, st, View());
      EmittedTwice(old(clauses), cs, clauses, old(View()), st, View());
    }

    method OperandsToCNF(es: seq<Term>) returns (ls: seq<Term>)
      requires Valid()
      modifies this
      ensures Valid() && (ls, View()) == EncodeAll(es, old(View()))
      ensures Emitted(old(clauses), clauses, old(View()), View())
      decreases RankAll(es), es, 0
    {
      hide Emitted, Encode;
      ls := [];
      EmittedNothing(clauses, View(), View());
      for i := 0 to |es|
        invariant Valid() && (ls, View()) == EncodeAll(es[..i], old(View()))
        invariant Emitted(old(clauses), clauses, old(View()), View())
      {
        ghost var st, cs := View(), clauses;
        assert es[..i + 1][..i] == es[..i];
        assert HasBinder(es[i]) ==> AnyHasBinder(es);
        var l := ToTseitinCNF(es[i]);
        ls := ls + [l];
        EmittedTwice(old(clauses), cs, clauses, old(View()), st, View());
      }
      assert es[..|es|] == es;
    }

    /** For each further operand of a chain, its encoding and its equality
        with the first. */
    method EqualToFirst(first: Term, es: seq<Term>) returns (qs: seq<Term>)
      requires Valid()
      modifies this
      ensures Valid() && (qs, View()) == EncodeEqs(first, es, old(View()))
      ensures Emitted(old(clauses), clauses, old(View()), View())
      decreases RankAll(es), es, 0
    {
      hide Emitted, Encode;
      qs := [];
      EmittedNothing(clauses, View(), View());
      for i := 0 to |es|
        invariant Valid() && (qs, View()) == EncodeEqs(first, es[..i], old(View()))
        invariant Emitted(old(clauses), clauses, old(View()), View())
      {
        ghost var st, cs := View(), clauses;
        assert es[..i + 1][..i] == es[..i];
        assert HasBinder(es[i]) ==> AnyHasBinder(es);
        var l := ToTseitinCNF(es[i]);
        EmittedTwice(old(clauses), cs, clauses, old(View()), st, View());
        st, cs := View(), clauses;
        var q := EmitGate(Eq, [first, l]);
        qs := qs + [q];
        EmittedTwice(old(clauses), cs, clauses, old(View()), st, View());
      }
      assert es[..|es|] == es;
    }
  
    method Push(c: Term)
      requires Valid()
      modifies this`clauses
      ensures Valid() && clauses == old(clauses) + [c]
    {
      clauses := clauses + [c];
    }

    /** Encodes a formula in asserted position. */
    method AssertTopCNF(e: Term)
      requires Valid()
      modifies this
      ensures Valid() && View() == AssertTop(e, old(View())).0
      ensures Balanced(old(clauses), clauses, old(View()), View(), AssertTop(e, old(View())).1)
      decreases Rank(e), e, 2
    {
      hide Emitted, Balanced, IsAtom, IsLiteral, MkOr, MkNot;
      if e.kind.Let? {
        AssertTopCNF(ExpandLet(e));
      } else if IsAtom(e) {
        AssertLiteral(e);
      } else if IsLiteral(e) {
        EmittedNothing(clauses, View(), View());
        if !IsTrue(e) {
          Push(e);
          BalancedStep(old(clauses), old(clauses), clauses, old(View()), View(), [e]);
        } else {
          assert clauses == clauses + [];
          BalancedStep(clauses, clauses, clauses, View(), View(), []);
        }
      } else if e.kind.And? {
        AssertEach(e.children);
      } else if e.kind.Not? && |e.children| == 1 {
        assert HasBinder(e.children[0]) ==> AnyHasBinder(e.children);
        var l := ToTseitinCNF(e.children[0]);
        ghost var cs := clauses;
        Push(MkNot(l));
        BalancedStep(old(clauses), cs, clauses, old(View()), View(), [MkNot(l)]);
      } else if AssertedFromOperands(e) {
        AssertRoot(e);
      } else {
        AssertLiteral(e);
      }
    }

    method AssertLiteral(e: Term)
      requires Valid()
      modifies this
      ensures Valid() && View() == Encode(e, old(View())).1
      ensures Balanced(old(clauses), clauses, old(View()), View(), [Encode(e, old(View())).0])
      decreases Rank(e), e, 1
    {
      hide Emitted, Balanced, Encode;
      var l := ToTseitinCNF(e);
      ghost var cs := clauses;
      Push(l);
      BalancedStep(old(clauses), cs, clauses, old(View()), View(), [l]);
    }

    method AssertEach(es: seq<Term>)
      requires Valid()
      modifies this
      ensures Valid() && View() == AssertAll(es, old(View())).0
      ensures Balanced(old(clauses), clauses, old(View()), View(), AssertAll(es, old(View())).1)
      decreases RankAll(es), es, 0
    {
      hide Emitted, Balanced, AssertTop;
      assert clauses == clauses + [];
      EmittedNothing(clauses, View(), View());
      BalancedStep(clauses, clauses, clauses, View(), View(), []);
      for i := 0 to |es|
        invariant Valid() && View() == AssertAll(es[..i], old(View())).0
        invariant Balanced(old(clauses), clauses, old(View()), View(), AssertAll(es[..i], old(View())).1)
      {
        ghost var st, cs := View(), clauses;
        assert es[..i + 1][..i] == es[..i];
        assert HasBinder(es[i]) ==> AnyHasBinder(es);
        AssertTopCNF(es[i]);
        BalancedTwice(old(clauses), cs, clauses, old(View()), st, View(),
                      AssertAll(es[..i], old(View())).1, AssertTop(es[i], st).1);
      }
      assert es[..|es|] == es;
    }

    /** Or, xor, implication, equality and distinct at the root. */
    method AssertRoot(e: Term)
      requires Valid() && AssertedFromOperands(e) && !IsAtom(e) && !IsLiteral(e)
      modifies this
      ensures Valid() && View() == AssertTop(e, old(View())).0
      ensures Balanced(old(clauses), clauses, old(View()), View(), AssertTop(e, old(View())).1)
      decreases Rank(e), e, 1
    {
      hide Emitted, Balanced, IsAtom, IsLiteral, MkOr, MkNot, EqClauses, EncodeAll, AssertTop, DifferClauses, Negs;
      RootOfOperands(e, View());
      var ls := OperandsToCNF(e.children);
      ghost var st, cs := View(), clauses;
      var own: seq<Term>;
      if e.kind.Or? {
        own := [MkOr(ls)];
      } else if e.kind.Xor? {
        if |ls| == 1 {
          own := [ls[0]];
        } else {
          var r := XorChain(ls[..|ls| - 1]);
          EmittedTwice(old(clauses), cs, clauses, old(View()), st, View());
          own := DifferClauses(r, ls[|ls| - 1]);
        }
      } else if e.kind.Implies? {
        if |ls| == 1 {
          own := [ls[0]];
        } else {
          own := ImplicationClause(ls);
        }
      } else if e.kind.Eq? {
        own := EqualityClauses(ls);
      } else {
        own := DifferClauses(ls[0], ls[1]);
      }
      cs := clauses;
      clauses := clauses + own;
      BalancedStep(old(clauses), cs, clauses, old(View()), View(), own);
    }
  }

  /** The roots asserted from their operands' literals, read off the encoder. */
  lemma {:induction false} RootOfOperands(e: Term, st: Enc)
    requires AssertedFromOperands(e) && !IsAtom(e) && !IsLiteral(e)
    ensures var (ls, st1) := EncodeAll(e.children, st);
            AssertTop(e, st) ==
            if e.kind.Or? then (st1, [MkOr(ls)])
            else if e.kind.Xor? then AssertXor(ls, st1)
            else if e.kind.Implies? then
              (st1, if |ls| == 1 then [ls[0]] else [MkOr(Negs(ls[..|ls| - 1]) + [ls[|ls| - 1]])])
            else if e.kind.Eq? then (st1, EqClauses(ls[0], ls[1..]))
            else (st1, DifferClauses(ls[0], ls[1]))
  {
    hide IsAtom, IsLiteral, MkOr, MkNot, EncodeAll, AssertXor, EqClauses, DifferClauses, Negs;
  }

  /** (=> a1 ... an b) asserted is one clause. */
  method ImplicationClause(ls: seq<Term>) returns (own: seq<Term>)
    requires |ls| > 1
    ensures own == [MkOr(Negs(ls[..|ls| - 1]) + [ls[|ls| - 1]])]
  {
    hide MkOr, MkNot;
    var n := |ls| - 1;
    var lits: seq<Term> := [];
    for i := 0 to n
      invariant lits == Negs(ls[..n])[..i]
    {
      lits := lits + [MkNot(ls[i])];
    }
    assert lits == Negs(ls[..n]);
    own := [MkOr(lits + [ls[n]])];
  }

  /** Two clauses for every literal after the first. */
  method EqualityClauses(ls: seq<Term>) returns (own: seq<Term>)
    requires |ls| > 0
    ensures own == EqClauses(ls[0], ls[1..])
  {
    hide MkOr, MkNot;
    own := [];
    for i := 1 to |ls|
      invariant own == EqClauses(ls[0], ls[1..][..i - 1])
    {
      assert ls[1..][..i][..i - 1] == ls[1..][..i - 1];
      own := own + [MkOr([MkNot(ls[0]), ls[i]])];
      own := own + [MkOr([ls[0], MkNot(ls[i])])];
    }
    assert ls[1..][..|ls| - 1] == ls[1..];
  }

  predicate AssertedFromOperands(e: Term) {
    || e.kind.Or?
    || (e.kind.Xor? && |e.children| >= 1)
    || (e.kind.Implies? && |e.children| >= 1)
    || (e.kind.Eq? && |e.children| >= 2 && AllBool(e.children))
    || (e.kind.Distinct? && |e.children| == 2 && AllBool(e.children))
  }

  /** The vector gained the clauses of the new steps and the asserted ones, in
      some interleaving. */
  ghost predicate Balanced(before: seq<Term>, after: seq<Term>, st: Enc, st': Enc, own: seq<Term>) {
    multiset(after) + multiset(ClausesOf(st.base, st.steps)) ==
    multiset(before) + multiset(ClausesOf(st'.base, st'.steps)) + multiset(own)
  }

  lemma BalancedStep(a: seq<Term>, b: seq<Term>, c: seq<Term>, s: Enc, t: Enc, own: seq<Term>)
    requires Emitted(a, b, s, t) && c == b + own
    ensures Balanced(a, c, s, t, own)
  {
    hide ClausesOf;
    assert b == a + b[|a|..];
  }

  lemma BalancedTwice(a: seq<Term>, b: seq<Term>, c: seq<Term>, s: Enc, t: Enc, u: Enc,
                      own: seq<Term>, more: seq<Term>)
    requires Balanced(a, b, s, t, own) && Balanced(b, c, t, u, more)
    ensures Balanced(a, c, s, u, own + more)
  {
    hide ClausesOf;
    var ma, mb, mc := multiset(a), multiset(b), multiset(c);
    var ms, mt, mu := multiset(ClausesOf(s.base, s.steps)), multiset(ClausesOf(t.base, t.steps)),
                      multiset(ClausesOf(u.base, u.steps));
    assert multiset(own + more) == multiset(own) + multiset(more);
    forall x
      ensures (mc + ms)[x] == (ma + mu + multiset(own + more))[x]
    {
      assert (mb + ms)[x] == (ma + mt + multiset(own))[x];
      assert (mc + mt)[x] == (mb + mu + multiset(more))[x];
    }
  }

  /** What a fresh converter leaves in its vector for an asserted formula says
      what TopClauses says. */
  lemma VectorMeansTopClauses(e: Term, base: nat, clauses: seq<Term>, m: Model)
    requires Supported(e) && Below(e, base)
    requires Balanced([], clauses, Start(base), AssertTop(e, Start(base)).0, AssertTop(e, Start(base)).1)
    ensures AllHold(clauses, m) <==> AllHold(TopClauses(e, base), m)
  {
    hide ClausesOf, AssertTop, Holds;
    var (st, cs) := AssertTop(e, Start(base));
    NoSteps(base);
    TopStart(e, base);
    var gates := ClausesOf(base, st.steps);
    assert multiset(gates + cs) == multiset(gates) + multiset(cs);
    assert TopClauses(e, base) == gates + cs && st.base == base;
    assert ClausesOf(Start(base).base, Start(base).steps) == [];
    var none: seq<Term> := [];
    assert multiset(clauses) + multiset(none) == multiset(none) + multiset(gates) + multiset(cs);
    forall x
      ensures multiset(clauses)[x] == multiset(TopClauses(e, base))[x]
    {
      assert (multiset(clauses) + multiset(none))[x] == (multiset(none) + multiset(gates) + multiset(cs))[x];
    }
    assert multiset(clauses) == multiset(TopClauses(e, base));
    AllHoldIn(clauses, m);
    AllHoldIn(TopClauses(e, base), m);
    assert forall t :: t in clauses <==> t in multiset(clauses);
    assert forall t :: t in TopClauses(e, base) <==> t in multiset(TopClauses(e, base));
  }

  lemma NoSteps(base: nat)
    ensures ClausesOf(base, []) == []
  {
  }
}
