// The encoding is linear in the DAG: at most five clauses for each child edge
// of the connectives it defines, however often they are shared.
module CnfSize {
  import opened Terms
  import opened LetExpansion
  import opened Builders
  import opened Tseitin
  import opened CnfEncoder
  import opened CnfTheorems

  /** The child edges of a set of nodes. */
  ghost function Edges(nodes: set<Term>): nat {
    if nodes == {} then 0
    else
      var t :| t in nodes;
      |t.children| + Edges(nodes - {t})
  }

  lemma {:induction false} EdgesAdd(nodes: set<Term>, t: Term)
    requires t !in nodes
    ensures Edges(nodes + {t}) == Edges(nodes) + |t.children|
    decreases |nodes|
  {
    var all := nodes + {t};
    var u :| u in all && Edges(all) == |u.children| + Edges(all - {u});
    if u == t {
      assert all - {u} == nodes;
    } else {
      EdgesAdd(nodes - {u}, t);
      assert all - {u} == (nodes - {u}) + {t};
      EdgesAdd(nodes - {u}, u);
      assert (nodes - {u}) + {u} == nodes;
    }
  }

  function ClauseCount(st: Enc): nat { |ClausesOf(st.base, st.steps)| }

  /** From `st` to `st'` the memo table gained only nodes no larger than
      `bound`, and the clauses stay within five per edge gained, plus `extra`. */
  ghost predicate Within(st: Enc, st': Enc, bound: nat, extra: nat) {
    && st'.base == st.base
    && st.visited.Keys <= st'.visited.Keys
    && (forall t | t in st'.visited && t !in st.visited :: Size(t) <= bound)
    && ClauseCount(st') + 5 * Edges(st.visited.Keys) <= ClauseCount(st) + 5 * Edges(st'.visited.Keys) + extra
  }

  lemma GateCount(k: Kind, ls: seq<Term>, st: Enc)
    ensures ClauseCount(AddGate(k, ls, st).1) <= ClauseCount(st) + (if k.And? || k.Or? then |ls| + 1 else 4)
  {
    hide ClausesOf, StepClauses;
    GateClauseCount(Gate(k, ls), Next(st));
    ClausesSnoc(st.base, st.steps, Gate(k, ls));
  }

  lemma ClausesSnoc(base: nat, steps: seq<Step>, s: Step)
    ensures ClausesOf(base, steps + [s]) == ClausesOf(base, steps) + StepClauses(s, base + |steps|)
  {
    hide StepClauses;
    var all := steps + [s];
    assert all != [] && all[..|all| - 1] == steps && all[|all| - 1] == s;
  }

  lemma GateClauseCount(s: Step, id: nat)
    requires s.Gate?
    ensures |StepClauses(s, id)| <= if s.k.And? || s.k.Or? then |s.ls| + 1 else 4
  {
    hide MkOr, MkNot;
  }

  lemma {:induction false} FoldXorCount(ls: seq<Term>, st: Enc)
    requires ls != []
    ensures var st' := FoldXor(ls, st).1;
            st'.base == st.base && st'.visited == st.visited && ClauseCount(st') <= ClauseCount(st) + 4 * |ls|
  {
    hide ClausesOf;
    if |ls| > 1 {
      var (r, st1) := FoldXor(ls[..|ls| - 1], st);
      FoldXorCount(ls[..|ls| - 1], st);
      GateCount(Xor, [r, ls[|ls| - 1]], st1);
    }
  }

  lemma AtomCount(a: Term, st: Enc)
    ensures ClauseCount(AddAtom(a, st).1) == ClauseCount(st)
  {
    hide MkNot;
    ClausesSnoc(st.base, st.steps, Abstract(a));
  }

  lemma {:induction false} EncodeCount(e: Term, st: Enc)
    requires !HasBinder(e)
    ensures Within(st, Encode(e, st).1, Size(e), 0)
    decreases e, 1
  {
    hide ClausesOf, IsAtom, IsLeafOfEncoding, Edges, Within;
    if IsAtom(e) {
      AtomCount(e, st);
      NothingGained(st, Encode(e, st).1, Size(e));
    } else if IsLeafOfEncoding(e) || e in st.visited || !IsConnective(e.kind) {
      NothingGained(st, Encode(e, st).1, Size(e));
    } else {
      assert !AnyHasBinder(e.children);
      EncodeConnectiveCount(e, st);
    }
  }

  lemma NothingGained(st: Enc, st': Enc, bound: nat)
    requires st'.base == st.base && st'.visited == st.visited && ClauseCount(st') == ClauseCount(st)
    ensures Within(st, st', bound, 0)
  {
  }

  /** A node is remembered after its operands: it is larger than all they
      added, and its own edges pay for `extra`. */
  lemma RememberCount(e: Term, r: (Term, Enc), st: Enc, extra: nat)
    requires e !in st.visited && Within(st, r.1, SizeAll(e.children), extra) && extra <= 5 * |e.children|
    ensures Within(st, Remember(e, r).1, Size(e), 0)
  {
    EdgesAdd(r.1.visited.Keys, e);
    assert Remember(e, r).1.visited.Keys == r.1.visited.Keys + {e};
  }

  lemma Spend(st: Enc, st1: Enc, st2: Enc, bound: nat, extra: nat, more: nat)
    requires Within(st, st1, bound, extra) && st2.base == st1.base && st2.visited == st1.visited
    requires ClauseCount(st2) <= ClauseCount(st1) + more
    ensures Within(st, st2, bound, extra + more)
  {
  }

  lemma {:induction false} EncodeConnectiveCount(e: Term, st: Enc)
    requires !HasBinder(e) && !AnyHasBinder(e.children)
    requires !IsAtom(e) && !IsLeafOfEncoding(e) && e !in st.visited && IsConnective(e.kind)
    ensures Within(st, Encode(e, st).1, Size(e), 0)
    decreases e, 0
  {
    hide ClausesOf, IsAtom, IsLeafOfEncoding, Edges, Within, ClauseCount;
    var es := e.children;
    if !ArityOk(e.kind, |es|) || ((e.kind.Eq? || e.kind.Distinct?) && !AllBool(es))
       || (e.kind.Distinct? && |es| > 2) {
      NothingGained(st, st, Size(e));
    } else if e.kind.Eq? && |es| > 2 {
      assert es == [es[0]] + es[1..];
      var (first, st1) := Encode(es[0], st);
      var (eqs, st2) := EncodeEqs(first, es[1..], st1);
      EncodeCount(es[0], st);
      EncodeEqsCount(first, es[1..], st1);
      Chain(st, st1, st2, Size(es[0]), SizeAll(es[1..]), SizeAll(es), 0, 4 * (|es| - 1));
      GateCount(And, eqs, st2);
      Spend(st, st2, AddGate(And, eqs, st2).1, SizeAll(es), 4 * (|es| - 1), |es|);
      RememberCount(e, AddGate(And, eqs, st2), st, 5 * |es| - 4);
    } else {
      var (ls, st1) := EncodeAll(es, st);
      EncodeAllCount(es, st);
      if e.kind.Xor? {
        FoldXorCount(ls, st1);
        Spend(st, st1, FoldXor(ls, st1).1, SizeAll(es), 0, 4 * |es|);
        RememberCount(e, FoldXor(ls, st1), st, 4 * |es|);
      } else if |ls| == 1 && !e.kind.Not? {
        Widen(st, st1, SizeAll(es), Size(e));
      } else {
        GateCount(e.kind, ls, st1);
        Spend(st, st1, AddGate(e.kind, ls, st1).1, SizeAll(es), 0, 5 * |es|);
        RememberCount(e, AddGate(e.kind, ls, st1), st, 5 * |es|);
      }
    }
  }

  lemma Widen(st: Enc, st': Enc, bound: nat, larger: nat)
    requires Within(st, st', bound, 0) && bound <= larger
    ensures Within(st, st', larger, 0)
  {
  }

  lemma Chain(st: Enc, st1: Enc, st2: Enc, a: nat, b: nat, bound: nat, extra: nat, more: nat)
    requires Within(st, st1, a, extra) && Within(st1, st2, b, more) && a <= bound && b <= bound
    ensures Within(st, st2, bound, extra + more)
  {
  }

  lemma {:induction false} SizeSnoc(es: seq<Term>)
    requires es != []
    ensures SizeAll(es) == SizeAll(es[..|es| - 1]) + Size(es[|es| - 1])
  {
    if |es| > 1 {
      SizeSnoc(es[1..]);
      assert es[1..][..|es| - 2] == es[..|es| - 1][1..];
    }
  }

  lemma {:induction false} EncodeAllCount(es: seq<Term>, st: Enc)
    requires !AnyHasBinder(es)
    ensures Within(st, EncodeAll(es, st).1, SizeAll(es), 0)
    decreases es, 0
  {
    hide ClausesOf, Edges, Within;
    if es == [] {
      NothingGained(st, st, 0);
    } else {
      var n := |es| - 1;
      var st1 := EncodeAll(es[..n], st).1;
      EncodeAllCount(es[..n], st);
      EncodeCount(es[n], st1);
      SizeSnoc(es);
      Chain(st, st1, EncodeAll(es, st).1, SizeAll(es[..n]), Size(es[n]), SizeAll(es), 0, 0);
    }
  }

  lemma {:induction false} EncodeEqsCount(first: Term, es: seq<Term>, st: Enc)
    requires !AnyHasBinder(es)
    ensures Within(st, EncodeEqs(first, es, st).1, SizeAll(es), 4 * |es|)
    decreases es, 0
  {
    hide ClausesOf, Edges, Within, ClauseCount, HasBinder, Encode, Size;
    if es == [] {
      NothingGained(st, st, 0);
    } else {
      var n := |es| - 1;
      var st1 := EncodeEqs(first, es[..n], st).1;
      var (l, st2) := Encode(es[n], st1);
      EncodeEqsCount(first, es[..n], st);
      EncodeCount(es[n], st1);
      SizeSnoc(es);
      Chain(st, st1, st2, SizeAll(es[..n]), Size(es[n]), SizeAll(es), 4 * n, 0);
      GateCount(Eq, [first, l], st2);
      Spend(st, st2, AddGate(Eq, [first, l], st2).1, SizeAll(es), 4 * n, 4);
    }
  }

  /** Sharing pays: the clauses number at most five for each child edge of the
      distinct connectives in the memo table. */
  lemma TseitinIsLinear(e: Term, base: nat)
    requires !HasBinder(e)
    ensures var st := Encode(e, Start(base)).1;
            |ClausesOf(base, st.steps)| <= 5 * Edges(st.visited.Keys)
  {
    EncodeCount(e, Start(base));
    assert Start(base).visited.Keys == {};
  }
}
