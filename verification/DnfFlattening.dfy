// How much of the nesting of conjunctions flattenDNF removes.
module DnfFlattening {
  import opened Terms
  import opened Builders
  import opened LetExpansion
  import opened DnfElimination
  import opened DnfDistribution

  /** How deep conjunctions are nested in a term. */
  function Nesting(t: Term): nat
    decreases t, 1
  {
    if t.kind.And? then 1 + Deepest(t.children) else 0
  }

  function Deepest(ts: seq<Term>): nat
    decreases ts, 0
  {
    if ts == [] then 0
    else
      var n := |ts| - 1;
      var d, e := Deepest(ts[..n]), Nesting(ts[n]);
      if d < e then e else d
  }

  lemma {:induction false} DeepestBounds(ts: seq<Term>, d: nat)
    requires forall t | t in ts :: Nesting(t) <= d
    ensures Deepest(ts) <= d
  {
    hide Nesting;
    if ts != [] {
      DeepestBounds(ts[..|ts| - 1], d);
      assert ts[|ts| - 1] in ts;
    }
  }

  /** Flattening halves the nesting of a conjunction. */
  lemma {:induction false} ConjunctionHalves(t: Term)
    requires IsOrFree(t)
    ensures Nesting(Flatten(t)) <= (Nesting(t) + 1) / 2
    decreases t, 1
  {
    hide MkAnd, MkOr, IsDnfLeaf;
    if t.kind.And? {
      var d := Deepest(t.children);
      OperandsHalve(t.children, d);
      var rs := Dedup(FlattenOperands(t.children, And));
      JunctionShape(rs);
      var r := MkAnd(rs);
      if r.kind.And? && r !in rs {
        DeepestBounds(r.children, d / 2);
      }
    }
  }

  lemma {:induction false} OperandsHalve(ts: seq<Term>, d: nat)
    requires AllOrFree(ts) && Deepest(ts) <= d
    ensures forall c | c in FlattenOperands(ts, And) :: Nesting(c) <= d / 2
    decreases ts, 0
  {
    hide Flatten, IsDnfLeaf;
    if ts != [] {
      var n := |ts| - 1;
      OperandsHalve(ts[..n], d);
      assert IsOrFree(ts[n]) && Nesting(ts[n]) <= d;
      if ts[n].kind.And? {
        AllHalve(ts[n].children, d - 1);
      } else {
        LeafStays(ts[n]);
      }
    }
  }

  lemma LeafStays(t: Term)
    requires !t.kind.And? && !t.kind.Or?
    ensures Flatten(t) == t
  {
  }

  lemma {:induction false} AllHalve(ts: seq<Term>, d: nat)
    requires AllOrFree(ts) && Deepest(ts) <= d
    ensures forall c | c in FlattenAll(ts) :: Nesting(c) <= (d + 1) / 2
    decreases ts, 0
  {
    hide Flatten, IsOrFree;
    if ts != [] {
      var n := |ts| - 1;
      AllHalve(ts[..n], d);
      ConjunctionHalves(ts[n]);
    }
  }

  /** The nesting of the deepest disjunct. */
  function Levels(t: Term): nat { if t.kind.Or? then Deepest(t.children) else Nesting(t) }

  /** In a disjunctive normal form too: conjunctions nested once are gone. */
  lemma FlattenHalves(t: Term)
    requires IsFlatDnf(t)
    ensures Levels(Flatten(t)) <= (Levels(t) + 1) / 2
  {
    hide MkAnd, MkOr, IsOrFree, Flatten, Dedup, FlattenOperands, Deepest, Nesting;
    if IsOrFree(t) {
      OrFreeIsNoOr(t);
      ConjunctionHalves(t);
      FlattenOrFree(t);
      OrFreeIsNoOr(Flatten(t));
    } else {
      var d := Deepest(t.children);
      DisjunctsHalve(t.children, d);
      FlattenOperandsOrFree(t.children, Or);
      DisjunctionFlattened(t);
      JoinedLevels(Dedup(FlattenOperands(t.children, Or)), (d + 1) / 2);
    }
  }

  lemma JoinedLevels(rs: seq<Term>, d: nat)
    requires forall c | c in rs :: IsOrFree(c) && Nesting(c) <= d
    ensures Levels(MkOr(rs)) <= d && (|rs| == 1 ==> Levels(rs[0]) <= d)
  {
    hide MkOr, IsOrFree, Nesting;
    JunctionShape(rs);
    var r := MkOr(rs);
    if |rs| == 1 {
      OrFreeIsNoOr(rs[0]);
    }
    if r in rs {
      OrFreeIsNoOr(r);
    } else if r.kind.Or? {
      DeepestBounds(r.children, d);
    } else {
      ConstantLevels();
    }
  }

  lemma ConstantLevels()
    ensures Levels(TrueTerm) == 0 && Levels(FalseTerm) == 0
  {
  }

  lemma OrFreeIsNoOr(t: Term)
    requires IsOrFree(t)
    ensures !t.kind.Or?
  {
  }

  lemma DisjunctionFlattened(t: Term)
    requires t.kind.Or?
    ensures var rs := Dedup(FlattenOperands(t.children, Or)); Flatten(t) == if |rs| == 1 then rs[0] else MkOr(rs)
  {
  }

  lemma {:induction false} DisjunctsHalve(ts: seq<Term>, d: nat)
    requires AllOrFree(ts) && Deepest(ts) <= d
    ensures forall c | c in FlattenOperands(ts, Or) :: Nesting(c) <= (d + 1) / 2
    decreases ts, 0
  {
    hide Flatten, IsOrFree;
    if ts != [] {
      var n := |ts| - 1;
      DisjunctsHalve(ts[..n], d);
      OrFreeIsNoOr(ts[n]);
      ConjunctionHalves(ts[n]);
    }
  }

  // ------------------------------------------------------------------
  // What stays
  // ------------------------------------------------------------------

  const Dv := Node(Bool, Var, "d", [])

  /** Two different conjunctions or leaves that the law leaves alone. */
  lemma PairStays(x: Term, y: Term)
    requires IsCube(x) && IsCube(y) && x != y && DistInput(x) && DistInput(y) && Dist(x) == x && Dist(y) == y
    ensures var t := MkOper(Bool, And, [x, y]);
            IsCube(t) && DistInput(t) && Dist(t) == t && MkAnd([x, y]) == t
  {
    hide MkAnd, MkOr, IsCube, IsArithTerm, IsStrTerm;
    TwoCubes(x, y);
    PairIsCube(x, y);
    CubeIsNoOr(x);
    CubeIsNoOr(y);
    assert AllDistInput([x, y]);
    assert DistAll([x, y]) == [x, y];
    assert [x, y][..1] == [x] && NonOrs([x]) == NonOrs([]) + [x] && Ors([x]) == Ors([]);
    assert Ors([x, y]) == [] && NonOrs([x, y]) == [x, y];
  }

  lemma CubeIsNoOr(x: Term)
    requires IsCube(x)
    ensures !x.kind.Or?
  {
  }

  lemma VariableStays(x: Term)
    requires x.kind.Var? && x.sort == Bool
    ensures IsCube(x) && DistInput(x) && Dist(x) == x
  {
  }

  const Abc := MkOper(Bool, And, [Ab, Cv])

  /** Conjunctions nested twice are not: `(and (and (and a b) c) d)` becomes
      `(and (and a b) c d)`. */
  lemma NestedStays() returns (t: Term)
    ensures t == MkOper(Bool, And, [Abc, Dv]) && DistInput(t)
    ensures Flatten(Dist(t)) == MkOper(Bool, And, [Ab, Cv, Dv])
  {
    hide MkAnd, MkOr, IsCube, DistInput, Dist, Dedup, Flatten;
    VariableStays(A);
    VariableStays(Bv);
    VariableStays(Cv);
    VariableStays(Dv);
    PairStays(A, Bv);
    PairStays(Ab, Cv);
    PairStays(Abc, Dv);
    t := MkOper(Bool, And, [Abc, Dv]);
    AbcOperands();
    ThreeDifferent();
    ConjunctionFlattened(t);
  }

  lemma AbcOperands()
    ensures FlattenOperands([Abc, Dv], And) == [Ab, Cv, Dv]
  {
    hide Flatten, FlattenAll, FlattenOperands;
    AbFlattened();
    LeafStays(Cv);
    LeafStays(Dv);
    PairOperands(Ab, Cv);
    PairOperands(Abc, Dv);
  }

  lemma PairOperands(x: Term, y: Term)
    ensures FlattenAll([x, y]) == [Flatten(x), Flatten(y)]
    ensures x.kind.And? && !y.kind.And? ==> FlattenOperands([x, y], And) == FlattenAll(x.children) + [Flatten(y)]
  {
    hide Flatten;
    assert [x, y][..1] == [x];
    assert FlattenAll([x]) == FlattenAll([]) + [Flatten(x)];
    if x.kind.And? && !y.kind.And? {
      assert FlattenOperands([x], And) == FlattenOperands([], And) + FlattenAll(x.children);
    }
  }

  lemma ConjunctionFlattened(t: Term)
    requires t.kind.And?
    ensures var rs := Dedup(FlattenOperands(t.children, And)); Flatten(t) == if |rs| == 1 then rs[0] else MkAnd(rs)
  {
  }

  lemma AbFlattened()
    ensures Flatten(Ab) == Ab
  {
    hide IsCube, MkAnd, MkOr, Dedup, Flatten;
    LeafStays(A);
    LeafStays(Bv);
    assert [A, Bv][..1] == [A] && FlattenOperands([A], And) == FlattenOperands([], And) + [A];
    assert FlattenOperands([A, Bv], And) == [A, Bv];
    DedupUnrepeated([A, Bv]);
    AbIsCube();
    TwoCubes(A, Bv);
    ConjunctionFlattened(Ab);
  }

  lemma ThreeDifferent()
    ensures Dedup([Ab, Cv, Dv]) == [Ab, Cv, Dv] && MkAnd([Ab, Cv, Dv]) == MkOper(Bool, And, [Ab, Cv, Dv])
  {
    hide IsCube, MkAnd, MkOr, Dedup;
    AbIsCube();
    VariableStays(Cv);
    VariableStays(Dv);
    PlainJunctions([Ab, Cv, Dv]);
    DedupUnrepeated([Ab, Cv, Dv]);
  }
}
