// applyDNFDistributiveLaw and flattenDNF: from and/or/literal formulas to a
// disjunction of conjunctions.
module DnfDistribution {
  import opened Terms
  import opened Builders
  import opened LetExpansion
  import opened DnfElimination
  import opened Nnf

  function Disjuncts(t: Term): seq<Term> { if t.kind.Or? then t.children else [t] }

  function Conjuncts(t: Term): seq<Term> { if t.kind.And? then t.children else [t] }

  function Flattened(ds: seq<Term>): seq<Term> {
    if ds == [] then [] else Flattened(ds[..|ds| - 1]) + Disjuncts(ds[|ds| - 1])
  }

  function Ors(ds: seq<Term>): (r: seq<Term>) {
    if ds == [] then []
    else
      var n := |ds| - 1;
      Ors(ds[..n]) + if ds[n].kind.Or? then [ds[n]] else []
  }

  function NonOrs(ds: seq<Term>): seq<Term> {
    if ds == [] then []
    else
      var n := |ds| - 1;
      NonOrs(ds[..n]) + if ds[n].kind.Or? then [] else [ds[n]]
  }

  /** One term of the product: the conjuncts of both, joined. */
  function Join(x: Term, y: Term): Term { MkAnd(Conjuncts(x) + Conjuncts(y)) }

  function Row(x: Term, ys: seq<Term>): seq<Term> {
    if ys == [] then [] else Row(x, ys[..|ys| - 1]) + [Join(x, ys[|ys| - 1])]
  }

  function Cross(xs: seq<Term>, ys: seq<Term>): seq<Term> {
    if xs == [] then [] else Cross(xs[..|xs| - 1], ys) + Row(xs[|xs| - 1], ys)
  }

  /** The running disjunction. Its children are taken as disjuncts at the next
      step whatever mkOr made of it. */
  function FoldCross(ors: seq<Term>): Term
    requires |ors| >= 1
  {
    var n := |ors| - 1;
    if n == 0 then ors[0] else MkOr(Cross(FoldCross(ors[..n]).children, ors[n].children))
  }

  /** The other operands, merged into every term. */
  function Merge(xs: seq<Term>, ands: seq<Term>): seq<Term> {
    if xs == [] then [] else Merge(xs[..|xs| - 1], ands) + [MkAnd(Conjuncts(xs[|xs| - 1]) + ands)]
  }

  function DistAnd(ds: seq<Term>): Term {
    var ors, ands := Ors(ds), NonOrs(ds);
    if ors == [] then MkAnd(ands)
    else if ands == [] then FoldCross(ors)
    else MkOr(Merge(FoldCross(ors).children, ands))
  }

  /** The distributive law; node kinds the normal form does not have are
      returned as they are. */
  function Dist(t: Term): Term
    decreases Rank(t), t, 1
  {
    if IsDnfLeaf(t) then t
    else if t.kind.Let? then Dist(ExpandLet(t))
    else if t.kind.Or? then MkOr(Flattened(DistAll(t.children)))
    else if t.kind.And? then DistAnd(DistAll(t.children))
    else t
  }

  function DistAll(ts: seq<Term>): (rs: seq<Term>)
    ensures |rs| == |ts|
    ensures forall i | 0 <= i < |ts| :: rs[i] == Dist(ts[i])
    decreases RankAll(ts), ts, 0
  {
    if ts == [] then []
    else
      var n := |ts| - 1;
      assert AnyHasBinder(ts[..n]) ==> AnyHasBinder(ts);
      DistAll(ts[..n]) + [Dist(ts[n])]
  }

  /** Negation normal form over and, or, negations and leaves, lets allowed. */
  predicate DistInput(t: Term)
    decreases Rank(t), t, 1
  {
    if IsDnfLeaf(t) || t.kind.Not? then true
    else if t.kind.Let? then WellFormed(t) && DistInput(ExpandLet(t))
    else (t.kind.And? || t.kind.Or?) && t.sort == Bool && AllDistInput(t.children)
  }

  predicate AllDistInput(ts: seq<Term>)
    decreases RankAll(ts), ts, 0
  {
    forall i | 0 <= i < |ts| :: DistInput(ts[i])
  }

  // ------------------------------------------------------------------
  // Shape
  // ------------------------------------------------------------------

  predicate Unrepeated(ts: seq<Term>) { forall i, j | 0 <= i < j < |ts| :: ts[i] != ts[j] }

  /** A conjunction as mkAnd builds it, with no disjunction in it, or a leaf or
      a negation, no constant. */
  predicate IsCube(t: Term) {
    if t.kind.And? then
      && t == MkOper(Bool, And, t.children)
      && |t.children| >= 2 && Unrepeated(t.children)
      && forall i | 0 <= i < |t.children| :: IsCube(t.children[i])
    else (IsDnfLeaf(t) || t.kind.Not?) && !t.kind.Or? && !IsTrue(t) && !IsFalse(t)
  }

  predicate AllCubes(ts: seq<Term>) { forall i | 0 <= i < |ts| :: IsCube(ts[i]) }

  /** A junction of at least two different cubes. */
  predicate IsPack(t: Term) {
    (t.kind.And? || t.kind.Or?) && t.sort == Bool && |t.children| >= 2 && Unrepeated(t.children) && AllCubes(t.children)
  }

  predicate IsDisjunction(t: Term) { t.kind.Or? && IsPack(t) }

  predicate IsConstant(t: Term) { IsTrue(t) || IsFalse(t) }

  /** Constants, cubes and disjunctions of cubes: no `or` below an `and`. */
  predicate IsDnf(t: Term) { IsConstant(t) || IsCube(t) || IsDisjunction(t) }

  predicate AllTerms(ts: seq<Term>) { forall i | 0 <= i < |ts| :: IsConstant(ts[i]) || IsCube(ts[i]) }

  predicate AllDnf(ts: seq<Term>) { forall i | 0 <= i < |ts| :: IsDnf(ts[i]) }

  lemma MkAndShape(ts: seq<Term>)
    requires AllTerms(ts)
    ensures IsConstant(MkAnd(ts)) || IsCube(MkAnd(ts))
  {
    if |ts| > 1 && !(exists i :: 0 <= i < |ts| && IsFalse(ts[i])) {
      var rest := Dedup(Without(ts, ConstTrue));
      forall i | 0 <= i < |rest|
        ensures IsCube(rest[i])
      {
        assert rest[i] in Without(ts, ConstTrue);
        assert rest[i] in ts;
      }
    }
  }

  lemma MkOrShape(ts: seq<Term>)
    requires AllTerms(ts)
    ensures IsDnf(MkOr(ts))
  {
    hide IsCube;
    if |ts| > 1 && !(exists i :: 0 <= i < |ts| && IsTrue(ts[i])) {
      var rest := Dedup(Without(ts, ConstFalse));
      forall i | 0 <= i < |rest|
        ensures IsCube(rest[i])
      {
        assert rest[i] in Without(ts, ConstFalse);
        assert rest[i] in ts;
      }
    }
  }

  lemma ConjunctsAreCubes(x: Term)
    requires IsCube(x)
    ensures AllCubes(Conjuncts(x)) && Conjuncts(x) != [] && Unrepeated(Conjuncts(x))
  {
  }

  /** Joining cubes gives a cube, which is a single literal only if every
      operand is that literal. */
  lemma MkAndOfCubes(ts: seq<Term>)
    requires AllCubes(ts) && ts != []
    ensures IsCube(MkAnd(ts))
    ensures !MkAnd(ts).kind.And? ==> forall t | t in ts :: t == MkAnd(ts)
  {
    if |ts| > 1 {
      assert forall t | t in ts :: IsCube(t);
      assert forall t | t in ts :: !IsTrue(t) && !IsFalse(t);
      var kept := Without(ts, ConstTrue);
      var rest := Dedup(kept);
      assert forall t :: t in rest <==> t in ts;
      assert ts[0] in rest;
      forall i | 0 <= i < |rest|
        ensures IsCube(rest[i])
      {
        assert rest[i] in rest;
      }
    }
  }

  /** A disjunction of cubes is one, or the one cube all operands are. */
  lemma {:induction false} MkOrOfCubes(ts: seq<Term>)
    requires AllCubes(ts) && ts != []
    ensures var r := MkOr(ts);
            IsDisjunction(r) || (IsCube(r) && forall t | t in ts :: t == r)
  {
    hide Dedup, Without;
    if |ts| > 1 {
      assert forall t | t in ts :: IsCube(t);
      assert forall t | t in ts :: !IsTrue(t) && !IsFalse(t);
      hide IsCube;
      var kept := Without(ts, ConstFalse);
      var rest := Dedup(kept);
      assert forall t :: t in rest <==> t in ts;
      assert ts[0] in rest;
      forall i | 0 <= i < |rest|
        ensures IsCube(rest[i])
      {
        assert rest[i] in rest;
      }
      if |rest| == 1 {
        assert forall t | t in rest :: t == rest[0];
      }
    }
  }

  lemma JoinIsCube(x: Term, y: Term)
    requires IsCube(x) && IsCube(y)
    ensures IsCube(Join(x, y))
    ensures !Join(x, y).kind.And? ==> x == Join(x, y)
  {
    hide MkAnd;
    var ts := Conjuncts(x) + Conjuncts(y);
    ConjunctsAreCubes(x);
    ConjunctsAreCubes(y);
    MkAndOfCubes(ts);
    assert x.kind.And? ==> Conjuncts(x)[0] != Conjuncts(x)[1];
    if !Join(x, y).kind.And? {
      forall i | 0 <= i < |Conjuncts(x)|
        ensures Conjuncts(x)[i] == Join(x, y)
      {
        assert ts[i] in ts;
      }
      assert Conjuncts(x)[0] == Join(x, y);
    }
  }

  lemma {:induction false} RowAt(x: Term, ys: seq<Term>, k: nat)
    requires k < |ys|
    ensures |Row(x, ys)| == |ys| && Row(x, ys)[k] == Join(x, ys[k])
  {
    hide Join;
    if |ys| > 1 {
      RowAt(x, ys[..|ys| - 1], if k < |ys| - 1 then k else 0);
    }
  }

  lemma {:induction false} RowLength(x: Term, ys: seq<Term>)
    ensures |Row(x, ys)| == |ys|
  {
    if ys != [] { RowAt(x, ys, 0); }
  }

  /** Every pair has its term in the product. */
  lemma {:induction false} CrossHas(xs: seq<Term>, ys: seq<Term>, j: nat, k: nat)
    requires j < |xs| && k < |ys|
    ensures Join(xs[j], ys[k]) in Cross(xs, ys)
  {
    hide Join;
    var n := |xs| - 1;
    if j == n {
      RowAt(xs[n], ys, k);
    } else {
      CrossHas(xs[..n], ys, j, k);
    }
  }

  lemma {:induction false} CrossIsCubes(xs: seq<Term>, ys: seq<Term>)
    requires AllCubes(xs) && AllCubes(ys)
    ensures AllCubes(Cross(xs, ys))
  {
    hide IsCube, Join;
    if xs != [] {
      var n := |xs| - 1;
      CrossIsCubes(xs[..n], ys);
      RowLength(xs[n], ys);
      forall k | 0 <= k < |ys|
        ensures IsCube(Row(xs[n], ys)[k])
      {
        RowAt(xs[n], ys, k);
        JoinIsCube(xs[n], ys[k]);
      }
    }
  }

  /** The running disjunction stays a junction of cubes; mkOr can only collapse
      it to a conjunction, never to a literal or a constant. */
  lemma CrossIsPack(d: Term, e: Term)
    requires IsPack(d) && IsDisjunction(e)
    ensures IsPack(MkOr(Cross(d.children, e.children)))
  {
    hide IsCube, Join, MkOr;
    var xs, ys := d.children, e.children;
    var ts := Cross(xs, ys);
    CrossIsCubes(xs, ys);
    CrossHas(xs, ys, 0, 0);
    CrossHas(xs, ys, 1, 0);
    MkOrOfCubes(ts);
    var r := MkOr(ts);
    if !IsDisjunction(r) {
      JoinIsCube(xs[0], ys[0]);
      JoinIsCube(xs[1], ys[0]);
      assert r.kind.And?;
      CubeIsPack(r);
    }
  }

  lemma CubeIsPack(t: Term)
    requires IsCube(t) && t.kind.And?
    ensures IsPack(t)
  {
  }

  predicate AllDisjunctions(ts: seq<Term>) { forall i | 0 <= i < |ts| :: IsDisjunction(ts[i]) }

  lemma {:induction false} FoldIsPack(ors: seq<Term>)
    requires |ors| >= 1 && AllDisjunctions(ors)
    ensures IsPack(FoldCross(ors))
  {
    hide IsPack, Cross, MkOr;
    var n := |ors| - 1;
    assert IsDisjunction(ors[n]);
    if n > 0 {
      FoldIsPack(ors[..n]);
      CrossIsPack(FoldCross(ors[..n]), ors[n]);
    }
  }

  lemma {:induction false} SplitShape(ds: seq<Term>)
    requires AllDnf(ds)
    ensures AllDisjunctions(Ors(ds)) && AllTerms(NonOrs(ds))
  {
    hide IsPack;
    if ds != [] {
      var n := |ds| - 1;
      SplitShape(ds[..n]);
      assert IsDnf(ds[n]);
    }
  }

  lemma {:induction false} FlattenedShape(ds: seq<Term>)
    requires AllDnf(ds)
    ensures AllTerms(Flattened(ds))
  {
    hide IsCube;
    if ds != [] {
      var n := |ds| - 1;
      FlattenedShape(ds[..n]);
      DisjunctsShape(ds[n]);
    }
  }

  lemma DisjunctsShape(d: Term)
    requires IsDnf(d)
    ensures AllTerms(Disjuncts(d))
  {
  }

  lemma {:induction false} MergeShape(xs: seq<Term>, ands: seq<Term>)
    requires AllCubes(xs) && AllTerms(ands)
    ensures AllTerms(Merge(xs, ands))
  {
    hide IsCube, MkAnd;
    if xs != [] {
      var n := |xs| - 1;
      MergeShape(xs[..n], ands);
      ConjunctsAreCubes(xs[n]);
      MkAndShape(Conjuncts(xs[n]) + ands);
    }
  }

  lemma DistAndShape(ds: seq<Term>)
    requires AllDnf(ds)
    ensures IsDnf(DistAnd(ds))
  {
    hide IsCube, MkAnd, MkOr, FoldCross, Ors, NonOrs, Merge, AllTerms, AllDisjunctions;
    SplitShape(ds);
    var ors, ands := Ors(ds), NonOrs(ds);
    if ors == [] {
      MkAndShape(ands);
    } else {
      FoldIsPack(ors);
      FoldIsDnf(ors);
      MergeShape(FoldCross(ors).children, ands);
      MkOrShape(Merge(FoldCross(ors).children, ands));
    }
  }

  /** The last product may be a collapsed conjunction, which is a cube. */
  lemma FoldIsDnf(ors: seq<Term>)
    requires |ors| >= 1 && AllDisjunctions(ors)
    ensures IsDnf(FoldCross(ors))
  {
    hide IsCube, Join, MkOr, Cross;
    var n := |ors| - 1;
    assert IsDisjunction(ors[n]);
    if n > 0 {
      var d := FoldCross(ors[..n]);
      FoldIsPack(ors[..n]);
      CrossIsCubes(d.children, ors[n].children);
      CrossHas(d.children, ors[n].children, 0, 0);
      MkOrOfCubes(Cross(d.children, ors[n].children));
    }
  }

  /** Distribution leaves no `or` below an `and`. */
  lemma {:induction false} DistShape(t: Term)
    requires DistInput(t)
    ensures IsDnf(Dist(t))
    decreases Rank(t), t, 1
  {
    hide IsCube, IsPack, MkOr, DistAnd, Flattened, IsArithTerm, IsStrTerm, AllTerms;
    if IsDnfLeaf(t) || t.kind.Not? {
      LeafShape(t);
    } else if t.kind.Let? {
      DistShape(ExpandLet(t));
    } else {
      DistAllShape(t.children);
      if t.kind.Or? {
        FlattenedShape(DistAll(t.children));
        MkOrShape(Flattened(DistAll(t.children)));
      } else {
        DistAndShape(DistAll(t.children));
      }
    }
  }

  lemma {:induction false} DistAllShape(ts: seq<Term>)
    requires AllDistInput(ts)
    ensures AllDnf(DistAll(ts))
    decreases RankAll(ts), ts, 0
  {
    hide IsDnf, Dist, DistInput;
    forall i | 0 <= i < |ts|
      ensures IsDnf(DistAll(ts)[i])
    {
      assert HasBinder(ts[i]) ==> AnyHasBinder(ts);
      DistShape(ts[i]);
    }
  }

  lemma LeafShape(t: Term)
    requires IsDnfLeaf(t) || t.kind.Not?
    ensures IsDnf(t) && !t.kind.And? && !t.kind.Or? && !t.kind.Let?
  {
  }

  // ------------------------------------------------------------------
  // Meaning
  // ------------------------------------------------------------------

  lemma ConjunctsHold(x: Term, m: Model)
    requires x.kind.And? ==> x.sort == Bool
    ensures AllHold(Conjuncts(x), m) <==> Holds(x, m)
  {
    hide Holds;
    if x.kind.And? {
      AndHolds(x, m);
    } else {
      assert [x][0] == x;
    }
  }

  lemma JoinHolds(x: Term, ys: seq<Term>, m: Model)
    requires x.kind.And? ==> x.sort == Bool
    ensures Holds(MkAnd(Conjuncts(x) + ys), m) <==> Holds(x, m) && AllHold(ys, m)
  {
    hide Holds, MkAnd;
    var cs := Conjuncts(x);
    ConjunctsHold(x, m);
    MkAndHolds(cs + ys, m);
    if AllHold(cs + ys, m) {
      assert forall i | 0 <= i < |cs| :: (cs + ys)[i] == cs[i];
      assert forall i | 0 <= i < |ys| :: (cs + ys)[|cs| + i] == ys[i];
    }
  }

  lemma AnyHoldsConcat(a: seq<Term>, b: seq<Term>, m: Model)
    ensures AnyHolds(a + b, m) <==> AnyHolds(a, m) || AnyHolds(b, m)
  {
    hide Holds;
    if AnyHolds(a, m) {
      var i :| 0 <= i < |a| && Holds(a[i], m);
      assert (a + b)[i] == a[i];
    }
    if AnyHolds(b, m) {
      var i :| 0 <= i < |b| && Holds(b[i], m);
      assert (a + b)[|a| + i] == b[i];
    }
  }

  lemma AnyHoldsSplit(ts: seq<Term>, m: Model)
    requires ts != []
    ensures AnyHolds(ts, m) <==> AnyHolds(ts[..|ts| - 1], m) || Holds(ts[|ts| - 1], m)
  {
    hide Holds;
    var n := |ts| - 1;
    assert ts == ts[..n] + [ts[n]];
    AnyHoldsConcat(ts[..n], [ts[n]], m);
    assert [ts[n]][0] == ts[n];
    assert AnyHolds([ts[n]], m) <==> Holds(ts[n], m);
  }

  lemma AllHoldSplit(ts: seq<Term>, m: Model)
    requires ts != []
    ensures AllHold(ts, m) <==> AllHold(ts[..|ts| - 1], m) && Holds(ts[|ts| - 1], m)
  {
    hide Holds;
    var n := |ts| - 1;
    if AllHold(ts[..n], m) && Holds(ts[n], m) {
      forall i | 0 <= i < |ts|
        ensures Holds(ts[i], m)
      {
        assert i < n ==> ts[i] == ts[..n][i];
      }
    }
  }

  predicate AndsAreBool(xs: seq<Term>) { forall i | 0 <= i < |xs| :: xs[i].kind.And? ==> xs[i].sort == Bool }

  lemma CubesAreBool(xs: seq<Term>)
    requires AllCubes(xs)
    ensures AndsAreBool(xs)
  {
  }

  lemma {:induction false} RowHolds(x: Term, ys: seq<Term>, m: Model)
    requires AndsAreBool([x]) && AndsAreBool(ys)
    ensures AnyHolds(Row(x, ys), m) <==> Holds(x, m) && AnyHolds(ys, m)
  {
    hide Holds, AnyHolds, MkAnd;
    if ys == [] {
      NoneHolds(m);
    } else {
      var n := |ys| - 1;
      RowHolds(x, ys[..n], m);
      assert [x][0] == x;
      JoinHolds(x, Conjuncts(ys[n]), m);
      ConjunctsHold(ys[n], m);
      AnyHoldsSplit(ys, m);
      AnyHoldsSplit(Row(x, ys), m);
    }
  }

  lemma NoneHolds(m: Model)
    ensures !AnyHolds([], m)
  {
  }

  /** The product is the conjunction of the two disjunctions. */
  lemma {:induction false} CrossHolds(xs: seq<Term>, ys: seq<Term>, m: Model)
    requires AndsAreBool(xs) && AndsAreBool(ys)
    ensures AnyHolds(Cross(xs, ys), m) <==> AnyHolds(xs, m) && AnyHolds(ys, m)
  {
    hide Holds, AnyHolds;
    if xs == [] {
      NoneHolds(m);
    } else {
      var n := |xs| - 1;
      CrossHolds(xs[..n], ys, m);
      RowHolds(xs[n], ys, m);
      AnyHoldsSplit(xs, m);
      AnyHoldsConcat(Cross(xs[..n], ys), Row(xs[n], ys), m);
    }
  }

  lemma {:induction false} MergeHolds(xs: seq<Term>, ands: seq<Term>, m: Model)
    requires AndsAreBool(xs)
    ensures AnyHolds(Merge(xs, ands), m) <==> AnyHolds(xs, m) && AllHold(ands, m)
  {
    hide Holds, AnyHolds, MkAnd;
    if xs == [] {
      NoneHolds(m);
    } else {
      var n := |xs| - 1;
      MergeHolds(xs[..n], ands, m);
      JoinHolds(xs[n], ands, m);
      AnyHoldsSplit(xs, m);
      AnyHoldsSplit(Merge(xs, ands), m);
    }
  }

  /** How the next step reads an intermediate result: as the disjunction of
      its children. */
  ghost predicate Reads(t: Term, m: Model) { AnyHolds(t.children, m) }

  /** A collapsed product, a conjunction, is read wrongly where a part of it
      holds but not all. */
  ghost predicate Slips(t: Term, m: Model) { t.kind.And? && Reads(t, m) && !Holds(t, m) }

  /** Some product slipped and every operand multiplied in later holds. */
  ghost predicate Slipped(ors: seq<Term>, m: Model)
    requires |ors| >= 1
  {
    var n := |ors| - 1;
    (n > 0 && Slipped(ors[..n], m) && Holds(ors[n], m)) || Slips(FoldCross(ors), m)
  }

  lemma PackReads(t: Term, m: Model)
    requires IsPack(t)
    ensures Reads(t, m) <==> Holds(t, m) || Slips(t, m)
  {
    hide Holds, IsCube;
    if t.kind.Or? {
      OrHolds(t, m);
    } else {
      AndHolds(t, m);
      if Holds(t, m) {
        assert Holds(t.children[0], m);
      }
    }
  }

  lemma FoldStep(ors: seq<Term>, m: Model)
    requires |ors| > 1 && AllDisjunctions(ors)
    ensures Holds(FoldCross(ors), m) <==> Reads(FoldCross(ors[..|ors| - 1]), m) && Holds(ors[|ors| - 1], m)
  {
    hide Holds, AnyHolds, Cross, MkOr, IsCube;
    var n := |ors| - 1;
    var d, e := FoldCross(ors[..n]), ors[n];
    FoldIsPack(ors[..n]);
    assert IsDisjunction(e);
    CubesAreBool(d.children);
    CubesAreBool(e.children);
    CrossHolds(d.children, e.children, m);
    MkOrHolds(Cross(d.children, e.children), m);
    OrHolds(e, m);
  }

  /** The products read as the conjunction of the operands, or slip. */
  lemma {:induction false} FoldReads(ors: seq<Term>, m: Model)
    requires |ors| >= 1 && AllDisjunctions(ors)
    ensures Reads(FoldCross(ors), m) <==> AllHold(ors, m) || Slipped(ors, m)
    ensures AllHold(ors, m) ==> !Slipped(ors, m) && Holds(FoldCross(ors), m)
  {
    hide Holds, Reads, IsPack, MkOr, Cross;
    var n := |ors| - 1;
    assert IsDisjunction(ors[n]);
    FoldIsPack(ors);
    PackReads(FoldCross(ors), m);
    AllHoldSplit(ors, m);
    if n > 0 {
      FoldReads(ors[..n], m);
      FoldStep(ors, m);
    } else {
      assert ors[..n] == [];
    }
  }

  /** Where distributing at one conjunction goes wrong: a product before the
      last step slipped, and everything after it holds. */
  ghost predicate Misread(ds: seq<Term>, m: Model) {
    var ors, ands := Ors(ds), NonOrs(ds);
    && ors != []
    && (if ands != [] then Slipped(ors, m) && AllHold(ands, m)
        else |ors| > 1 && Slipped(ors[..|ors| - 1], m) && Holds(ors[|ors| - 1], m))
  }

  lemma {:induction false} SplitHolds(ds: seq<Term>, m: Model)
    ensures AllHold(ds, m) <==> AllHold(Ors(ds), m) && AllHold(NonOrs(ds), m)
  {
    hide Holds, AllHold;
    if ds != [] {
      var n := |ds| - 1;
      SplitHolds(ds[..n], m);
      AllHoldSplit(ds, m);
      if ds[n].kind.Or? {
        AllHoldSplit(Ors(ds), m);
        assert NonOrs(ds) == NonOrs(ds[..n]);
      } else {
        AllHoldSplit(NonOrs(ds), m);
        assert Ors(ds) == Ors(ds[..n]);
        assert NonOrs(ds)[..|NonOrs(ds)| - 1] == NonOrs(ds[..n]);
      }
    } else {
      EmptyHolds(m);
    }
  }

  lemma EmptyHolds(m: Model)
    ensures AllHold([], m)
  {
  }

  /** Distribution at one conjunction, exactly: its value is that of the
      conjunction in the models where nothing is misread, and true instead of
      false in the others. */
  lemma DistAndExact(ds: seq<Term>, m: Model)
    requires AllDnf(ds)
    ensures Holds(DistAnd(ds), m) <==> AllHold(ds, m) || Misread(ds, m)
    ensures AllHold(ds, m) ==> !Misread(ds, m)
  {
    hide Holds, AllHold, FoldCross, Slipped, Ors, NonOrs, Merge, MkAnd, MkOr, AllTerms, IsPack, AllDisjunctions, Reads;
    var ors, ands := Ors(ds), NonOrs(ds);
    SplitHolds(ds, m);
    SplitShape(ds);
    EmptyHolds(m);
    if ors == [] {
      MkAndHolds(ands, m);
    } else {
      FoldReads(ors, m);
      if ands != [] {
        MergedHolds(ors, ands, m);
      } else {
        LastProductHolds(ors, m);
      }
    }
  }

  lemma MergedHolds(ors: seq<Term>, ands: seq<Term>, m: Model)
    requires ors != [] && AllDisjunctions(ors)
    ensures Holds(MkOr(Merge(FoldCross(ors).children, ands)), m) <==> Reads(FoldCross(ors), m) && AllHold(ands, m)
  {
    hide Holds, AllHold, AnyHolds, FoldCross, Merge, MkOr, IsCube, AllDisjunctions;
    var d := FoldCross(ors);
    FoldIsPack(ors);
    CubesAreBool(d.children);
    MergeHolds(d.children, ands, m);
    MkOrHolds(Merge(d.children, ands), m);
  }

  lemma LastProductHolds(ors: seq<Term>, m: Model)
    requires ors != [] && AllDisjunctions(ors)
    ensures Holds(FoldCross(ors), m) <==>
            AllHold(ors, m) || (|ors| > 1 && Slipped(ors[..|ors| - 1], m) && Holds(ors[|ors| - 1], m))
    ensures AllHold(ors, m) && |ors| > 1 ==> !Slipped(ors[..|ors| - 1], m)
  {
    hide Holds, AllHold, FoldCross, Slipped, IsPack, Reads;
    var n := |ors| - 1;
    AllHoldSplit(ors, m);
    if n == 0 {
      assert ors[..n] == [];
      EmptyHolds(m);
      assert FoldCross(ors) == ors[0] by { FoldOne(ors); }
    } else {
      assert AllDisjunctions(ors[..n]);
      FoldReads(ors[..n], m);
      FoldStep(ors, m);
    }
  }

  lemma FoldOne(ors: seq<Term>)
    requires |ors| == 1
    ensures FoldCross(ors) == ors[0]
  {
  }

  lemma {:induction false} FlattenedHolds(ds: seq<Term>, m: Model)
    requires forall i | 0 <= i < |ds| :: ds[i].kind.Or? ==> ds[i].sort == Bool
    ensures AnyHolds(Flattened(ds), m) <==> AnyHolds(ds, m)
  {
    hide Holds, AnyHolds;
    if ds == [] {
      NoneHolds(m);
    } else {
      var n := |ds| - 1;
      FlattenedHolds(ds[..n], m);
      AnyHoldsSplit(ds, m);
      AnyHoldsConcat(Flattened(ds[..n]), Disjuncts(ds[n]), m);
      DisjunctsHold(ds[n], m);
    }
  }

  lemma DisjunctsHold(d: Term, m: Model)
    requires d.kind.Or? ==> d.sort == Bool
    ensures AnyHolds(Disjuncts(d), m) <==> Holds(d, m)
  {
    hide Holds;
    if d.kind.Or? {
      OrHolds(d, m);
    } else {
      assert [d][0] == d;
    }
  }

  /** No conjunction in the term is misread in the model. */
  ghost predicate NeverMisread(t: Term, m: Model)
    decreases Rank(t), t, 1
  {
    if IsDnfLeaf(t) then true
    else if t.kind.Let? then NeverMisread(ExpandLet(t), m)
    else if t.kind.And? then NoneMisread(t.children, m) && !Misread(DistAll(t.children), m)
    else t.kind.Or? ==> NoneMisread(t.children, m)
  }

  ghost predicate NoneMisread(ts: seq<Term>, m: Model)
    decreases RankAll(ts), ts, 0
  {
    forall i | 0 <= i < |ts| :: NeverMisread(ts[i], m)
  }

  /** The formula fails and its distributed form holds: at a disjunction because
      of some operand, at a conjunction because it is misread, or because every
      operand that fails is weakened itself. */
  ghost predicate Weakened(t: Term, m: Model)
    decreases Rank(t), t, 1
  {
    if IsDnfLeaf(t) then false
    else if t.kind.Let? then Weakened(ExpandLet(t), m)
    else if t.kind.Or? then !AnyHolds(t.children, m) && AnyWeakened(t.children, m)
    else if t.kind.And? then
      !AllHold(t.children, m) && (Misread(DistAll(t.children), m) || AllHoldOrWeakened(t.children, m))
    else false
  }

  ghost predicate AnyWeakened(ts: seq<Term>, m: Model)
    decreases RankAll(ts), ts, 0
  {
    exists i :: 0 <= i < |ts| && Weakened(ts[i], m)
  }

  ghost predicate AllHoldOrWeakened(ts: seq<Term>, m: Model)
    decreases RankAll(ts), ts, 0
  {
    forall i | 0 <= i < |ts| :: Holds(ts[i], m) || Weakened(ts[i], m)
  }

  /** Distribution never strengthens a formula, and weakens it exactly
      there. */
  lemma {:induction false} DistHolds(t: Term, m: Model)
    requires DistInput(t)
    ensures Holds(Dist(t), m) <==> Holds(t, m) || Weakened(t, m)
    ensures Weakened(t, m) ==> !Holds(t, m)
    decreases Rank(t), t, 1
  {
    hide Holds, MkOr, DistAnd, Flattened, IsArithTerm, IsStrTerm, Misread, IsDnfLeaf, WellFormed, AllHold, AnyHolds;
    if IsDnfLeaf(t) || t.kind.Not? {
      LeafShape(t);
    } else if t.kind.Let? {
      DistHolds(ExpandLet(t), m);
      LetHolds(t, m);
    } else if t.kind.Or? {
      OrDistHolds(t, m);
    } else {
      AndDistHolds(t, m);
    }
  }

  lemma {:induction false} OrDistHolds(t: Term, m: Model)
    requires DistInput(t) && t.kind.Or? && !IsDnfLeaf(t)
    ensures Holds(Dist(t), m) <==> Holds(t, m) || Weakened(t, m)
    ensures Weakened(t, m) ==> !Holds(t, m)
    decreases Rank(t), t, 0
  {
    hide Holds, MkOr, DistAnd, Flattened, IsArithTerm, IsStrTerm, Misread, IsDnfLeaf;
    var ds := DistAll(t.children);
    DistAllHold(t.children, m);
    DistAllShape(t.children);
    OrsAreBool(ds);
    OrHolds(t, m);
    FlattenedHolds(ds, m);
    MkOrHolds(Flattened(ds), m);
  }

  lemma OrsAreBool(ds: seq<Term>)
    requires AllDnf(ds)
    ensures forall i | 0 <= i < |ds| :: ds[i].kind.Or? ==> ds[i].sort == Bool
  {
  }

  lemma {:induction false} AndDistHolds(t: Term, m: Model)
    requires DistInput(t) && t.kind.And? && !IsDnfLeaf(t)
    ensures Holds(Dist(t), m) <==> Holds(t, m) || Weakened(t, m)
    ensures Weakened(t, m) ==> !Holds(t, m)
    decreases Rank(t), t, 0
  {
    hide Holds, DistAnd, IsArithTerm, IsStrTerm, Misread, IsDnfLeaf;
    var ds := DistAll(t.children);
    DistAllHold(t.children, m);
    DistAllShape(t.children);
    AndHolds(t, m);
    DistAndExact(ds, m);
  }

  lemma {:induction false} DistAllHold(ts: seq<Term>, m: Model)
    requires AllDistInput(ts)
    ensures forall i | 0 <= i < |ts| :: Holds(DistAll(ts)[i], m) <==> Holds(ts[i], m) || Weakened(ts[i], m)
    decreases RankAll(ts), ts, 0
  {
    hide Holds, Dist, DistInput, Weakened;
    forall i | 0 <= i < |ts|
      ensures Holds(DistAll(ts)[i], m) <==> Holds(ts[i], m) || Weakened(ts[i], m)
    {
      assert HasBinder(ts[i]) ==> AnyHasBinder(ts);
      DistHolds(ts[i], m);
    }
  }

  /** Where nothing is misread, nothing is weakened. */
  lemma {:induction false} NeverMisreadKept(t: Term, m: Model)
    requires NeverMisread(t, m)
    ensures !Weakened(t, m)
    decreases Rank(t), t
  {
    hide Holds, Misread, IsDnfLeaf, AllHold, AnyHolds;
    if !IsDnfLeaf(t) {
      if t.kind.Let? {
        LetRankDrops(t);
        NeverMisreadKept(ExpandLet(t), m);
      } else if t.kind.And? || t.kind.Or? {
        forall i | 0 <= i < |t.children|
          ensures !Weakened(t.children[i], m)
        {
          assert HasBinder(t.children[i]) ==> AnyHasBinder(t.children);
          NeverMisreadKept(t.children[i], m);
        }
        assert AllHoldOrWeakened(t.children, m) ==> AllHold(t.children, m) by {
          SomeFails(t.children, m);
        }
      }
    }
  }

  lemma SomeFails(ts: seq<Term>, m: Model)
    requires forall i | 0 <= i < |ts| :: !Weakened(ts[i], m)
    ensures AllHoldOrWeakened(ts, m) ==> AllHold(ts, m)
  {
    hide Holds, Weakened;
  }

  // ------------------------------------------------------------------
  // Conjunctions of clauses are never misread
  // ------------------------------------------------------------------

  lemma {:induction false} DedupUnrepeated(ts: seq<Term>)
    requires Unrepeated(ts)
    ensures Dedup(ts) == ts
  {
    if ts != [] {
      var n := |ts| - 1;
      DedupUnrepeated(ts[..n]);
      assert ts == ts[..n] + [ts[n]];
    }
  }

  predicate IsAndFree(ts: seq<Term>) { forall i | 0 <= i < |ts| :: !ts[i].kind.And? }

  lemma DedupAppend(ts: seq<Term>, x: Term)
    ensures Dedup(ts + [x]) == if x in ts then Dedup(ts) else Dedup(ts) + [x]
  {
    assert (ts + [x])[..|ts|] == ts;
  }

  /** Without constants mkAnd and mkOr only drop repetitions. */
  lemma {:induction false} PlainJunctions(ts: seq<Term>)
    requires AllCubes(ts) && ts != []
    ensures var rest := Dedup(ts);
            && MkAnd(ts) == (if |rest| == 1 then rest[0] else MkOper(Bool, And, rest))
            && MkOr(ts) == if |rest| == 1 then rest[0] else MkOper(Bool, Or, rest)
  {
    hide IsCube, Dedup, Without;
    NoConstants(ts);
    if |ts| == 1 {
      DedupUnrepeated(ts);
    } else {
      WithoutNone(ts, ConstTrue);
      WithoutNone(ts, ConstFalse);
      assert ts[0] in Dedup(ts);
    }
  }

  lemma NoConstants(ts: seq<Term>)
    requires AllCubes(ts)
    ensures forall i | 0 <= i < |ts| :: !IsTrue(ts[i]) && !IsFalse(ts[i])
  {
  }

  /** Joining a literal to a cube appends it, unless it is already there. */
  lemma JoinLiteral(x: Term, y: Term)
    requires IsCube(x) && IsCube(y) && !y.kind.And?
    ensures var cs := Conjuncts(x);
            Join(x, y) == if y in cs then x else MkOper(Bool, And, cs + [y])
  {
    hide MkAnd, MkOr, Dedup;
    var cs := Conjuncts(x);
    ConjunctsAreCubes(x);
    PlainJunctions(cs + [y]);
    DedupAppend(cs, y);
    DedupUnrepeated(cs);
  }

  /** Multiplying by a clause of at least two literals never collapses. */
  lemma ClauseKeepsOr(d: Term, e: Term)
    requires IsPack(d) && IsDisjunction(e) && IsAndFree(e.children)
    ensures IsDisjunction(MkOr(Cross(d.children, e.children)))
  {
    hide IsCube, Join, MkOr;
    var xs, ys := d.children, e.children;
    CrossIsCubes(xs, ys);
    CrossHas(xs, ys, 0, 0);
    CrossHas(xs, ys, 0, 1);
    CrossHas(xs, ys, 1, 0);
    CrossHas(xs, ys, 1, 1);
    MkOrOfCubes(Cross(xs, ys));
    if Join(xs[0], ys[0]) == Join(xs[0], ys[1]) && Join(xs[1], ys[0]) == Join(xs[1], ys[1]) {
      SameJoins(xs[0], ys[0], ys[1]);
      SameJoins(xs[1], ys[0], ys[1]);
    }
  }

  lemma SameJoins(x: Term, y: Term, z: Term)
    requires IsCube(x) && IsCube(y) && IsCube(z) && !y.kind.And? && !z.kind.And? && y != z
    requires Join(x, y) == Join(x, z)
    ensures Join(x, y) == x
  {
    hide IsCube, Join;
    JoinLiteral(x, y);
    JoinLiteral(x, z);
    var cs := Conjuncts(x);
    assert (cs + [y])[|cs|] == y && (cs + [z])[|cs|] == z;
    assert x.kind.And? ==> |(cs + [y])| != |x.children| && |(cs + [z])| != |x.children|;
  }

  /** A disjunction of leaves and negations. */
  predicate IsClause(t: Term) {
    || IsDnfLeaf(t) || t.kind.Not?
    || (t.kind.Or? && t.sort == Bool && forall i | 0 <= i < |t.children| :: IsClause(t.children[i]))
  }

  predicate AllClauses(ts: seq<Term>) { forall i | 0 <= i < |ts| :: IsClause(ts[i]) }

  predicate IsCnf(t: Term) {
    IsClause(t) || (t.kind.And? && t.sort == Bool && AllClauses(t.children))
  }

  /** Distributing over a clause leaves a clause. */
  lemma {:induction false} ClauseDist(t: Term)
    requires IsClause(t)
    ensures DistInput(t) && IsAndFree(Disjuncts(Dist(t)))
    ensures forall m: Model :: NeverMisread(t, m)
  {
    hide MkOr, Flattened, IsArithTerm, IsStrTerm, IsDnfLeaf, Misread, IsDnf;
    LeafIsAndFree(t);
    if !(IsDnfLeaf(t) || t.kind.Not?) {
      var ds := DistAll(t.children);
      forall i | 0 <= i < |t.children|
        ensures DistInput(t.children[i]) && IsAndFree(Disjuncts(ds[i]))
        ensures forall m: Model :: NeverMisread(t.children[i], m)
      {
        ClauseDist(t.children[i]);
      }
      DistAllShape(t.children);
      FlattenedAndFree(ds);
      FlattenedShape(ds);
      OrOfAndFree(Flattened(ds));
      forall m: Model
        ensures NoneMisread(t.children, m)
      {
      }
    }
  }

  lemma LeafIsAndFree(t: Term)
    requires IsClause(t)
    ensures !t.kind.And? && !t.kind.Let? && (IsDnfLeaf(t) || t.kind.Not? ==> !t.kind.Or?)
  {
  }

  lemma {:induction false} FlattenedAndFree(ds: seq<Term>)
    requires forall i | 0 <= i < |ds| :: IsAndFree(Disjuncts(ds[i]))
    ensures IsAndFree(Flattened(ds))
  {
    hide Disjuncts;
    if ds != [] {
      FlattenedAndFree(ds[..|ds| - 1]);
    }
  }

  lemma OrOfAndFree(fs: seq<Term>)
    requires IsAndFree(fs) && AllTerms(fs)
    ensures IsAndFree(Disjuncts(MkOr(fs)))
  {
    hide MkOr;
    JunctionShape(fs);
    assert forall c | c in fs :: !c.kind.And? && !c.kind.Or?;
    var r := MkOr(fs);
    if r.kind.Or? {
      assert forall i | 0 <= i < |r.children| :: r.children[i] in r.children;
    }
  }

  lemma {:induction false} FoldStaysOr(ors: seq<Term>, m: Model)
    requires |ors| >= 1 && AllDisjunctions(ors) && forall i | 0 <= i < |ors| :: IsAndFree(ors[i].children)
    ensures IsDisjunction(FoldCross(ors)) && !Slipped(ors, m)
  {
    hide IsCube, Cross, MkOr, IsAndFree, Unrepeated, Holds;
    var n := |ors| - 1;
    assert IsDisjunction(ors[n]);
    if n > 0 {
      FoldStaysOr(ors[..n], m);
      ClauseKeepsOr(FoldCross(ors[..n]), ors[n]);
    } else {
      FoldOne(ors);
    }
  }

  lemma {:induction false} OrsAndFree(ds: seq<Term>)
    requires forall i | 0 <= i < |ds| :: IsAndFree(Disjuncts(ds[i]))
    ensures forall i | 0 <= i < |Ors(ds)| :: IsAndFree(Ors(ds)[i].children)
  {
    hide IsAndFree;
    if ds != [] {
      OrsAndFree(ds[..|ds| - 1]);
    }
  }

  lemma ClausesNeverMisread(ds: seq<Term>, m: Model)
    requires AllDnf(ds) && forall i | 0 <= i < |ds| :: IsAndFree(Disjuncts(ds[i]))
    ensures !Misread(ds, m)
  {
    hide IsAndFree, Slipped, FoldCross, IsDisjunction, Holds, IsDnf, Disjuncts;
    SplitShape(ds);
    OrsAndFree(ds);
    var ors := Ors(ds);
    if ors != [] {
      FoldStaysOr(ors, m);
      if |ors| > 1 {
        FoldStaysOr(ors[..|ors| - 1], m);
      }
    }
  }

  /** On a conjunction of clauses the law is exact, in every model. */
  lemma CnfDistributes(t: Term, m: Model)
    requires IsCnf(t)
    ensures DistInput(t) && IsDnf(Dist(t))
    ensures Holds(Dist(t), m) <==> Holds(t, m)
  {
    hide Dist, Holds, IsDnf, Misread, IsClause, IsAndFree;
    if IsClause(t) {
      ClauseDist(t);
    } else {
      forall i | 0 <= i < |t.children|
        ensures DistInput(t.children[i]) && IsAndFree(Disjuncts(Dist(t.children[i])))
        ensures NeverMisread(t.children[i], m)
      {
        ClauseDist(t.children[i]);
      }
      AndIsDistInput(t);
      DistAllShape(t.children);
      ClausesNeverMisread(DistAll(t.children), m);
      assert NoneMisread(t.children, m);
    }
    DistShape(t);
    DistHolds(t, m);
    NeverMisreadKept(t, m);
  }

  lemma AndIsDistInput(t: Term)
    requires t.kind.And? && t.sort == Bool && AllDistInput(t.children)
    ensures DistInput(t)
  {
  }

  // ------------------------------------------------------------------
  // A product that collapses
  // ------------------------------------------------------------------

  const A := Node(Bool, Var, "a", [])
  const Bv := Node(Bool, Var, "b", [])
  const Cv := Node(Bool, Var, "c", [])
  const Ab := MkOper(Bool, And, [A, Bv])

  lemma TwoCubes(a: Term, b: Term)
    requires IsCube(a) && IsCube(b) && a != b
    ensures MkAnd([a, b]) == MkOper(Bool, And, [a, b]) && MkOr([a, b]) == MkOper(Bool, Or, [a, b])
  {
    hide IsCube, MkAnd, MkOr;
    PlainJunctions([a, b]);
    DedupUnrepeated([a, b]);
  }

  /** The four joins of a, (a and b) with b, (a and b) are all (a and b). */
  lemma JoinsCollapse()
    ensures Join(A, Bv) == Ab && Join(Ab, Bv) == Ab && Join(A, Ab) == Ab && Join(Ab, Ab) == Ab
  {
    hide MkAnd, Dedup, Join;
    AbIsCube();
    JoinLiteral(A, Bv);
    JoinLiteral(Ab, Bv);
    JoinPair([A], A);
    JoinPair([A, Bv], Ab);
    assert [A] + [Bv] == [A, Bv];
  }

  lemma JoinPair(cs: seq<Term>, x: Term)
    requires (cs == [A] && x == A) || (cs == [A, Bv] && x == Ab)
    ensures Join(x, Ab) == Ab
  {
    hide MkAnd, MkOr, Dedup;
    AbIsCube();
    assert Conjuncts(x) == cs;
    DedupUnrepeated(cs);
    DedupAppend(cs, A);
    DedupAppend(cs + [A], Bv);
    assert cs + [A, Bv] == cs + [A] + [Bv];
    assert [A] + [Bv] == [A, Bv];
    assert AllCubes(cs + [A] + [Bv]);
    PlainJunctions(cs + [A] + [Bv]);
  }

  lemma FourSame(t: Term)
    requires IsCube(t)
    ensures MkOr([t, t, t, t]) == t
  {
    hide MkOr, MkAnd, Dedup, IsCube;
    DedupUnrepeated([t]);
    DedupAppend([t], t);
    DedupAppend([t] + [t], t);
    DedupAppend([t] + [t] + [t], t);
    PlainJunctions([t] + [t] + [t] + [t]);
    assert [t] + [t] + [t] + [t] == [t, t, t, t];
  }

  lemma CrossOfPairs(a: Term, b: Term, c: Term, d: Term)
    ensures Cross([a, b], [c, d]) == [Join(a, c), Join(a, d), Join(b, c), Join(b, d)]
  {
    hide Join;
    assert [a, b][..1] == [a] && [c, d][..1] == [c];
    assert Row(a, [c]) == Row(a, []) + [Join(a, c)] && Row(b, [c]) == Row(b, []) + [Join(b, c)];
    assert Row(a, [c, d]) == [Join(a, c), Join(a, d)] && Row(b, [c, d]) == [Join(b, c), Join(b, d)];
    assert Cross([a], [c, d]) == Cross([], [c, d]) + Row(a, [c, d]);
  }

  lemma CollapsedSplit(p: Term, q: Term)
    requires p == MkOper(Bool, Or, [A, Ab]) && q == MkOper(Bool, Or, [Bv, Ab])
    ensures DistAnd([p, q, Cv]) == MkOper(Bool, Or, [MkOper(Bool, And, [A, Cv]), MkOper(Bool, And, [Bv, Cv])])
  {
    hide MkAnd, MkOr, Join, Cross, Merge, FoldCross;
    ProductIsAb(p, q);
    SplitTriple(p, q, Cv);
    MergeAb();
    TwoCubes(MkOper(Bool, And, [A, Cv]), MkOper(Bool, And, [Bv, Cv]));
  }

  /** The operands are already distributed. */
  lemma OperandsDistributed(p: Term, q: Term)
    requires p == MkOper(Bool, Or, [A, Ab]) && q == MkOper(Bool, Or, [Bv, Ab])
    ensures DistInput(MkOper(Bool, And, [p, q, Cv]))
    ensures DistAll([p, q, Cv]) == [p, q, Cv]
  {
    hide MkAnd, MkOr, DistAnd, Flattened, IsCube;
    AbDistributed();
    PairDistributed(A, p);
    PairDistributed(Bv, q);
    assert AllDistInput([p, q, Cv]);
    assert Dist(Cv) == Cv;
  }

  lemma AbDistributed()
    ensures DistInput(Ab) && Dist(Ab) == Ab
  {
    hide MkAnd, MkOr, IsCube;
    AbIsCube();
    TwoCubes(A, Bv);
    assert AllDistInput([A, Bv]);
    assert DistAll([A, Bv]) == [A, Bv];
    assert [A, Bv][..1] == [A] && NonOrs([A]) == NonOrs([]) + [A] && Ors([A]) == Ors([]);
    assert Ors([A, Bv]) == [] && NonOrs([A, Bv]) == [A, Bv];
  }

  lemma PairDistributed(x: Term, p: Term)
    requires (x == A || x == Bv) && p == MkOper(Bool, Or, [x, Ab])
    ensures DistInput(p) && Dist(p) == p
  {
    hide MkAnd, MkOr, IsCube, DistAnd;
    AbIsCube();
    AbDistributed();
    TwoCubes(x, Ab);
    assert AllDistInput([x, Ab]);
    assert DistAll([x, Ab]) == [x, Ab];
    assert [x, Ab][..1] == [x] && Flattened([x]) == Flattened([]) + [x];
    assert Flattened([x, Ab]) == [x, Ab];
  }

  /** (a or (a and b)) and (b or (a and b)) and c becomes
      (a and c) or (b and c): the product of the first two operands is the one
      conjunction (a and b), whose parts are then taken as alternatives. Where a
      and c hold and b fails, the result holds and the formula does not. */
  lemma CollapsedProduct() returns (t: Term, m: Model)
    ensures t == MkOper(Bool, And, [MkOper(Bool, Or, [A, Ab]), MkOper(Bool, Or, [Bv, Ab]), Cv]) && DistInput(t)
    ensures Dist(t) == MkOper(Bool, Or, [MkOper(Bool, And, [A, Cv]), MkOper(Bool, And, [Bv, Cv])])
    ensures !Holds(t, m) && Holds(Dist(t), m) && Holds(Flatten(Dist(t)), m)
  {
    hide Dist, DistAnd, DistInput, Flatten, Holds;
    var p, q := MkOper(Bool, Or, [A, Ab]), MkOper(Bool, Or, [Bv, Ab]);
    t := MkOper(Bool, And, [p, q, Cv]);
    m := Model((l: Term) => B(l.name != "b"), (k, n, vs) => U(0), map[]);
    OperandsDistributed(p, q);
    CollapsedSplit(p, q);
    AndDistributes(t);
    CollapsedDiffers(t, q, Dist(t), m);
    DistShape(t);
    DnfIsFlat(Dist(t));
    FlattenHolds(Dist(t), m);
  }

  lemma {:induction false} AndDistributes(t: Term)
    requires t.kind.And?
    ensures Dist(t) == DistAnd(DistAll(t.children))
  {
    hide DistAnd, IsArithTerm, IsStrTerm, DistAll;
  }

  lemma CollapsedDiffers(t: Term, q: Term, r: Term, m: Model)
    requires q == MkOper(Bool, Or, [Bv, Ab]) && t == MkOper(Bool, And, [MkOper(Bool, Or, [A, Ab]), q, Cv])
    requires r == MkOper(Bool, Or, [MkOper(Bool, And, [A, Cv]), MkOper(Bool, And, [Bv, Cv])])
    requires AsBool(m.leaf(A)) && AsBool(m.leaf(Cv)) && !AsBool(m.leaf(Bv))
    ensures !Holds(t, m) && Holds(r, m)
  {
    hide Holds;
    VariableHolds(A, m);
    VariableHolds(Bv, m);
    VariableHolds(Cv, m);
    AndHolds(r.children[0], m);
    AndHolds(Ab, m);
    OrHolds(r, m);
    OrHolds(q, m);
    AndHolds(t, m);
    assert Ab.children[1] == Bv && q.children == [Bv, Ab] && t.children[1] == q;
    assert r.children[0].children == [A, Cv];
  }

  lemma VariableHolds(t: Term, m: Model)
    requires t.kind.Var? && t.sort == Bool
    ensures Holds(t, m) <==> AsBool(m.leaf(t))
  {
    Unfold(t, m);
  }

  lemma ProductIsAb(p: Term, q: Term)
    requires p == MkOper(Bool, Or, [A, Ab]) && q == MkOper(Bool, Or, [Bv, Ab])
    ensures FoldCross([p, q]) == Ab
  {
    hide MkOr, Join, Cross, IsCube;
    JoinsCollapse();
    CrossOfPairs(A, Ab, Bv, Ab);
    AbIsCube();
    FourSame(Ab);
    assert [p, q][..1] == [p];
    FoldOne([p]);
  }

  lemma AbIsCube()
    ensures IsCube(Ab) && IsCube(A) && IsCube(Bv)
  {
    assert IsCube(A) && IsCube(Bv);
  }

  lemma SplitTriple(p: Term, q: Term, c: Term)
    requires p.kind.Or? && q.kind.Or? && !c.kind.Or?
    ensures Ors([p, q, c]) == [p, q] && NonOrs([p, q, c]) == [c]
  {
    assert [p, q, c][..2] == [p, q] && [p, q][..1] == [p];
    assert Ors([p]) == Ors([]) + [p] && NonOrs([p]) == NonOrs([]) + [];
    assert Ors([p, q]) == [p, q] && NonOrs([p, q]) == [];
  }

  lemma PairIsCube(a: Term, b: Term)
    requires IsCube(a) && IsCube(b) && a != b
    ensures IsCube(MkOper(Bool, And, [a, b]))
  {
    var t := MkOper(Bool, And, [a, b]);
    assert forall i | 0 <= i < |t.children| :: IsCube(t.children[i]);
  }

  lemma MergeAb()
    ensures Merge([A, Bv], [Cv]) == [MkOper(Bool, And, [A, Cv]), MkOper(Bool, And, [Bv, Cv])]
    ensures IsCube(MkOper(Bool, And, [A, Cv])) && IsCube(MkOper(Bool, And, [Bv, Cv]))
  {
    hide MkAnd, MkOr;
    assert IsCube(A) && IsCube(Bv) && IsCube(Cv);
    TwoCubes(A, Cv);
    TwoCubes(Bv, Cv);
    PairIsCube(A, Cv);
    PairIsCube(Bv, Cv);
    assert [A, Bv][..1] == [A];
    assert Merge([A], [Cv]) == Merge([], [Cv]) + [MkAnd([A] + [Cv])];
    assert [A] + [Cv] == [A, Cv] && [Bv] + [Cv] == [Bv, Cv];
  }

  // ------------------------------------------------------------------
  // Flattening
  // ------------------------------------------------------------------

  /** Operands of the kind `k` are replaced by their own operands, one level
      down, all of them flattened first; repetitions go. */
  function Flatten(t: Term): Term
    decreases t, 1
  {
    if t.kind.Or? then
      var rs := Dedup(FlattenOperands(t.children, Or));
      if |rs| == 1 then rs[0] else MkOr(rs)
    else if t.kind.And? then
      var rs := Dedup(FlattenOperands(t.children, And));
      if |rs| == 1 then rs[0] else MkAnd(rs)
    else t
  }

  function FlattenOperands(ts: seq<Term>, k: Kind): seq<Term>
    decreases ts, 0
  {
    if ts == [] then []
    else
      var n := |ts| - 1;
      FlattenOperands(ts[..n], k) + if ts[n].kind == k then FlattenAll(ts[n].children) else [Flatten(ts[n])]
  }

  function FlattenAll(ts: seq<Term>): seq<Term>
    decreases ts, 0
  {
    if ts == [] then [] else FlattenAll(ts[..|ts| - 1]) + [Flatten(ts[|ts| - 1])]
  }

  /** Conjunctions and disjunctions are Boolean, all the way down. */
  predicate BoolJunctions(t: Term) {
    t.kind.And? || t.kind.Or? ==> t.sort == Bool && forall i | 0 <= i < |t.children| :: BoolJunctions(t.children[i])
  }

  predicate AllBoolJunctions(ts: seq<Term>) { forall i | 0 <= i < |ts| :: BoolJunctions(ts[i]) }

  /** Flattening keeps the truth value. */
  lemma {:induction false} FlattenHolds(t: Term, m: Model)
    requires BoolJunctions(t)
    ensures Holds(Flatten(t), m) <==> Holds(t, m)
    decreases t, 1
  {
    hide Holds, MkOr, MkAnd, AnyHolds, AllHold;
    if t.kind.Or? {
      FlattenOperandsHold(t.children, Or, m);
      OrHolds(t, m);
      SingleHolds(FlattenOperands(t.children, Or), m);
      MkOrHolds(Dedup(FlattenOperands(t.children, Or)), m);
    } else if t.kind.And? {
      FlattenOperandsHold(t.children, And, m);
      AndHolds(t, m);
      SingleHolds(FlattenOperands(t.children, And), m);
      MkAndHolds(Dedup(FlattenOperands(t.children, And)), m);
    }
  }

  lemma SingleHolds(ts: seq<Term>, m: Model)
    ensures AnyHolds(Dedup(ts), m) <==> AnyHolds(ts, m)
    ensures AllHold(Dedup(ts), m) <==> AllHold(ts, m)
    ensures |Dedup(ts)| == 1 ==> (Holds(Dedup(ts)[0], m) <==> AnyHolds(ts, m)) && (Holds(Dedup(ts)[0], m) <==> AllHold(ts, m))
  {
    hide Holds;
    AllHoldIn(ts, m);
    AllHoldIn(Dedup(ts), m);
  }

  lemma OneHolds(t: Term, m: Model)
    ensures AllHold([t], m) <==> Holds(t, m)
    ensures AnyHolds([t], m) <==> Holds(t, m)
  {
    hide Holds;
    assert [t][0] == t;
  }

  lemma {:induction false} FlattenOperandsHold(ts: seq<Term>, k: Kind, m: Model)
    requires AllBoolJunctions(ts) && (k == Or || k == And)
    ensures k == Or ==> (AnyHolds(FlattenOperands(ts, k), m) <==> AnyHolds(ts, m))
    ensures k == And ==> (AllHold(FlattenOperands(ts, k), m) <==> AllHold(ts, m))
    decreases ts, 0
  {
    hide Holds, AnyHolds, AllHold, Flatten;
    if ts == [] {
      NoneHolds(m);
      EmptyHolds(m);
    } else {
      var n := |ts| - 1;
      FlattenOperandsHold(ts[..n], k, m);
      var c := ts[n];
      var add := if c.kind == k then FlattenAll(c.children) else [Flatten(c)];
      if c.kind == k {
        FlattenAllHold(c.children, m);
        JunctionHolds(c, m);
      } else {
        FlattenHolds(c, m);
        OneHolds(Flatten(c), m);
      }
      AnyHoldsConcat(FlattenOperands(ts[..n], k), add, m);
      AllHoldConcat(FlattenOperands(ts[..n], k), add, m);
      AnyHoldsSplit(ts, m);
      AllHoldSplit(ts, m);
    }
  }

  lemma JunctionHolds(c: Term, m: Model)
    requires c.sort == Bool
    ensures c.kind.Or? ==> (Holds(c, m) <==> AnyHolds(c.children, m))
    ensures c.kind.And? ==> (Holds(c, m) <==> AllHold(c.children, m))
  {
    hide Holds;
    if c.kind.Or? {
      OrHolds(c, m);
    } else if c.kind.And? {
      AndHolds(c, m);
    }
  }

  lemma {:induction false} FlattenAllHold(ts: seq<Term>, m: Model)
    requires AllBoolJunctions(ts)
    ensures AnyHolds(FlattenAll(ts), m) <==> AnyHolds(ts, m)
    ensures AllHold(FlattenAll(ts), m) <==> AllHold(ts, m)
    decreases ts, 0
  {
    hide Holds, AnyHolds, AllHold, Flatten;
    if ts == [] {
      NoneHolds(m);
      EmptyHolds(m);
    } else {
      var n := |ts| - 1;
      FlattenAllHold(ts[..n], m);
      FlattenHolds(ts[n], m);
      AnyHoldsSplit(ts, m);
      AllHoldSplit(ts, m);
      AnyHoldsSplit(FlattenAll(ts), m);
      AllHoldSplit(FlattenAll(ts), m);
    }
  }

  /** Conjunctions only, above leaves and negations. */
  predicate IsOrFree(t: Term) {
    if t.kind.And? then t.sort == Bool && forall i | 0 <= i < |t.children| :: IsOrFree(t.children[i])
    else !t.kind.Or? && (IsDnfLeaf(t) || t.kind.Not?)
  }

  predicate AllOrFree(ts: seq<Term>) { forall i | 0 <= i < |ts| :: IsOrFree(ts[i]) }

  /** No disjunction below a conjunction, nor below another disjunction. */
  predicate IsFlatDnf(t: Term) {
    IsOrFree(t) || (t.kind.Or? && t.sort == Bool && AllOrFree(t.children))
  }

  lemma {:induction false} CubeIsOrFree(t: Term)
    requires IsCube(t)
    ensures IsOrFree(t) && BoolJunctions(t)
  {
    if t.kind.And? {
      forall i | 0 <= i < |t.children|
        ensures IsOrFree(t.children[i]) && BoolJunctions(t.children[i])
      {
        CubeIsOrFree(t.children[i]);
      }
    }
  }

  lemma DnfIsFlat(t: Term)
    requires IsDnf(t)
    ensures IsFlatDnf(t) && BoolJunctions(t)
  {
    hide IsCube;
    if IsCube(t) {
      CubeIsOrFree(t);
    } else if IsDisjunction(t) {
      forall i | 0 <= i < |t.children|
        ensures IsOrFree(t.children[i]) && BoolJunctions(t.children[i])
      {
        CubeIsOrFree(t.children[i]);
      }
    }
  }

  lemma {:induction false} FlattenOrFree(t: Term)
    requires IsOrFree(t)
    ensures IsOrFree(Flatten(t))
    decreases t, 1
  {
    hide MkAnd, MkOr;
    if t.kind.And? {
      FlattenOperandsOrFree(t.children, And);
      var rs := Dedup(FlattenOperands(t.children, And));
      JunctionShape(rs);
      assert forall c | c in rs :: IsOrFree(c);
    }
  }

  lemma {:induction false} FlattenOperandsOrFree(ts: seq<Term>, k: Kind)
    requires AllOrFree(ts) && (k == And || k == Or)
    ensures forall c | c in FlattenOperands(ts, k) :: IsOrFree(c)
    decreases ts, 0
  {
    hide Flatten;
    if ts != [] {
      var n := |ts| - 1;
      FlattenOperandsOrFree(ts[..n], k);
      FlattenOrFree(ts[n]);
      if ts[n].kind == k && k == And {
        FlattenAllOrFree(ts[n].children);
      }
    }
  }

  lemma {:induction false} FlattenAllOrFree(ts: seq<Term>)
    requires AllOrFree(ts)
    ensures forall c | c in FlattenAll(ts) :: IsOrFree(c)
    decreases ts, 0
  {
    hide Flatten;
    if ts != [] {
      var n := |ts| - 1;
      FlattenAllOrFree(ts[..n]);
      FlattenOrFree(ts[n]);
    }
  }

  lemma FlattenIsFlat(t: Term)
    requires IsFlatDnf(t)
    ensures IsFlatDnf(Flatten(t))
  {
    hide MkOr, MkAnd;
    if IsOrFree(t) {
      FlattenOrFree(t);
    } else {
      FlattenOperandsOrFree(t.children, Or);
      var rs := Dedup(FlattenOperands(t.children, Or));
      JunctionShape(rs);
      assert forall c | c in rs :: IsOrFree(c);
    }
  }

  /** The whole of applyDNFDistributiveLaw: a flat disjunctive normal form,
      never stronger than the input, and equivalent to it in every model in
      which nothing is misread. */
  lemma DistributionCorrect(t: Term, m: Model)
    requires DistInput(t)
    ensures var r := Flatten(Dist(t));
            && IsFlatDnf(r)
            && (Holds(r, m) <==> Holds(t, m) || Weakened(t, m))
  {
    hide Holds, Dist, Flatten, IsFlatDnf, Weakened, DistInput;
    DistShape(t);
    DnfIsFlat(Dist(t));
    FlattenIsFlat(Dist(t));
    FlattenHolds(Dist(t), m);
    DistHolds(t, m);
  }

  // ------------------------------------------------------------------
  // The conversion as it runs
  // ------------------------------------------------------------------

  /** The terms of one product, in the order of the two inner loops. */
  method CrossTerms(xs: seq<Term>, ys: seq<Term>) returns (ts: seq<Term>)
    ensures ts == Cross(xs, ys)
  {
    hide MkAnd;
    ts := [];
    for j := 0 to |xs|
      invariant ts == Cross(xs[..j], ys)
    {
      assert xs[..j + 1][..j] == xs[..j];
      ghost var before := ts;
      for k := 0 to |ys|
        invariant ts == before + Row(xs[j], ys[..k])
      {
        assert ys[..k + 1][..k] == ys[..k];
        var andTerm: seq<Term>;
        if xs[j].kind.And? { andTerm := xs[j].children; } else { andTerm := [xs[j]]; }
        if ys[k].kind.And? { andTerm := andTerm + ys[k].children; } else { andTerm := andTerm + [ys[k]]; }
        ts := ts + [MkAnd(andTerm)];
      }
      assert ys[..|ys|] == ys;
    }
    assert xs[..|xs|] == xs;
  }

  method MultiplyOut(ors: seq<Term>) returns (d: Term)
    requires ors != []
    ensures d == FoldCross(ors)
  {
    hide MkOr, Cross;
    d := ors[0];
    assert ors[..1] == [ors[0]];
    for i := 1 to |ors|
      invariant d == FoldCross(ors[..i])
    {
      assert ors[..i + 1][..i] == ors[..i];
      var newOrTerms := CrossTerms(d.children, ors[i].children);
      d := MkOr(newOrTerms);
    }
    assert ors[..|ors|] == ors;
  }

  method MergeOperands(d: Term, ands: seq<Term>) returns (r: Term)
    ensures r == MkOr(Merge(d.children, ands))
  {
    hide MkOr, MkAnd;
    var finalOrTerms := [];
    for i := 0 to |d.children|
      invariant finalOrTerms == Merge(d.children[..i], ands)
    {
      assert d.children[..i + 1][..i] == d.children[..i];
      var x := d.children[i];
      if x.kind.And? {
        finalOrTerms := finalOrTerms + [MkAnd(x.children + ands)];
      } else {
        finalOrTerms := finalOrTerms + [MkAnd([x] + ands)];
      }
    }
    assert d.children[..|d.children|] == d.children;
    r := MkOr(finalOrTerms);
  }

  method FlattenOrs(ds: seq<Term>) returns (flattened: seq<Term>)
    ensures flattened == Flattened(ds)
  {
    flattened := [];
    for i := 0 to |ds|
      invariant flattened == Flattened(ds[..i])
    {
      assert ds[..i + 1][..i] == ds[..i];
      if ds[i].kind.Or? {
        flattened := flattened + ds[i].children;
      } else {
        flattened := flattened + [ds[i]];
      }
    }
    assert ds[..|ds|] == ds;
  }

  lemma {:induction false} FlattenedNoOrs(ds: seq<Term>)
    requires forall i | 0 <= i < |ds| :: !ds[i].kind.Or?
    ensures Flattened(ds) == ds
  {
    if ds != [] {
      var n := |ds| - 1;
      FlattenedNoOrs(ds[..n]);
      assert Disjuncts(ds[n]) == [ds[n]];
      hide Disjuncts;
      assert ds == ds[..n] + [ds[n]];
    }
  }

  class Distributor {
    var visited: map<Term, Term>

    constructor ()
      ensures visited == map[]
    {
      visited := map[];
    }

    ghost predicate CacheOk()
      reads this
    {
      forall k | k in visited :: visited[k] == Dist(k)
    }

    method DistRec(t: Term) returns (r: Term)
      requires CacheOk()
      modifies this
      ensures CacheOk() && r == Dist(t)
      decreases Rank(t), t, 1
    {
      hide IsDnfLeaf, DistAnd, Flattened, MkOr, ExpandLet;
      if IsDnfLeaf(t) {
        return t;
      }
      if t in visited {
        return visited[t];
      }
      if t.kind.Let? {
        LetRankDrops(t);
        r := DistRec(ExpandLet(t));
      } else if t.kind.Not? {
        return t;
      } else if t.kind.Or? {
        var ds, ors, ands := DistOperands(t.children);
        if ors == [] {
          NoOrs(ds);
          FlattenedNoOrs(ds);
          r := MkOr(ds);
        } else {
          var flattened := FlattenOrs(ds);
          r := MkOr(flattened);
        }
      } else if t.kind.And? {
        var ds, ors, ands := DistOperands(t.children);
        r := Distribute(ds, ors, ands);
      } else {
        return t;
      }
      visited := visited[t := r];
    }

    static method Distribute(ghost ds: seq<Term>, ors: seq<Term>, ands: seq<Term>) returns (r: Term)
      requires ors == Ors(ds) && ands == NonOrs(ds)
      ensures r == DistAnd(ds)
    {
      hide FoldCross, MkAnd, MkOr, Merge, Ors, NonOrs;
      if ors == [] {
        return MkAnd(ands);
      }
      var distributedOr := MultiplyOut(ors);
      if ands != [] {
        distributedOr := MergeOperands(distributedOr, ands);
      }
      return distributedOr;
    }

    method DistOperands(ts: seq<Term>) returns (ds: seq<Term>, ors: seq<Term>, ands: seq<Term>)
      requires CacheOk()
      modifies this
      ensures CacheOk() && ds == DistAll(ts) && ors == Ors(ds) && ands == NonOrs(ds)
      decreases RankAll(ts), ts, 0
    {
      hide Dist;
      ds, ors, ands := [], [], [];
      for i := 0 to |ts|
        invariant CacheOk() && |ds| == i && ors == Ors(ds) && ands == NonOrs(ds)
        invariant forall j | 0 <= j < i :: ds[j] == Dist(ts[j])
      {
        assert HasBinder(ts[i]) ==> AnyHasBinder(ts);
        var d := DistRec(ts[i]);
        assert (ds + [d])[..i] == ds;
        ds := ds + [d];
        if d.kind.Or? {
          ors := ors + [d];
        } else {
          ands := ands + [d];
        }
      }
    }

    /** applyDNFDistributiveLaw. */
    method ApplyDnfDistributiveLaw(t: Term) returns (r: Term)
      requires DistInput(t) && visited == map[]
      modifies this
      ensures r == Flatten(Dist(t)) && IsFlatDnf(r)
      ensures forall m: Model :: Holds(r, m) <==> Holds(t, m) || Weakened(t, m)
    {
      hide Dist, Flatten, IsFlatDnf, Holds, Weakened, DistInput;
      var d := DistRec(t);
      r := Flatten(d);
      DnfLawCorrect(t);
    }
  }

  lemma DnfLawCorrect(t: Term)
    requires DistInput(t)
    ensures IsFlatDnf(Flatten(Dist(t)))
    ensures forall m: Model :: Holds(Flatten(Dist(t)), m) <==> Holds(t, m) || Weakened(t, m)
  {
    hide Dist, Flatten, IsFlatDnf, Holds, Weakened, DistInput;
    DistributionCorrect(t, Model((l: Term) => U(0), (k, n, vs) => U(0), map[]));
    forall m: Model
      ensures Holds(Flatten(Dist(t)), m) <==> Holds(t, m) || Weakened(t, m)
    {
      DistributionCorrect(t, m);
    }
  }

  lemma {:induction false} NoOrs(ds: seq<Term>)
    requires Ors(ds) == []
    ensures forall i | 0 <= i < |ds| :: !ds[i].kind.Or?
  {
    if ds != [] {
      NoOrs(ds[..|ds| - 1]);
      assert ds == ds[..|ds| - 1] + [ds[|ds| - 1]];
    }
  }
}
