// toDNF: elimination, negation normal form, distribution and flattening.
module DnfPipeline {
  import opened Terms
  import opened Builders
  import opened LetExpansion
  import opened Tseitin
  import opened Implications
  import opened Nnf
  import opened DnfElimination
  import opened DnfRounds
  import opened DnfDistribution

  /** What elimination leaves behind is ready for the normal form. */
  lemma {:induction false} InputIsNnfInput(t: Term, neg: bool, ok: Condition)
    requires DnfInput(t, ok)
    ensures NnfInput(t, neg, ok)
    decreases Rank(t), t
  {
    hide IsArithTerm, IsStrTerm, IsBoolLeaf, HasBinder;
    if IsEnd(t) {
      LeafIsNnfInput(t, neg, ok);
    } else if t.kind.Let? {
      LetRankDrops(t);
      InputIsNnfInput(ExpandLet(t), neg, ok);
    } else {
      LookedRank(t);
      InputIsBool(t, ok);
      forall i, n | 0 <= i < |Looked(t)|
        ensures NnfInput(Looked(t)[i], n, ok) && Looked(t)[i].sort == Bool
      {
        InputIsNnfInput(Looked(t)[i], n, ok);
        InputIsBool(Looked(t)[i], ok);
      }
      ConnectiveIsNnfInput(t, neg, ok);
    }
  }

  lemma LeafIsNnfInput(t: Term, neg: bool, ok: Condition)
    requires DnfInput(t, ok) && IsEnd(t)
    ensures NnfInput(t, neg, ok)
  {
    if t.kind.Not? {
      var c := t.children[0];
      assert IsBoolLeaf(c);
      assert forall n: bool :: NnfInput(c, n, ok);
    }
  }

  lemma ConnectiveIsNnfInput(t: Term, neg: bool, ok: Condition)
    requires DnfInput(t, ok) && !IsEnd(t) && !t.kind.Let?
    requires t.sort == Bool && !IsComp(t)
    requires forall i, n | 0 <= i < |Looked(t)| :: NnfInput(Looked(t)[i], n, ok) && Looked(t)[i].sort == Bool
    ensures NnfInput(t, neg, ok)
  {
    hide IsArithTerm, IsStrTerm, IsEnd;
    if t.kind.Implies? {
      assert NnfInput(Looked(t)[0], !neg, ok) && NnfInput(Looked(t)[1], neg, ok);
    } else if t.kind.Ite? {
      assert NnfInput(Looked(t)[0], true, ok) && NnfInput(Looked(t)[0], false, ok);
      assert NnfInput(Looked(t)[1], neg, ok) && NnfInput(Looked(t)[2], neg, ok);
    } else {
      forall n: bool
        ensures AllNnfInput(t.children, n, ok)
      {
        assert forall i | 0 <= i < |t.children| :: NnfInput(Looked(t)[i], n, ok);
      }
    }
  }

  /** Without connectives to eliminate or nodes to refuse, the normal form is of
      and, or and literals: what the distributive law is for. */
  lemma {:induction false} FreeIsDistInput(t: Term, neg: bool)
    requires DnfInput(t, Any()) && Free(t) && Positive(t, !neg)
    ensures DistInput(ToNnf(t, neg))
    decreases Rank(t), t, 1
  {
    hide MkNot, MkAnd, MkOr, DistInput, IsEnd, HasBinder, Refused, IsStrEq;
    if IsEnd(t) {
      LeafIsDistInput(t, neg);
    } else if t.kind.Let? {
      LetRankDrops(t);
      FreeIsDistInput(ExpandLet(t), neg);
    } else {
      LookedRank(t);
      NodeKind(t);
      if t.kind.Not? {
        assert Free(Looked(t)[0]) && DnfInput(Looked(t)[0], Any()) && Positive(t.children[0], false);
        FalseIsPositive(t.children[0], neg);
        FreeIsDistInput(t.children[0], !neg);
      } else {
        assert forall i | 0 <= i < |t.children| :: DnfInput(Looked(t)[i], Any()) && Free(Looked(t)[i]);
        FreesAreDistInputs(t.children, neg);
        JunctionIsDistInput(ToNnfAll(t.children, neg));
      }
    }
  }

  lemma NodeKind(t: Term)
    requires DnfInput(t, Any()) && !IsEnd(t) && !t.kind.Let?
    ensures !IsBoolLeaf(t) && (t.kind.Not? ==> |t.children| == 1) && (IsJunction(t.kind) ==> Looked(t) == t.children)
  {
  }

  lemma {:induction false} LeafIsDistInput(t: Term, neg: bool)
    requires DnfInput(t, Any()) && IsEnd(t) && Positive(t, !neg)
    ensures DistInput(ToNnf(t, neg))
  {
    hide IsArithTerm, IsStrTerm;
    if t.kind.Not? {
      var c := t.children[0];
      assert IsBoolLeaf(c) && IsEnd(c) && ToNnf(t, neg) == (if neg then c else MkNot(c));
    } else {
      assert ToNnf(t, neg) == if neg then MkNot(t) else t;
      if neg && IsComp(t) {
        SwapIsEnd(t);
      }
    }
  }

  lemma JunctionIsDistInput(ts: seq<Term>)
    requires AllDistInput(ts)
    ensures DistInput(MkAnd(ts)) && DistInput(MkOr(ts))
  {
    hide MkAnd, MkOr;
    JunctionShape(ts);
    assert forall c | c in ts :: DistInput(c);
    NodeIsDistInput(MkAnd(ts), ts);
    NodeIsDistInput(MkOr(ts), ts);
  }

  lemma NodeIsDistInput(t: Term, ts: seq<Term>)
    requires forall c | c in ts :: DistInput(c)
    ensures (t.kind.And? || t.kind.Or?) && t.sort == Bool && (forall c | c in t.children :: c in ts) ==> DistInput(t)
    ensures t == TrueTerm || t == FalseTerm ==> DistInput(t)
  {
  }

  lemma {:induction false} FreesAreDistInputs(ts: seq<Term>, neg: bool)
    requires forall i | 0 <= i < |ts| :: DnfInput(ts[i], Any()) && Free(ts[i])
    requires AllPositive(ts, !neg)
    ensures AllDistInput(ToNnfAll(ts, neg))
    decreases RankAll(ts), ts, 0
  {
    hide ToNnf, DistInput, DnfInput, Free, HasBinder, Positive;
    if ts != [] {
      var n := |ts| - 1;
      assert AnyHasBinder(ts[..n]) || HasBinder(ts[n]) ==> AnyHasBinder(ts);
      FreesAreDistInputs(ts[..n], neg);
      FreeIsDistInput(ts[n], neg);
    }
  }

  /** The four stages in a row. `nnf` is the formula the law is applied to, and
      `supported` says that no stage met a node it refuses with an error. So it
      is for positive formulas whenever the first pass of elimination overlooks
      no connective, and in particular when they share no subformula with a
      connective to eliminate. */
  method ToDnf(t: Term) returns (r: Term, supported: bool, ghost nnf: Term)
    requires DnfInput(t, Any())
    ensures supported <==> !ConversionRaises(t) && DistInput(nnf)
    ensures Positive(t, true) && !Overlooks(t, map[], false) ==> supported
    ensures Positive(t, true) && Unshared(t) ==> supported
    ensures !ConversionRaises(t) ==> forall m: Model :: DnfInput(t, ReadIn(m)) ==> (Holds(nnf, m) <==> Holds(t, m))
    ensures supported ==> IsFlatDnf(r)
    ensures supported ==> forall m: Model :: DnfInput(t, ReadIn(m)) ==> (Holds(r, m) <==> Holds(t, m) || Weakened(nnf, m))
  {
    hide DnfInput, NnfInput, DistInput, Holds, ToNnf, Dist, Flatten, Weakened, IsFlatDnf, Overlooks, Unshared, Free, TableFree;
    hide LastPositive, Positive, ConversionRaises;
    var eliminator := new Eliminator();
    var e, raised, rounds := eliminator.ToDnfEliminateAll(t);
    r, nnf := ErrorTerm, ErrorTerm;
    supported := false;
    if raised {
      return;
    }
    var converter := new Converter();
    var n := converter.Nnf(e);
    nnf := n;
    forall m: Model | DnfInput(t, ReadIn(m))
      ensures Holds(n, m) <==> Holds(t, m)
    {
      InputIsNnfInput(e, false, ReadIn(m));
      NnfHolds(e, false, m);
    }
    if Free(e) && Positive(e, true) {
      FreeIsDistInput(e, false);
    }
    supported := DistInput(n);
    if supported {
      var distributor := new Distributor();
      r := distributor.ApplyDnfDistributiveLaw(n);
    }
  }

  /** With two operands each, implications are read and comparisons negated
      right in every model. */
  lemma BinaryIsRead(t: Term)
    requires DnfInput(t, TwoOperands())
    ensures DnfInput(t, Any()) && forall m: Model :: DnfInput(t, ReadIn(m))
  {
    hide DnfInput, ReadIn;
    InputIsAny(t, TwoOperands());
    forall m: Model
      ensures DnfInput(t, ReadIn(m))
    {
      BinaryReads(t, m);
    }
  }
}
