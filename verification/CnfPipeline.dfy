// toCNF: negation normal form, then the direct encoding. The table that stands
// in for the atoms before the encoding is not modelled; the encoder fills it.
module CnfPipeline {
  import opened Terms
  import opened Builders
  import opened LetExpansion
  import opened Tseitin
  import opened Implications
  import opened Nnf
  import opened CnfEncoder
  import opened CnfMeaning
  import opened CnfTheorems

  /** No equality of strings is reached with a negation pending: its swap is a
      `distinct` over strings, which the encoder refuses. */
  predicate StringsKept(t: Term, neg: bool)
    decreases Rank(t), t, 1
  {
    if IsAtom(t) then neg && IsStrEq(t) ==> IsArithComp(t)
    else if IsLeafOfEncoding(t) then t.kind.Not? ==> |t.children| == 1
    else if t.kind.Let? then StringsKept(ExpandLet(t), neg)
    else if t.kind.Not? && |t.children| > 0 then
      assert HasBinder(t.children[0]) ==> AnyHasBinder(t.children);
      StringsKept(t.children[0], !neg)
    else if t.kind.And? || t.kind.Or? then AllStringsKept(t.children, neg)
    else if t.kind.Implies? && |t.children| >= 2 then
      assert HasBinder(t.children[0]) || HasBinder(t.children[1]) ==> AnyHasBinder(t.children);
      StringsKept(t.children[0], !neg) && StringsKept(t.children[1], neg)
    else if t.kind.Ite? && |t.children| == 3 then
      assert HasBinder(t.children[0]) || HasBinder(t.children[1]) || HasBinder(t.children[2])
             ==> AnyHasBinder(t.children);
      StringsKept(t.children[0], false) && StringsKept(t.children[0], true)
      && StringsKept(t.children[1], neg) && StringsKept(t.children[2], neg)
    else true
  }

  predicate AllStringsKept(ts: seq<Term>, neg: bool)
    decreases RankAll(ts), ts, 0
  {
    forall i | 0 <= i < |ts| :: StringsKept(ts[i], neg)
  }

  /** What the encoder asks of a formula, in a model and below a number. */
  ghost predicate Encodable(t: Term, n: nat, m: Model) { Supported(t) && Below(t, n) && AtomsNegated(t, m) }

  ghost predicate AllEncodable(ts: seq<Term>, n: nat, m: Model) {
    forall i | 0 <= i < |ts| :: Encodable(ts[i], n, m)
  }

  lemma JunctionEncodable(ts: seq<Term>, n: nat, m: Model)
    requires AllEncodable(ts, n, m)
    ensures Encodable(MkAnd(ts), n, m) && Encodable(MkOr(ts), n, m)
  {
    hide MkAnd, MkOr, Encodable;
    JunctionShape(ts);
    forall t: Term | t.sort == Bool && (t.kind.And? || t.kind.Or?) && |t.children| > 1 && forall c | c in t.children :: c in ts
      ensures Encodable(t, n, m)
    {
      assert forall i | 0 <= i < |t.children| :: t.children[i] in ts;
      NodeEncodable(t, n, m);
    }
    ConstantsEncodable(n, m);
  }

  lemma {:induction false} NodeEncodable(t: Term, n: nat, m: Model)
    requires t.sort == Bool && (t.kind.And? || t.kind.Or?) && |t.children| >= 1 && AllEncodable(t.children, n, m)
    ensures Encodable(t, n, m)
  {
    hide IsArithTerm, IsStrTerm, Negates;
    assert AllSupported(t.children) && AllBelow(t.children, n) && AllAtomsNegated(t.children, m);
  }

  lemma {:induction false} NegatedEncodable(t: Term, n: nat, m: Model)
    requires Encodable(t, n, m)
    ensures Encodable(MkOper(Bool, Not, [t]), n, m)
  {
    hide IsArithTerm, IsStrTerm, Negates;
    var r := MkOper(Bool, Not, [t]);
    assert AllSupported(r.children) && AllBelow(r.children, n) && AllAtomsNegated(r.children, m);
  }

  lemma ConstantsEncodable(n: nat, m: Model)
    ensures Encodable(TrueTerm, n, m) && Encodable(FalseTerm, n, m)
  {
    assert AllBelow([], n);
  }

  lemma PairEncodable(a: Term, b: Term, n: nat, m: Model)
    requires Encodable(a, n, m) && Encodable(b, n, m)
    ensures Encodable(MkAnd([a, b]), n, m) && Encodable(MkOr([a, b]), n, m)
  {
    hide MkAnd, MkOr, Encodable;
    JunctionEncodable([a, b], n, m);
  }

  /** Where normal form leaves a node as it is, negated or not. */
  lemma {:induction false} StopEncodable(t: Term, neg: bool, n: nat, m: Model)
    requires Encodable(t, n, m) && (IsAtom(t) ==> StringsKept(t, neg)) && !(t.kind.Not? && |t.children| == 1)
    ensures Encodable(if neg then MkNot(t) else t, n, m)
  {
    hide IsArithTerm, IsStrTerm, Encodable, NegateComp, Supported;
    if neg {
      if IsTrue(t) || IsFalse(t) {
        ConstantsEncodable(n, m);
      } else if IsComp(t) {
        SwapEncodable(t, n, m);
      } else {
        NegatedEncodable(t, n, m);
      }
    }
  }

  lemma {:induction false} SwapEncodable(t: Term, n: nat, m: Model)
    requires Encodable(t, n, m) && IsComp(t) && (IsStrEq(t) ==> IsArithComp(t))
    ensures Encodable(NegateComp(t), n, m)
  {
    hide IsArithTerm, IsStrTerm, Negates, Supported;
    var r := NegateComp(t);
    SupportedIsBool(t);
    ConstantsEncodable(n, m);
    if r != TrueTerm && r != FalseTerm {
      assert r.children == t.children && IsAtom(r) && r.sort == Bool;
      SwappedNegates(t, m);
      AtomEncodable(r, n, m);
    }
  }

  lemma {:induction false} AtomEncodable(t: Term, n: nat, m: Model)
    requires IsAtom(t) && t.sort == Bool && AllBelow(t.children, n) && !t.kind.TempVar? && Negates(t, m)
    ensures Encodable(t, n, m)
  {
    hide IsAtom;
  }

  /** Normal form keeps a formula encodable, unless an equality of strings ends
      up negated. */
  lemma {:induction false} NnfEncodable(t: Term, neg: bool, n: nat, m: Model)
    requires Encodable(t, n, m) && StringsKept(t, neg)
    ensures Encodable(ToNnf(t, neg), n, m)
    decreases Rank(t), t, 1
  {
    hide IsAtom, MkNot, MkAnd, MkOr, Supported, AtomsNegated, Below;
    Parts(t, neg, n, m);
    if IsBoolLeaf(t) || IsAtom(t) || !OnTheWay(t.kind) {
      StopEncodable(t, neg, n, m);
      StopsHere(t, neg);
    } else if t.kind.Let? {
      NnfEncodable(ExpandLet(t), neg, n, m);
    } else if t.kind.Not? {
      assert HasBinder(t.children[0]) ==> AnyHasBinder(t.children);
      NnfEncodable(t.children[0], !neg, n, m);
    } else if t.kind.And? || t.kind.Or? {
      NnfAllEncodable(t.children, neg, n, m);
      JunctionEncodable(ToNnfAll(t.children, neg), n, m);
    } else if t.kind.Implies? && |t.children| >= 2 {
      assert HasBinder(t.children[0]) || HasBinder(t.children[1]) ==> AnyHasBinder(t.children);
      NnfEncodable(t.children[0], !neg, n, m);
      NnfEncodable(t.children[1], neg, n, m);
      PairEncodable(ToNnf(t.children[0], !neg), ToNnf(t.children[1], neg), n, m);
    } else if t.kind.Ite? && |t.children| == 3 {
      IteEncodable(t, neg, n, m);
    } else {
      StopEncodable(t, neg, n, m);
    }
  }

  /** What an encodable formula that keeps its strings is made of. */
  lemma {:induction false} Parts(t: Term, neg: bool, n: nat, m: Model)
    requires Encodable(t, n, m) && StringsKept(t, neg)
    ensures IsAtom(t) || IsBoolLeaf(t) ==> !OnTheWay(t.kind)
    ensures t.kind.Not? ==> |t.children| == 1
    ensures !IsAtom(t) && !IsBoolLeaf(t) && OnTheWay(t.kind) ==> WayOn(t, neg, n, m)
  {
    hide IsArithTerm, IsStrTerm, Encodable, WayOn;
    AtomKinds(t);
    SupportedNot(t, neg, n, m);
    if !IsAtom(t) && !IsBoolLeaf(t) && OnTheWay(t.kind) {
      if IsLeafOfEncoding(t) {
        LiteralParts(t, neg, n, m);
      } else {
        NodeParts(t, neg, n, m);
      }
    }
  }

  /** The nodes normal form goes through. */
  predicate OnTheWay(k: Kind) { k.Let? || k.Not? || k.And? || k.Or? || k.Implies? || k.Ite? }

  ghost predicate WayOn(t: Term, neg: bool, n: nat, m: Model)
    requires t.kind.Not? ==> |t.children| == 1
  {
    && (t.kind.Let? ==> Encodable(ExpandLet(t), n, m) && StringsKept(ExpandLet(t), neg))
    && (!t.kind.Let? ==> AllEncodable(t.children, n, m))
    && (t.kind.And? || t.kind.Or? ==> AllStringsKept(t.children, neg))
    && (t.kind.Not? ==> StringsKept(t.children[0], !neg))
    && (t.kind.Implies? && |t.children| >= 2 ==> StringsKept(t.children[0], !neg) && StringsKept(t.children[1], neg))
    && (t.kind.Ite? && |t.children| == 3 ==>
          && StringsKept(t.children[0], false) && StringsKept(t.children[0], true)
          && StringsKept(t.children[1], neg) && StringsKept(t.children[2], neg)
          && t.children[1].sort == Bool)
  }

  lemma {:induction false} AtomKinds(t: Term)
    ensures IsAtom(t) || IsBoolLeaf(t) ==> !OnTheWay(t.kind)
  {
    hide IsArithTerm, IsStrTerm;
  }

  lemma {:induction false} SupportedNot(t: Term, neg: bool, n: nat, m: Model)
    requires Encodable(t, n, m) && StringsKept(t, neg)
    ensures t.kind.Not? ==> |t.children| == 1
  {
    AtomKinds(t);
    hide IsAtom;
  }

  lemma {:induction false} LiteralParts(t: Term, neg: bool, n: nat, m: Model)
    requires Encodable(t, n, m) && t.kind.Not? && IsLeafOfEncoding(t) && !IsAtom(t) && |t.children| == 1
    ensures WayOn(t, neg, n, m)
  {
    hide IsArithTerm, IsStrTerm, Negates;
    var v := t.children[0];
    assert IsVBool(v) && !IsAtom(v) && IsLeafOfEncoding(v) && !v.kind.Not?;
    assert AllBelow(t.children, n);
    assert Encodable(v, n, m);
  }

  lemma {:induction false} NodeParts(t: Term, neg: bool, n: nat, m: Model)
    requires Encodable(t, n, m) && StringsKept(t, neg) && !IsAtom(t) && !IsLeafOfEncoding(t)
    requires OnTheWay(t.kind) && (t.kind.Not? ==> |t.children| == 1)
    ensures WayOn(t, neg, n, m)
  {
    hide IsAtom, IsLeafOfEncoding;
    if t.kind.Let? {
      ExpandBelow(t, n);
    } else {
      SupportedAreBool(t.children);
      assert AllBelow(t.children, n) && AllSupported(t.children) && AllAtomsNegated(t.children, m);
    }
  }

  lemma {:induction false} StopsHere(t: Term, neg: bool)
    requires !OnTheWay(t.kind)
    ensures ToNnf(t, neg) == if neg then MkNot(t) else t
  {
    hide MkNot;
  }

  lemma {:induction false} IteEncodable(t: Term, neg: bool, n: nat, m: Model)
    requires Encodable(t, n, m) && StringsKept(t, neg) && !IsAtom(t) && !IsBoolLeaf(t) && t.kind.Ite? && |t.children| == 3
    ensures Encodable(ToNnf(t, neg), n, m)
    decreases Rank(t), t, 0
  {
    hide IsAtom, MkAnd, MkOr, Encodable, StringsKept;
    Parts(t, neg, n, m);
    var a, b, c := t.children[0], t.children[1], t.children[2];
    assert HasBinder(a) || HasBinder(b) || HasBinder(c) ==> AnyHasBinder(t.children);
    NnfEncodable(a, false, n, m);
    NnfEncodable(a, true, n, m);
    NnfEncodable(b, neg, n, m);
    NnfEncodable(c, neg, n, m);
    PairEncodable(ToNnf(a, false), ToNnf(b, neg), n, m);
    PairEncodable(ToNnf(a, true), ToNnf(c, neg), n, m);
    PairEncodable(MkAnd([ToNnf(a, false), ToNnf(b, neg)]), MkAnd([ToNnf(a, true), ToNnf(c, neg)]), n, m);
  }

  lemma {:induction false} NnfAllEncodable(ts: seq<Term>, neg: bool, n: nat, m: Model)
    requires AllEncodable(ts, n, m) && AllStringsKept(ts, neg)
    ensures AllEncodable(ToNnfAll(ts, neg), n, m)
    decreases RankAll(ts), ts, 0
  {
    hide Encodable, StringsKept, ToNnf, HasBinder;
    if ts != [] {
      var k := |ts| - 1;
      assert AnyHasBinder(ts[..k]) || HasBinder(ts[k]) ==> AnyHasBinder(ts);
      NnfAllEncodable(ts[..k], neg, n, m);
      NnfEncodable(ts[k], neg, n, m);
    }
  }

  /** Normal form and encoding in a row: a valuation satisfies the formula exactly
      if it extends to the clauses. */
  lemma ToCnfCorrect(t: Term, base: nat, m: Model)
    requires Encodable(t, base, m) && StringsKept(t, false) && NnfInput(t, false, ReadIn(m))
    requires Faithful(ToNnf(t, false), false, false)
    ensures Supported(ToNnf(t, false))
    ensures Holds(t, m) <==> exists m' :: AgreeBelow(m, m', base) && SatisfiesCnf(ToNnf(t, false), base, m')
  {
    hide Holds, Supported, Below, AtomsNegated, SatisfiesCnf, AgreeBelow, Faithful, NnfInput, ToNnf, StringsKept;
    NnfEncodable(t, false, base, m);
    NnfHolds(t, false, m);
    TopLevelEquisatisfiable(ToNnf(t, false), base, m);
  }

  /** A negated equality of strings: the encoder takes it as it is, and refuses
      what normal form makes of it. */
  lemma {:induction false} NegatedStringRefused(a: Term, st: Enc)
    requires IsStrEq(a) && a.sort == Bool && a.children[0].sort == Str
    ensures var n := ToNnf(Negated(a), false);
            && Supported(Negated(a)) && n == MkOper(Bool, Distinct, a.children)
            && !Supported(n) && (n !in st.visited ==> Encode(n, st) == (FalseTerm, st))
  {
    hide IsArithTerm, IsStrTerm;
    TermsApart(a.children[0]);
    assert AllSupported([a]);
    var n := MkOper(Bool, Distinct, a.children);
    assert !IsAtom(n) && !IsLeafOfEncoding(n) && !AllBool(n.children);
    NotAllSupported(a.children);
  }

  lemma NotAllSupported(ts: seq<Term>)
    requires ts != [] && ts[0].sort == Str
    ensures !AllSupported(ts)
  {
    if AllSupported(ts) {
      SupportedIsBool(ts[0]);
      assert false;
    }
  }
}
