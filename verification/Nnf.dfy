// Negation normal form: toNNF(expr, is_not).
module Nnf {
  import opened Terms
  import opened Builders
  import opened LetExpansion
  import opened Tseitin
  import opened Implications
  import Grammar

  predicate IsBoolLeaf(t: Term) { IsCBool(t) || IsVBool(t) }

  /** Pushes a pending negation down to the atoms. Connectives other than not,
      and, or, => and ite count as atoms here. */
  function ToNnf(t: Term, neg: bool): Term
    decreases Rank(t), t, 1
  {
    if IsBoolLeaf(t) then (if neg then MkNot(t) else t)
    else if t.kind.Let? then ToNnf(ExpandLet(t), neg)
    else if t.kind.Not? && |t.children| > 0 then
      assert HasBinder(t.children[0]) ==> AnyHasBinder(t.children);
      ToNnf(t.children[0], !neg)
    else if t.kind.And? then
      var cs := ToNnfAll(t.children, neg);
      if neg then MkOr(cs) else MkAnd(cs)
    else if t.kind.Or? then
      var cs := ToNnfAll(t.children, neg);
      if neg then MkAnd(cs) else MkOr(cs)
    else if t.kind.Implies? && |t.children| >= 2 then
      assert HasBinder(t.children[0]) || HasBinder(t.children[1]) ==> AnyHasBinder(t.children);
      var a, b := t.children[0], t.children[1];
      if neg then MkAnd([ToNnf(a, false), ToNnf(b, true)])
      else MkOr([ToNnf(a, true), ToNnf(b, false)])
    else if t.kind.Ite? && |t.children| == 3 && t.children[1].sort == Bool then
      assert HasBinder(t.children[0]) || HasBinder(t.children[1]) || HasBinder(t.children[2])
             ==> AnyHasBinder(t.children);
      var a, b, c := t.children[0], t.children[1], t.children[2];
      MkOr([MkAnd([ToNnf(a, false), ToNnf(b, neg)]), MkAnd([ToNnf(a, true), ToNnf(c, neg)])])
    else if neg then MkNot(t)
    else t
  }

  function ToNnfAll(ts: seq<Term>, neg: bool): (rs: seq<Term>)
    ensures |rs| == |ts|
    decreases RankAll(ts), ts, 0
  {
    if ts == [] then []
    else
      var n := |ts| - 1;
      assert AnyHasBinder(ts[..n]) ==> AnyHasBinder(ts);
      ToNnfAll(ts[..n], neg) + [ToNnf(ts[n], neg)]
  }

  /** Inputs on which pushing a negation is sound: implications that meet a
      condition and, where a negation arrives, comparisons that meet it. */
  predicate NnfInput(t: Term, neg: bool, ok: Condition)
    decreases Rank(t), t, 1
  {
    if IsBoolLeaf(t) then true
    else if t.kind.Let? then WellFormed(t) && NnfInput(ExpandLet(t), neg, ok)
    else if t.kind.Not? then
      t.sort == Bool && |t.children| == 1 && AllNnfInput(t.children, !neg, ok)
    else if t.kind.And? || t.kind.Or? then t.sort == Bool && AllNnfInput(t.children, neg, ok)
    else if t.kind.Implies? then
      t.sort == Bool && |t.children| >= 2 && AllBool(t.children) && ok(t)
      && (assert HasBinder(t.children[0]) || HasBinder(t.children[1]) ==> AnyHasBinder(t.children);
          NnfInput(t.children[0], !neg, ok) && NnfInput(t.children[1], neg, ok))
    else if t.kind.Ite? then
      t.sort == Bool && |t.children| == 3 && AllBool(t.children)
      && (assert HasBinder(t.children[0]) || HasBinder(t.children[1]) || HasBinder(t.children[2])
                 ==> AnyHasBinder(t.children);
          NnfInput(t.children[0], true, ok) && NnfInput(t.children[0], false, ok)
          && NnfInput(t.children[1], neg, ok) && NnfInput(t.children[2], neg, ok))
    else neg ==> t.sort == Bool && (IsComp(t) ==> ok(t))
  }

  predicate AllNnfInput(ts: seq<Term>, neg: bool, ok: Condition)
    decreases RankAll(ts), ts, 0
  {
    forall i | 0 <= i < |ts| :: NnfInput(ts[i], neg, ok)
  }

  /** A weaker condition admits more. */
  lemma {:induction false} NnfInputWeakens(t: Term, neg: bool, ok: Condition, more: Condition)
    requires NnfInput(t, neg, ok) && Weaker(ok, more)
    ensures NnfInput(t, neg, more)
    decreases Rank(t), t, 1
  {
    hide IsArithTerm, IsStrTerm;
    assert Judged(t) <==> t.sort == Bool && (t.kind.Implies? || IsComp(t));
    if IsBoolLeaf(t) {
    } else if t.kind.Let? {
      NnfInputWeakens(ExpandLet(t), neg, ok, more);
    } else if t.kind.Not? || t.kind.And? || t.kind.Or? {
      NnfInputsWeaken(t.children, neg != t.kind.Not?, ok, more);
    } else if t.kind.Implies? {
      assert HasBinder(t.children[0]) || HasBinder(t.children[1]) ==> AnyHasBinder(t.children);
      NnfInputWeakens(t.children[0], !neg, ok, more);
      NnfInputWeakens(t.children[1], neg, ok, more);
    } else if t.kind.Ite? {
      assert HasBinder(t.children[0]) || HasBinder(t.children[1]) || HasBinder(t.children[2])
             ==> AnyHasBinder(t.children);
      NnfInputWeakens(t.children[0], true, ok, more);
      NnfInputWeakens(t.children[0], false, ok, more);
      NnfInputWeakens(t.children[1], neg, ok, more);
      NnfInputWeakens(t.children[2], neg, ok, more);
    }
  }

  lemma {:induction false} NnfInputsWeaken(ts: seq<Term>, neg: bool, ok: Condition, more: Condition)
    requires AllNnfInput(ts, neg, ok) && Weaker(ok, more)
    ensures AllNnfInput(ts, neg, more)
    decreases RankAll(ts), ts, 0
  {
    forall i | 0 <= i < |ts|
      ensures NnfInput(ts[i], neg, more)
    {
      assert HasBinder(ts[i]) ==> AnyHasBinder(ts);
      NnfInputWeakens(ts[i], neg, ok, more);
    }
  }

  lemma IteHolds(t: Term, m: Model)
    requires t.kind.Ite? && t.sort == Bool && |t.children| == 3 && AllBool(t.children)
    ensures Holds(t, m) <==> if Holds(t.children[0], m) then Holds(t.children[1], m) else Holds(t.children[2], m)
  {
    hide Value, Holds;
    ConnectiveHolds(t, m);
  }

  lemma PairHolds(a: Term, b: Term, m: Model)
    ensures Holds(MkAnd([a, b]), m) <==> Holds(a, m) && Holds(b, m)
    ensures Holds(MkOr([a, b]), m) <==> Holds(a, m) || Holds(b, m)
  {
    hide Holds, MkAnd, MkOr;
    var ts := [a, b];
    MkAndHolds(ts, m);
    MkOrHolds(ts, m);
    assert ts[0] == a && ts[1] == b;
  }

  /** An implication of any number of operands whose first two are converted
      right: its normal form is right exactly when it can be read from them. */
  lemma {:induction false} NnfImplicationExact(t: Term, neg: bool, m: Model)
    requires t.kind.Implies? && t.sort == Bool && |t.children| >= 2 && AllBool(t.children)
    requires Holds(ToNnf(t.children[0], !neg), m) == (neg == Holds(t.children[0], m))
    requires Holds(ToNnf(t.children[1], neg), m) == (neg != Holds(t.children[1], m))
    ensures Holds(ToNnf(t, neg), m) == (neg != Holds(t, m)) <==> ReadsTwo(t, m)
  {
    hide Holds, MkAnd, MkOr, ReadsTwo;
    var a, b := t.children[0], t.children[1];
    ReadsTwoExact(t, m);
    PairHolds(ToNnf(a, !neg), ToNnf(b, neg), m);
  }

  /** The normal form under a pending negation is the formula or its negation,
      in every model that reads its implications right and negates right the
      comparisons a negation reaches. */
  lemma {:induction false} NnfHolds(t: Term, neg: bool, m: Model)
    requires NnfInput(t, neg, ReadIn(m))
    ensures Holds(ToNnf(t, neg), m) == (neg != Holds(t, m))
    decreases Rank(t), t, 1
  {
    hide Holds, MkNot, MkAnd, MkOr, IsArithTerm, IsStrTerm, ReadsTwo;
    if IsBoolLeaf(t) {
      LeafNegatable(t);
      MkNotHolds(t, m);
    } else if t.kind.Let? {
      NnfHolds(ExpandLet(t), neg, m);
      LetHolds(t, m);
    } else if t.kind.Not? {
      assert HasBinder(t.children[0]) ==> AnyHasBinder(t.children);
      assert NnfInput(t.children[0], !neg, ReadIn(m));
      NnfHolds(t.children[0], !neg, m);
      NotHolds(t, m);
    } else if t.kind.And? || t.kind.Or? {
      var cs := ToNnfAll(t.children, neg);
      NnfAllHold(t.children, neg, m);
      MkAndHolds(cs, m);
      MkOrHolds(cs, m);
      if t.kind.And? {
        AndHolds(t, m);
      } else {
        OrHolds(t, m);
      }
    } else if t.kind.Implies? {
      var a, b := t.children[0], t.children[1];
      assert HasBinder(a) || HasBinder(b) ==> AnyHasBinder(t.children);
      NnfHolds(a, !neg, m);
      NnfHolds(b, neg, m);
      NnfImplicationExact(t, neg, m);
    } else if t.kind.Ite? {
      var a, b, c := t.children[0], t.children[1], t.children[2];
      assert HasBinder(a) || HasBinder(b) || HasBinder(c) ==> AnyHasBinder(t.children);
      IteHolds(t, m);
      NnfHolds(a, false, m);
      NnfHolds(a, true, m);
      NnfHolds(b, neg, m);
      NnfHolds(c, neg, m);
      PairHolds(ToNnf(a, false), ToNnf(b, neg), m);
      PairHolds(ToNnf(a, true), ToNnf(c, neg), m);
      PairHolds(MkAnd([ToNnf(a, false), ToNnf(b, neg)]), MkAnd([ToNnf(a, true), ToNnf(c, neg)]), m);
    } else if neg && !IsComp(t) {
      MkNotHolds(t, m);
    }
  }

  lemma LeafNegatable(t: Term)
    requires IsBoolLeaf(t)
    ensures Negatable(t)
  {
  }

  lemma {:induction false} NnfAllHold(ts: seq<Term>, neg: bool, m: Model)
    requires AllNnfInput(ts, neg, ReadIn(m))
    ensures forall i | 0 <= i < |ts| :: Holds(ToNnfAll(ts, neg)[i], m) == (neg != Holds(ts[i], m))
    decreases RankAll(ts), ts, 0
  {
    hide Holds, ToNnf, NnfInput;
    if ts != [] {
      var n := |ts| - 1;
      assert AnyHasBinder(ts[..n]) ==> AnyHasBinder(ts);
      NnfAllHold(ts[..n], neg, m);
      NnfHolds(ts[n], neg, m);
    }
  }

  /** No negation, implication or Boolean ite is left in the and/or skeleton,
      except negations of terms that are none of these and no comparisons. */
  predicate IsNnf(t: Term)
    decreases t, 1
  {
    match t.kind
    case And => AllNnf(t.children)
    case Or => AllNnf(t.children)
    case Not => |t.children| == 0 || (!IsSkeleton(t.children[0]) && !Grammar.IsComparison(t.children[0]))
    case _ => !IsSkeleton(t)
  }

  predicate AllNnf(ts: seq<Term>)
    decreases ts, 0
  {
    forall i | 0 <= i < |ts| :: IsNnf(ts[i])
  }

  predicate IsSkeleton(t: Term) {
    match t.kind
    case Not => |t.children| > 0
    case And => true
    case Or => true
    case Let => true
    case Implies => |t.children| >= 2
    case Ite => |t.children| == 3 && t.children[1].sort == Bool
    case _ => false
  }

  lemma JunctionIsNnf(ts: seq<Term>)
    requires AllNnf(ts)
    ensures IsNnf(MkAnd(ts)) && IsNnf(MkOr(ts))
  {
    hide MkAnd, MkOr;
    JunctionShape(ts);
    assert forall c | c in ts :: IsNnf(c);
    NodeIsNnf(MkAnd(ts), ts);
    NodeIsNnf(MkOr(ts), ts);
  }

  lemma NodeIsNnf(t: Term, ts: seq<Term>)
    requires forall c | c in ts :: IsNnf(c)
    ensures (t.kind.And? || t.kind.Or?) && (forall c | c in t.children :: c in ts) ==> IsNnf(t)
    ensures t == TrueTerm || t == FalseTerm ==> IsNnf(t)
  {
  }

  lemma NegationIsNnf(t: Term)
    requires !IsSkeleton(t)
    ensures IsNnf(MkNot(t))
  {
    assert Grammar.IsComparison(t) <==> IsComp(t);
    if IsComp(t) && !IsBoolLeaf(t) {
      assert !IsSkeleton(NegateComp(t));
    }
  }

  lemma {:induction false} NnfShape(t: Term, neg: bool)
    ensures IsNnf(ToNnf(t, neg))
    decreases Rank(t), t, 1
  {
    hide MkNot, MkAnd, MkOr, IsNnf;
    if IsBoolLeaf(t) {
      NegationIsNnf(t);
      PlainIsNnf(t);
    } else if t.kind.Let? {
      NnfShape(ExpandLet(t), neg);
    } else if t.kind.Not? && |t.children| > 0 {
      assert HasBinder(t.children[0]) ==> AnyHasBinder(t.children);
      NnfShape(t.children[0], !neg);
    } else if t.kind.And? || t.kind.Or? {
      NnfShapeAll(t.children, neg);
      JunctionIsNnf(ToNnfAll(t.children, neg));
    } else if t.kind.Implies? && |t.children| >= 2 {
      assert HasBinder(t.children[0]) || HasBinder(t.children[1]) ==> AnyHasBinder(t.children);
      NnfShape(t.children[0], !neg);
      NnfShape(t.children[1], neg);
      JunctionIsNnf([ToNnf(t.children[0], !neg), ToNnf(t.children[1], neg)]);
    } else if t.kind.Ite? && |t.children| == 3 && t.children[1].sort == Bool {
      IteShape(t, neg);
    } else {
      NegationIsNnf(t);
      PlainIsNnf(t);
    }
  }

  lemma PlainIsNnf(t: Term)
    requires !IsSkeleton(t)
    ensures IsNnf(t)
  {
  }

  lemma {:induction false} IteShape(t: Term, neg: bool)
    requires t.kind.Ite? && |t.children| == 3 && t.children[1].sort == Bool && !IsBoolLeaf(t)
    ensures IsNnf(ToNnf(t, neg))
    decreases Rank(t), t, 0
  {
    hide MkNot, MkAnd, MkOr, IsNnf;
    var a, b, c := t.children[0], t.children[1], t.children[2];
    assert HasBinder(a) || HasBinder(b) || HasBinder(c) ==> AnyHasBinder(t.children);
    NnfShape(a, false);
    NnfShape(a, true);
    NnfShape(b, neg);
    NnfShape(c, neg);
    var p, q := [ToNnf(a, false), ToNnf(b, neg)], [ToNnf(a, true), ToNnf(c, neg)];
    JunctionIsNnf(p);
    JunctionIsNnf(q);
    JunctionIsNnf([MkAnd(p), MkAnd(q)]);
  }

  lemma {:induction false} NnfShapeAll(ts: seq<Term>, neg: bool)
    ensures AllNnf(ToNnfAll(ts, neg))
    decreases RankAll(ts), ts, 0
  {
    hide ToNnf, IsNnf;
    if ts != [] {
      var n := |ts| - 1;
      assert AnyHasBinder(ts[..n]) ==> AnyHasBinder(ts);
      NnfShapeAll(ts[..n], neg);
      NnfShape(ts[n], neg);
    }
  }

  const BoolA := Node(Bool, Var, "a", [])
  const BoolB := Node(Bool, Var, "b", [])
  const BoolC := Node(Bool, Var, "c", [])

  /** An implication of three operands loses the third. With `a` and `b` true
      and `c` false the formula fails and its normal form holds; with `a` true
      and `b` false it is the other way round. */
  lemma NnfDropsConsequent() returns (t: Term, m: Model, m': Model)
    ensures t == Node(Bool, Implies, "=>", [BoolA, BoolB, BoolC])
    ensures Holds(ToNnf(t, false), m) && !Holds(t, m)
    ensures !Holds(ToNnf(t, false), m') && Holds(t, m')
  {
    hide Value, Holds, ToNnf, ReadsTwo;
    t := Node(Bool, Implies, "=>", [BoolA, BoolB, BoolC]);
    m := Model((l: Term) => B(l == BoolA || l == BoolB), (k, n, vs) => U(0), map[]);
    m' := Model((l: Term) => B(l == BoolA), (k, n, vs) => U(0), map[]);
    TernaryValue(t, m);
    TernaryValue(t, m');
  }

  lemma TernaryValue(t: Term, m: Model)
    requires t == Node(Bool, Implies, "=>", [BoolA, BoolB, BoolC])
    ensures Holds(t, m) <==> (AsBool(m.leaf(BoolA)) && AsBool(m.leaf(BoolB)) ==> AsBool(m.leaf(BoolC)))
    ensures Holds(ToNnf(t, false), m) <==> (AsBool(m.leaf(BoolA)) ==> AsBool(m.leaf(BoolB)))
  {
    hide Value, Holds, MkOr, MkNot;
    LeafHolds(BoolA, m);
    LeafHolds(BoolB, m);
    LeafHolds(BoolC, m);
    ConnectiveHolds(t, m);
    var bs := Truths(t.children, m);
    assert AllOf(bs[..2]) <==> bs[0] && bs[1];
    TernaryNnf(t);
    MkNotHolds(BoolA, m);
    PairHolds(MkNot(BoolA), BoolB, m);
  }

  /** `(not (and (= x y z) a))` over integers or strings becomes
      `(or (distinct x y z) (not a))`: with exactly two of them equal and `a`
      true the formula holds and its normal form does not. */
  lemma NnfSwapsChain(s: Sort) returns (t: Term, m: Model)
    requires s == Int || s == Str
    ensures t == Node(Bool, Not, "not", [Node(Bool, And, "and", [MkOper(Bool, Eq, Three(s)), BoolA])])
    ensures ToNnf(t, false) == MkOr([MkOper(Bool, Distinct, Three(s)), MkNot(BoolA)])
    ensures Holds(t, m) && !Holds(ToNnf(t, false), m)
  {
    hide Value, Holds, MkOr, MkNot, IsStrTerm, IsArithTerm, ToNnf, Three, TwoAgree;
    var c, d := MkOper(Bool, Eq, Three(s)), MkOper(Bool, Distinct, Three(s));
    var b := Node(Bool, And, "and", [c, BoolA]);
    t := Node(Bool, Not, "not", [b]);
    m := TwoAgree(s, true);
    ChainSwapped(c, s);
    SwappedForm(c, b, t);
    ChainFails(c, s, m);
    AgreesOnA(s);
    NotHolds(t, m);
    AndHolds(b, m);
    assert b.children[0] == c;
    MkNotHolds(BoolA, m);
    PairHolds(d, MkNot(BoolA), m);
  }

  lemma AgreesOnA(s: Sort)
    ensures Holds(BoolA, TwoAgree(s, true))
  {
    LeafHolds(BoolA, TwoAgree(s, true));
  }

  lemma {:induction false} SwappedForm(c: Term, b: Term, t: Term)
    requires IsAtom(c) && c.kind.Eq? && b == Node(Bool, And, "and", [c, BoolA]) && t == Node(Bool, Not, "not", [b])
    ensures ToNnf(t, false) == MkOr([MkNot(c), MkNot(BoolA)])
  {
    hide MkOr, MkNot, IsAtom;
    var one, two := [c], [c, BoolA];
    assert one[..0] == [] && two[..1] == one;
    assert ToNnfAll(one, true) == [MkNot(c)];
    assert ToNnfAll(two, true) == [MkNot(c), MkNot(BoolA)];
    assert ToNnf(b, true) == MkOr([MkNot(c), MkNot(BoolA)]);
  }

  lemma LeafHolds(v: Term, m: Model)
    requires v.kind.Var? && v.sort == Bool
    ensures Holds(v, m) <==> AsBool(m.leaf(v))
  {
    Unfold(v, m);
  }

  lemma TernaryNnf(t: Term)
    requires t == Node(Bool, Implies, "=>", [BoolA, BoolB, BoolC])
    ensures ToNnf(t, false) == MkOr([MkNot(BoolA), BoolB])
  {
    hide MkOr, MkNot;
    assert ToNnf(BoolA, true) == MkNot(BoolA) && ToNnf(BoolB, false) == BoolB;
  }

  // ------------------------------------------------------------------
  // The cache
  // ------------------------------------------------------------------

  /** Entries are positive normal forms. */
  ghost predicate CacheOk(cache: map<Term, Term>) {
    forall t | t in cache :: cache[t] == ToNnf(t, false)
  }

  /** One write: the let, and the negation pending when it was met. */
  datatype Visit = Visit(node: Term, neg: bool)

  /** The writes of a conversion, in the order they happen. */
  function LetLog(t: Term, neg: bool): seq<Visit>
    decreases Rank(t), t, 1
  {
    if IsBoolLeaf(t) then []
    else if t.kind.Let? then LetLog(ExpandLet(t), neg) + [Visit(t, neg)]
    else if t.kind.Not? && |t.children| > 0 then
      assert HasBinder(t.children[0]) ==> AnyHasBinder(t.children);
      LetLog(t.children[0], !neg)
    else if t.kind.And? || t.kind.Or? then LetLogAll(t.children, neg)
    else if t.kind.Implies? && |t.children| >= 2 then
      assert HasBinder(t.children[0]) || HasBinder(t.children[1]) ==> AnyHasBinder(t.children);
      LetLog(t.children[0], !neg) + LetLog(t.children[1], neg)
    else if t.kind.Ite? && |t.children| == 3 && t.children[1].sort == Bool then
      assert HasBinder(t.children[0]) || HasBinder(t.children[1]) || HasBinder(t.children[2])
             ==> AnyHasBinder(t.children);
      LetLog(t.children[0], false) + LetLog(t.children[1], neg)
      + (LetLog(t.children[0], true) + LetLog(t.children[2], neg))
    else []
  }

  function LetLogAll(ts: seq<Term>, neg: bool): seq<Visit>
    decreases RankAll(ts), ts, 0
  {
    if ts == [] then []
    else
      var n := |ts| - 1;
      assert AnyHasBinder(ts[..n]) ==> AnyHasBinder(ts);
      LetLogAll(ts[..n], neg) + LetLog(ts[n], neg)
  }

  /** The cache after some writes: each stores the form under the negation that
      was pending. */
  function Stored(cache: map<Term, Term>, log: seq<Visit>): map<Term, Term> {
    if log == [] then cache
    else
      var v := log[|log| - 1];
      Stored(cache, log[..|log| - 1])[v.node := ToNnf(v.node, v.neg)]
  }

  lemma {:induction false} StoredConcat(cache: map<Term, Term>, a: seq<Visit>, b: seq<Visit>)
    ensures Stored(cache, a + b) == Stored(Stored(cache, a), b)
  {
    hide ToNnf;
    if b == [] {
      assert a + b == a;
    } else {
      var n := |b| - 1;
      assert (a + b)[..|a| + n] == a + b[..n];
      StoredConcat(cache, a, b[..n]);
    }
  }

  /** Every node's last write was without a pending negation. */
  predicate LastPositive(log: seq<Visit>) {
    forall i | 0 <= i < |log| && IsLastWrite(log, i) :: !log[i].neg
  }

  predicate IsLastWrite(log: seq<Visit>, i: nat)
    requires i < |log|
  {
    forall j | i < j < |log| :: log[j].node != log[i].node
  }

  /** Exactly then a good cache stays good: the last write of each let wins, and
      a write under a negation is never right. */
  lemma {:induction false} CacheExact(cache: map<Term, Term>, log: seq<Visit>)
    requires CacheOk(cache)
    ensures CacheOk(Stored(cache, log)) <==> LastPositive(log)
  {
    hide ToNnf, IsLastWrite, Stored;
    StoredLast(cache, log);
    var now := Stored(cache, log);
    if LastPositive(log) {
      forall t | t in now && !(t in cache && now[t] == cache[t])
        ensures now[t] == ToNnf(t, false)
      {
        var i := StoredOnly(cache, log, t);
      }
    } else {
      var i :| 0 <= i < |log| && IsLastWrite(log, i) && log[i].neg;
      WrongEntry(now, log[i]);
    }
  }

  lemma LastOfPrefix(log: seq<Visit>, i: nat)
    requires i < |log| - 1
    ensures IsLastWrite(log, i) <==> IsLastWrite(log[..|log| - 1], i) && log[|log| - 1].node != log[i].node
  {
    assert forall j | i < j < |log| - 1 :: log[..|log| - 1][j] == log[j];
  }

  /** Entries are those of the last writes, or were there before. */
  lemma {:induction false} StoredLast(cache: map<Term, Term>, log: seq<Visit>)
    ensures forall i | 0 <= i < |log| && IsLastWrite(log, i) ::
              log[i].node in Stored(cache, log) && Stored(cache, log)[log[i].node] == ToNnf(log[i].node, log[i].neg)
  {
    hide ToNnf, IsLastWrite;
    if log != [] {
      var n := |log| - 1;
      StoredLast(cache, log[..n]);
      forall i | 0 <= i < n && IsLastWrite(log, i)
        ensures log[n].node != log[i].node && IsLastWrite(log[..n], i)
      {
        LastOfPrefix(log, i);
      }
    }
  }

  lemma {:induction false} StoredOnly(cache: map<Term, Term>, log: seq<Visit>, t: Term) returns (i: nat)
    requires t in Stored(cache, log) && !(t in cache && Stored(cache, log)[t] == cache[t])
    ensures i < |log| && log[i].node == t && IsLastWrite(log, i)
  {
    hide ToNnf, IsLastWrite;
    var n := |log| - 1;
    if log[n].node == t {
      i := n;
      LastIsLast(log);
    } else {
      i := StoredOnly(cache, log[..n], t);
      LastOfPrefix(log, i);
    }
  }

  lemma LastIsLast(log: seq<Visit>)
    requires log != []
    ensures IsLastWrite(log, |log| - 1)
  {
  }

  lemma WrongEntry(now: map<Term, Term>, v: Visit)
    requires v.neg && v.node in now && now[v.node] == ToNnf(v.node, v.neg)
    ensures !CacheOk(now)
  {
    FormsDiffer(v.node);
  }

  predicate SelfCompared(t: Term) { |t.children| == 2 && t.children[0] == t.children[1] }

  /** A syntactic truth value that mkNot, mkAnd and mkOr respect on all terms. */
  predicate Sign(t: Term) {
    match t.kind
    case And => forall i | 0 <= i < |t.children| :: Sign(t.children[i])
    case Or => exists i :: 0 <= i < |t.children| && Sign(t.children[i])
    case Not => |t.children| == 1 ==> !Sign(t.children[0])
    case ConstFalse => t.sort != Bool
    case Distinct => false
    case Lt => !SelfCompared(t)
    case StrLt => !SelfCompared(t)
    case Ge => SelfCompared(t)
    case StrGe => SelfCompared(t)
    case Gt => false
    case StrGt => false
    case _ => true
  }

  lemma NotSign(t: Term)
    ensures Sign(MkNot(t)) == !Sign(t)
  {
    if !(t.kind.Not? && |t.children| == 1) && !IsTrue(t) && !IsFalse(t) && !IsComp(t) {
      var n := MkOper(Bool, Not, [t]);
      assert n.children == [t];
    }
  }

  predicate AllSign(ts: seq<Term>) { forall i | 0 <= i < |ts| :: Sign(ts[i]) }

  predicate AnySign(ts: seq<Term>) { exists i :: 0 <= i < |ts| && Sign(ts[i]) }

  lemma {:induction false} SignsMove(a: seq<Term>, b: seq<Term>)
    ensures (forall t | t in a && Sign(t) :: t in b) && AnySign(a) ==> AnySign(b)
    ensures (forall t | t in b && !Sign(t) :: t in a) && AllSign(a) ==> AllSign(b)
  {
    if (forall t | t in a && Sign(t) :: t in b) && AnySign(a) {
      var i :| 0 <= i < |a| && Sign(a[i]);
      assert a[i] in a && a[i] in b;
      var j :| 0 <= j < |b| && b[j] == a[i];
      assert Sign(b[j]);
    }
    if (forall t | t in b && !Sign(t) :: t in a) && AllSign(a) {
      forall j | 0 <= j < |b|
        ensures Sign(b[j])
      {
        assert b[j] in b;
      }
    }
  }

  lemma JunctionSign(ts: seq<Term>)
    ensures Sign(MkAnd(ts)) <==> AllSign(ts)
    ensures Sign(MkOr(ts)) <==> AnySign(ts)
  {
    hide Dedup, Without, Sign;
    SignFacts();
    AndSign(ts);
    OrSign(ts);
  }

  lemma AndSign(ts: seq<Term>)
    ensures Sign(MkAnd(ts)) <==> AllSign(ts)
  {
    hide Dedup, Without, Sign;
    SignFacts();
    if |ts| > 1 && !(exists i :: 0 <= i < |ts| && IsFalse(ts[i])) {
      var rest := Dedup(Without(ts, ConstTrue));
      SignsMove(ts, rest);
      SignsMove(rest, ts);
      NodeSign(rest);
    }
  }

  lemma OrSign(ts: seq<Term>)
    ensures Sign(MkOr(ts)) <==> AnySign(ts)
  {
    hide Dedup, Without, Sign;
    SignFacts();
    if |ts| > 1 && !(exists i :: 0 <= i < |ts| && IsTrue(ts[i])) {
      var rest := Dedup(Without(ts, ConstFalse));
      SignsMove(ts, rest);
      SignsMove(rest, ts);
      NodeSign(rest);
    }
  }

  lemma SignFacts()
    ensures Sign(TrueTerm) && !Sign(FalseTerm)
    ensures forall t: Term | t.sort == Bool && t.kind == ConstTrue :: Sign(t)
    ensures forall t: Term | t.sort == Bool && t.kind == ConstFalse :: !Sign(t)
  {
  }

  lemma NodeSign(ts: seq<Term>)
    ensures Sign(MkOper(Bool, And, ts)) <==> AllSign(ts)
    ensures Sign(MkOper(Bool, Or, ts)) <==> AnySign(ts)
  {
    var a, o := MkOper(Bool, And, ts), MkOper(Bool, Or, ts);
    assert a.children == ts && o.children == ts;
    if AnySign(ts) {
      var i :| 0 <= i < |ts| && Sign(ts[i]);
      assert Sign(o.children[i]);
    }
  }

  lemma PairSign(a: Term, b: Term)
    ensures Sign(MkAnd([a, b])) == (Sign(a) && Sign(b)) && Sign(MkOr([a, b])) == (Sign(a) || Sign(b))
  {
    hide Sign, MkAnd, MkOr;
    var ts := [a, b];
    JunctionSign(ts);
    assert ts[0] == a && ts[1] == b;
  }

  /** The two normal forms of a term have opposite signs. */
  lemma {:induction false} OppositeSigns(t: Term)
    ensures Sign(ToNnf(t, true)) == !Sign(ToNnf(t, false))
    decreases Rank(t), t, 1
  {
    hide Sign, MkNot, MkAnd, MkOr;
    NotSign(t);
    if IsBoolLeaf(t) {
    } else if t.kind.Let? {
      OppositeSigns(ExpandLet(t));
    } else if t.kind.Not? && |t.children| > 0 {
      assert HasBinder(t.children[0]) ==> AnyHasBinder(t.children);
      OppositeSigns(t.children[0]);
    } else if t.kind.And? || t.kind.Or? {
      var ps, ns := ToNnfAll(t.children, false), ToNnfAll(t.children, true);
      OppositeAll(t.children);
      JunctionSign(ps);
      JunctionSign(ns);
      OppositeLists(ps, ns);
    } else if t.kind.Implies? && |t.children| >= 2 {
      assert HasBinder(t.children[0]) || HasBinder(t.children[1]) ==> AnyHasBinder(t.children);
      var a, b := t.children[0], t.children[1];
      OppositeSigns(a);
      OppositeSigns(b);
      PairSign(ToNnf(a, false), ToNnf(b, true));
      PairSign(ToNnf(a, true), ToNnf(b, false));
    } else if t.kind.Ite? && |t.children| == 3 && t.children[1].sort == Bool {
      assert HasBinder(t.children[0]) || HasBinder(t.children[1]) || HasBinder(t.children[2])
             ==> AnyHasBinder(t.children);
      var a, b, c := t.children[0], t.children[1], t.children[2];
      OppositeSigns(a);
      OppositeSigns(b);
      OppositeSigns(c);
      IteSign(a, b, c, false);
      IteSign(a, b, c, true);
    }
  }

  lemma IteSign(a: Term, b: Term, c: Term, neg: bool)
    ensures var t := MkOr([MkAnd([ToNnf(a, false), ToNnf(b, neg)]), MkAnd([ToNnf(a, true), ToNnf(c, neg)])]);
            Sign(t) == ((Sign(ToNnf(a, false)) && Sign(ToNnf(b, neg))) || (Sign(ToNnf(a, true)) && Sign(ToNnf(c, neg))))
  {
    hide Sign, MkNot, MkAnd, MkOr, ToNnf;
    PairSign(ToNnf(a, false), ToNnf(b, neg));
    PairSign(ToNnf(a, true), ToNnf(c, neg));
    PairSign(MkAnd([ToNnf(a, false), ToNnf(b, neg)]), MkAnd([ToNnf(a, true), ToNnf(c, neg)]));
  }

  lemma OppositeLists(ps: seq<Term>, ns: seq<Term>)
    requires |ps| == |ns| && forall i | 0 <= i < |ps| :: Sign(ns[i]) == !Sign(ps[i])
    ensures AllSign(ps) == !AnySign(ns) && AllSign(ns) == !AnySign(ps)
  {
    hide Sign;
  }

  lemma {:induction false} OppositeAll(ts: seq<Term>)
    ensures forall i | 0 <= i < |ts| :: Sign(ToNnfAll(ts, true)[i]) == !Sign(ToNnfAll(ts, false)[i])
    decreases RankAll(ts), ts, 0
  {
    hide Sign, ToNnf;
    if ts != [] {
      var n := |ts| - 1;
      assert AnyHasBinder(ts[..n]) ==> AnyHasBinder(ts);
      OppositeAll(ts[..n]);
      OppositeSigns(ts[n]);
    }
  }

  lemma FormsDiffer(t: Term)
    ensures ToNnf(t, true) != ToNnf(t, false)
  {
    OppositeSigns(t);
  }

  /** The conversion with its cache field. Expanding a let stores the result
      under the let whatever the pending negation was. */
  class Converter {
    var nnfMap: map<Term, Term>

    constructor ()
      ensures nnfMap == map[]
    {
      nnfMap := map[];
    }

    method Convert(t: Term, neg: bool) returns (r: Term)
      modifies this
      ensures r == ToNnf(t, neg) && nnfMap == Stored(old(nnfMap), LetLog(t, neg))
      decreases Rank(t), t, 1
    {
      hide MkNot, MkAnd, MkOr, Stored;
      StoredNothing(nnfMap);
      if IsBoolLeaf(t) {
        r := if neg then MkNot(t) else t;
      } else if t.kind.Let? {
        r := Convert(ExpandLet(t), neg);
        StoredNext(old(nnfMap), LetLog(ExpandLet(t), neg), t, neg);
        nnfMap := nnfMap[t := r];
      } else if t.kind.Not? && |t.children| > 0 {
        assert HasBinder(t.children[0]) ==> AnyHasBinder(t.children);
        r := Convert(t.children[0], !neg);
      } else if t.kind.And? || t.kind.Or? {
        var cs := ConvertAll(t.children, neg);
        r := if neg == t.kind.Or? then MkAnd(cs) else MkOr(cs);
      } else if t.kind.Implies? && |t.children| >= 2 {
        assert HasBinder(t.children[0]) || HasBinder(t.children[1]) ==> AnyHasBinder(t.children);
        StoredConcat(nnfMap, LetLog(t.children[0], !neg), LetLog(t.children[1], neg));
        var a := Convert(t.children[0], !neg);
        var b := Convert(t.children[1], neg);
        r := if neg then MkAnd([a, b]) else MkOr([a, b]);
      } else if t.kind.Ite? && |t.children| == 3 && t.children[1].sort == Bool {
        r := ConvertIte(t, neg);
      } else {
        r := if neg then MkNot(t) else t;
      }
    }

    method ConvertIte(t: Term, neg: bool) returns (r: Term)
      requires t.kind.Ite? && |t.children| == 3 && t.children[1].sort == Bool && !IsBoolLeaf(t)
      modifies this
      ensures r == ToNnf(t, neg) && nnfMap == Stored(old(nnfMap), LetLog(t, neg))
      decreases Rank(t), t, 0
    {
      hide MkNot, MkAnd, MkOr, Stored;
      assert HasBinder(t.children[0]) || HasBinder(t.children[1]) || HasBinder(t.children[2])
             ==> AnyHasBinder(t.children);
      ghost var la, lb := LetLog(t.children[0], false), LetLog(t.children[1], neg);
      ghost var ln, lc := LetLog(t.children[0], true), LetLog(t.children[2], neg);
      StoredConcat(nnfMap, la, lb);
      StoredConcat(nnfMap, la + lb, ln + lc);
      StoredConcat(Stored(nnfMap, la + lb), ln, lc);
      var a := Convert(t.children[0], false);
      var b := Convert(t.children[1], neg);
      var na := Convert(t.children[0], true);
      var c := Convert(t.children[2], neg);
      r := MkOr([MkAnd([a, b]), MkAnd([na, c])]);
    }

    method ConvertAll(ts: seq<Term>, neg: bool) returns (rs: seq<Term>)
      modifies this
      ensures rs == ToNnfAll(ts, neg) && nnfMap == Stored(old(nnfMap), LetLogAll(ts, neg))
      decreases RankAll(ts), ts, 0
    {
      hide Stored, ToNnf, LetLog;
      rs := [];
      StoredNothing(nnfMap);
      for i := 0 to |ts|
        invariant rs == ToNnfAll(ts[..i], neg) && nnfMap == Stored(old(nnfMap), LetLogAll(ts[..i], neg))
      {
        assert ts[..i + 1][..i] == ts[..i];
        assert HasBinder(ts[i]) ==> AnyHasBinder(ts);
        StoredConcat(old(nnfMap), LetLogAll(ts[..i], neg), LetLog(ts[i], neg));
        var r := Convert(ts[i], neg);
        rs := rs + [r];
      }
      assert ts[..|ts|] == ts;
    }

    /** The entry point: answers from the cache when it can. A good cache gives
        the normal form, and stays good exactly if the last write of every let
        is without a pending negation. */
    method Nnf(t: Term) returns (r: Term)
      modifies this
      ensures t in old(nnfMap) ==> r == old(nnfMap)[t] && nnfMap == old(nnfMap)
      ensures t !in old(nnfMap) ==> r == ToNnf(t, false) && nnfMap == Stored(old(nnfMap), RootLog(t))
      ensures old(CacheOk(nnfMap)) ==>
                && r == ToNnf(t, false)
                && (CacheOk(nnfMap) <==> t in old(nnfMap) || LastPositive(RootLog(t)))
    {
      hide Stored, ToNnf, LetLog, LastPositive;
      if t in nnfMap {
        return nnfMap[t];
      }
      if CacheOk(nnfMap) {
        CacheExact(nnfMap, RootLog(t));
      }
      r := Convert(t, false);
      StoredNext(old(nnfMap), LetLog(t, false), t, false);
      nnfMap := nnfMap[t := r];
    }
  }

  /** The writes of the entry point. */
  function RootLog(t: Term): seq<Visit> { LetLog(t, false) + [Visit(t, false)] }

  lemma StoredNothing(cache: map<Term, Term>)
    ensures Stored(cache, []) == cache
  {
  }

  lemma StoredNext(cache: map<Term, Term>, log: seq<Visit>, t: Term, neg: bool)
    ensures Stored(cache, log + [Visit(t, neg)]) == Stored(cache, log)[t := ToNnf(t, neg)]
  {
    hide ToNnf;
    assert (log + [Visit(t, neg)])[..|log|] == log;
  }

  const LetA := Node(Bool, Let, "let", [BoolA])

  /** A let met under a negation leaves a wrong entry: the conversion of
      (not (let ... a)) stores the negated form for the let itself, so the
      next conversion of that let answers (not a). */
  method CachePoisoned() returns (r: Term)
    ensures r == ToNnf(LetA, true) && r != ToNnf(LetA, false)
  {
    var c := new Converter();
    var first := c.Convert(Node(Bool, Not, "not", [LetA]), false);
    r := c.Nnf(LetA);
    LetAForms();
  }

  lemma LetAForms()
    ensures ToNnf(LetA, false) == BoolA && ToNnf(LetA, true) == MkNot(BoolA) != BoolA
  {
    assert !AnyHasBinder(BoolA.children);
    ExpandOfBinder(LetA);
    NoBinderExpand(BoolA);
    assert ToNnf(BoolA, false) == BoolA && ToNnf(BoolA, true) == MkNot(BoolA);
  }
}
