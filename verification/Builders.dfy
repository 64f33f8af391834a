// The Boolean node builders: mkNot, mkAnd and mkOr simplify while they build.
// The operand order `mkInternalOper` sorts by is not modelled.
module Builders {
  import opened Terms

  function MkOper(s: Sort, k: Kind, ts: seq<Term>): Term {
    Node(s, k, KindName(k), ts)
  }

  /** The order that holds where `k` does not. */
  function Opposite(k: Kind): Kind {
    match k
    case Lt => Ge
    case Le => Gt
    case Gt => Le
    case Ge => Lt
    case StrLt => StrGe
    case StrLe => StrGt
    case StrGt => StrLe
    case StrGe => StrLt
    case _ => k
  }

  /** mkLe and the like: a term compared with itself is decided at once. */
  function MkOrder(k: Kind, ts: seq<Term>): Term {
    if |ts| == 2 && ts[0] == ts[1] then (if k.Le? || k.Ge? || k.StrLe? || k.StrGe? then TrueTerm else FalseTerm)
    else MkOper(Bool, k, ts)
  }

  /** Comparisons are negated by swapping the operator. */
  function NegateComp(t: Term): Term
    requires IsComp(t)
  {
    if t.kind.Eq? then MkOper(Bool, Distinct, t.children)
    else if t.kind.Distinct? then MkOper(Bool, Eq, t.children)
    else MkOrder(Opposite(t.kind), t.children)
  }

  lemma TermsApart(t: Term)
    ensures !(IsArithTerm(t) && IsStrTerm(t))
  {
  }

  function MkNot(t: Term): Term {
    if t.kind.Not? && |t.children| == 1 then t.children[0]
    else if IsTrue(t) then FalseTerm
    else if IsFalse(t) then TrueTerm
    else if IsComp(t) then NegateComp(t)
    else MkOper(Bool, Not, [t])
  }

  /** Keeps the first of equal operands. */
  function Dedup(ts: seq<Term>): (r: seq<Term>)
    ensures forall t :: t in r <==> t in ts
    ensures forall i, j | 0 <= i < j < |r| :: r[i] != r[j]
  {
    if ts == [] then []
    else
      var r := Dedup(ts[..|ts| - 1]);
      var last := ts[|ts| - 1];
      assert ts == ts[..|ts| - 1] + [last];
      if last in r then r else r + [last]
  }

  /** Drops the Boolean constants of kind `k`. */
  function Without(ts: seq<Term>, k: Kind): (r: seq<Term>)
    ensures forall t :: t in r <==> t in ts && !(t.sort == Bool && t.kind == k)
  {
    if ts == [] then []
    else
      var r := Without(ts[..|ts| - 1], k);
      var last := ts[|ts| - 1];
      assert ts == ts[..|ts| - 1] + [last];
      if last.sort == Bool && last.kind == k then r else r + [last]
  }

  function MkAnd(ts: seq<Term>): Term {
    if |ts| == 0 then TrueTerm
    else if |ts| == 1 then ts[0]
    else if exists i :: 0 <= i < |ts| && IsFalse(ts[i]) then FalseTerm
    else
      var rest := Dedup(Without(ts, ConstTrue));
      if |rest| == 0 then TrueTerm
      else if |rest| == 1 then rest[0]
      else MkOper(Bool, And, rest)
  }

  function MkOr(ts: seq<Term>): Term {
    if |ts| == 0 then FalseTerm
    else if |ts| == 1 then ts[0]
    else if exists i :: 0 <= i < |ts| && IsTrue(ts[i]) then TrueTerm
    else
      var rest := Dedup(Without(ts, ConstFalse));
      if |rest| == 0 then FalseTerm
      else if |rest| == 1 then rest[0]
      else MkOper(Bool, Or, rest)
  }

  /** mkAnd and mkOr return a constant, an operand, or a node over operands. */
  lemma JunctionShape(ts: seq<Term>)
    ensures var a := MkAnd(ts);
            a == TrueTerm || a == FalseTerm || a in ts
            || (a.kind.And? && a.sort == Bool && |a.children| > 1 && forall c | c in a.children :: c in ts)
    ensures var o := MkOr(ts);
            o == TrueTerm || o == FalseTerm || o in ts
            || (o.kind.Or? && o.sort == Bool && |o.children| > 1 && forall c | c in o.children :: c in ts)
  {
    if |ts| > 1 {
      var ra, ro := Dedup(Without(ts, ConstTrue)), Dedup(Without(ts, ConstFalse));
      assert |ra| == 1 ==> ra[0] in ra;
      assert |ro| == 1 ==> ro[0] in ro;
    }
  }

  lemma {:induction false} WithoutNone(ts: seq<Term>, k: Kind)
    requires forall i | 0 <= i < |ts| :: !(ts[i].sort == Bool && ts[i].kind == k)
    ensures Without(ts, k) == ts
  {
    if ts != [] {
      var n := |ts| - 1;
      WithoutNone(ts[..n], k);
      assert ts == ts[..n] + [ts[n]];
    }
  }

  // ------------------------------------------------------------------
  // What they mean
  // ------------------------------------------------------------------

  ghost predicate AnyHolds(ts: seq<Term>, m: Model) {
    exists i :: 0 <= i < |ts| && Holds(ts[i], m)
  }

  lemma AllHoldIn(ts: seq<Term>, m: Model)
    ensures AllHold(ts, m) <==> forall t :: t in ts ==> Holds(t, m)
    ensures AnyHolds(ts, m) <==> exists t :: t in ts && Holds(t, m)
  {
    if AnyHolds(ts, m) {
      var i :| 0 <= i < |ts| && Holds(ts[i], m);
      assert ts[i] in ts;
    }
  }

  lemma AllHoldConcat(cs: seq<Term>, ds: seq<Term>, m: Model)
    ensures AllHold(cs + ds, m) <==> AllHold(cs, m) && AllHold(ds, m)
  {
    hide Holds;
    if AllHold(cs + ds, m) {
      assert forall i | 0 <= i < |cs| :: (cs + ds)[i] == cs[i];
      assert forall i | 0 <= i < |ds| :: (cs + ds)[|cs| + i] == ds[i];
    }
  }

  lemma AndHolds(t: Term, m: Model)
    requires t.kind.And? && t.sort == Bool
    ensures Holds(t, m) <==> AllHold(t.children, m)
  {
    var vs := Values(t.children, m);
    assert AllTrue(vs) <==> AllHold(t.children, m);
  }

  lemma OrHolds(t: Term, m: Model)
    requires t.kind.Or? && t.sort == Bool
    ensures Holds(t, m) <==> AnyHolds(t.children, m)
  {
    var vs := Values(t.children, m);
    assert AnyTrue(vs) <==> AnyHolds(t.children, m);
  }

  lemma NotHolds(t: Term, m: Model)
    requires t.kind.Not? && t.sort == Bool && |t.children| == 1
    ensures Holds(t, m) <==> !Holds(t.children[0], m)
  {
  }

  lemma ConstantsHold(m: Model)
    ensures forall t | IsTrue(t) :: Holds(t, m)
    ensures forall t | IsFalse(t) :: !Holds(t, m)
  {
  }

  /** mkAnd is conjunction, whatever it drops. */
  lemma MkAndHolds(ts: seq<Term>, m: Model)
    ensures Holds(MkAnd(ts), m) <==> AllHold(ts, m)
  {
    hide Value, Holds, Dedup, Without;
    ConstantsHold(m);
    if |ts| > 1 && !(exists i :: 0 <= i < |ts| && IsFalse(ts[i])) {
      var kept := Without(ts, ConstTrue);
      var rest := Dedup(kept);
      AllHoldIn(ts, m);
      AllHoldIn(rest, m);
      if |rest| > 1 {
        AndHolds(MkOper(Bool, And, rest), m);
      }
    }
  }

  /** mkOr is disjunction. */
  lemma MkOrHolds(ts: seq<Term>, m: Model)
    ensures Holds(MkOr(ts), m) <==> AnyHolds(ts, m)
  {
    hide Value, Holds, Dedup, Without;
    ConstantsHold(m);
    if |ts| > 1 {
      if exists i :: 0 <= i < |ts| && IsTrue(ts[i]) {
      } else {
        var rest := Dedup(Without(ts, ConstFalse));
        AllHoldIn(ts, m);
        AllHoldIn(rest, m);
        if |rest| > 1 {
          OrHolds(MkOper(Bool, Or, rest), m);
        }
      }
    }
  }

  /** A comparison that swapping operators negates: one of two operands. */
  predicate Negatable(t: Term) {
    t.sort == Bool && (IsComp(t) ==> |t.children| == 2)
  }

  /** Swapping the operator of a two-operand comparison negates it. */
  lemma NegateCompHolds(t: Term, m: Model)
    requires t.sort == Bool && IsComp(t) && |t.children| == 2
    ensures Holds(NegateComp(t), m) <==> !Holds(t, m)
  {
    hide Value, IsArithTerm, IsStrTerm, StrLess;
    var vs := Values(t.children, m);
    Unfold(t, m);
    if t.kind.Eq? || t.kind.Distinct? {
      Unfold(NegateComp(t), m);
      assert AllEqual(vs) <==> vs[0] == vs[1];
      assert PairwiseDistinct(vs) <==> vs[0] != vs[1];
    } else {
      NegateOrderHolds(t, m);
    }
  }

  lemma NegateOrderHolds(t: Term, m: Model)
    requires t.sort == Bool && IsComp(t) && !t.kind.Eq? && !t.kind.Distinct? && |t.children| == 2
    ensures Holds(NegateComp(t), m) <==> !Holds(t, m)
  {
    hide Value, IsArithTerm, IsStrTerm, StrLess;
    var vs := Values(t.children, m);
    var n := NegateComp(t);
    Unfold(t, m);
    Unfold(n, m);
    StrOrder(AsStr(vs[0]), AsStr(vs[1]));
    StrOrder(AsStr(vs[0]), AsStr(vs[0]));
    assert n.children == [] || n.children == t.children;
  }

  /** Where mkNot negates a term. */
  ghost predicate Negates(t: Term, m: Model) { Holds(MkNot(t), m) <==> !Holds(t, m) }

  /** mkNot is negation, except on a chained comparison. */
  lemma MkNotHolds(t: Term, m: Model)
    requires Negatable(t)
    ensures Holds(MkNot(t), m) <==> !Holds(t, m)
  {
    if t.kind.Not? && |t.children| == 1 {
      NotHolds(t, m);
    } else if IsComp(t) {
      NegateCompHolds(t, m);
    } else if !IsTrue(t) && !IsFalse(t) {
      NotHolds(MkOper(Bool, Not, [t]), m);
    }
  }

  /** On a chain of three or more operands the swap negates `=` and
      `distinct` exactly in the models where the operands are all equal or
      pairwise distinct. */
  lemma MkNotOnChain(t: Term, m: Model)
    requires t.sort == Bool && IsComp(t) && (t.kind.Eq? || t.kind.Distinct?) && |t.children| >= 2
    ensures var vs := Values(t.children, m);
            (Holds(MkNot(t), m) <==> !Holds(t, m)) <==> (AllEqual(vs) || PairwiseDistinct(vs))
  {
    hide Value, IsArithTerm, IsStrTerm;
    var vs := Values(t.children, m);
    Unfold(t, m);
    Unfold(NegateComp(t), m);
    if AllEqual(vs) {
      assert vs[1] == vs[0];
    }
  }

  const IntX := Node(Int, Var, "x", [])
  const IntY := Node(Int, Var, "y", [])
  const IntZ := Node(Int, Var, "z", [])

  /** A variable of a sort. */
  function VarOf(name: string, s: Sort): Term { Node(s, Var, name, []) }

  function Three(s: Sort): seq<Term> { [VarOf("x", s), VarOf("y", s), VarOf("z", s)] }

  /** On a chained `=` over integers or strings mkNot yields a chained
      `distinct`, which is not the negation: both fail when exactly two operands
      agree. */
  lemma MkNotFailsOnChains(s: Sort) returns (t: Term, m: Model)
    requires s == Int || s == Str
    ensures t == Node(Bool, Eq, "=", Three(s)) && MkNot(t) == MkOper(Bool, Distinct, Three(s))
    ensures !Holds(t, m) && !Holds(MkNot(t), m)
  {
    hide Value, Holds, MkNot, TwoAgree;
    t := Node(Bool, Eq, "=", Three(s));
    m := TwoAgree(s, true);
    ChainSwapped(t, s);
    ChainFails(t, s, m);
  }

  lemma ChainFails(c: Term, s: Sort, m: Model)
    requires (s == Int || s == Str) && (m == TwoAgree(s, true) || m == TwoAgree(s, false))
    requires c == MkOper(Bool, Eq, Three(s))
    ensures !Holds(c, m) && !Holds(MkOper(Bool, Distinct, Three(s)), m)
  {
    hide Value, TwoAgree;
    TwoAgreeValues(s, m);
    Unfold(c, m);
    Unfold(MkOper(Bool, Distinct, Three(s)), m);
  }

  /** Over integers or strings: x and y agree, z differs; Booleans are `p`. */
  function TwoAgree(s: Sort, p: bool): Model {
    Model((l: Term) => if l.sort == Bool then B(p)
                       else if s == Int then N(if l.name == "z" then 1 else 0)
                       else S(if l.name == "z" then "z" else ""),
          (k, n, vs) => U(0), map[])
  }

  lemma ChainSwapped(c: Term, s: Sort)
    requires (s == Int || s == Str) && c.kind.Eq? && c.children == Three(s)
    ensures IsComp(c) && IsAtom(c) && MkNot(c) == MkOper(Bool, Distinct, Three(s))
  {
    assert c.children[0] == VarOf("x", s);
  }

  lemma TwoAgreeValues(s: Sort, m: Model)
    requires (s == Int || s == Str) && (m == TwoAgree(s, true) || m == TwoAgree(s, false))
    ensures var vs := Values(Three(s), m);
            !AllEqual(vs) && !PairwiseDistinct(vs)
  {
    hide Value;
    var ts := Three(s);
    Unfold(ts[0], m);
    Unfold(ts[1], m);
    Unfold(ts[2], m);
    var vs := Values(ts, m);
    assert vs[0] == vs[1] != vs[2];
  }
}
