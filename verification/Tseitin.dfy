// Tseitin definitions on a shared DAG: toTseitinCNF and its gate helpers.
//
// The encoder draws a fresh variable for every connective it meets for the
// first time (a gate) and for every atom it has not abstracted yet. The
// sequence of these steps determines the clauses, so the properties below are
// about steps; the Converter class at the end runs on the clauses themselves.
module Tseitin {
  import opened Terms
  import opened Builders
  import opened LetExpansion

  // ------------------------------------------------------------------
  // Connectives and their clauses
  // ------------------------------------------------------------------

  predicate IsConnective(k: Kind) {
    k.Not? || k.And? || k.Or? || k.Implies? || k.Xor? || k.Eq? || k.Distinct? || k.Ite?
  }

  predicate AllOf(bs: seq<bool>) { forall i | 0 <= i < |bs| :: bs[i] }

  predicate AnyOf(bs: seq<bool>) { exists i | 0 <= i < |bs| :: bs[i] }

  predicate Parity(bs: seq<bool>) {
    if bs == [] then false else Parity(bs[..|bs| - 1]) != bs[|bs| - 1]
  }

  /** The truth function of a connective. */
  predicate Connective(k: Kind, bs: seq<bool>) {
    match k
    case Not => |bs| > 0 && !bs[0]
    case And => AllOf(bs)
    case Or => AnyOf(bs)
    case Implies => |bs| > 0 && (AllOf(bs[..|bs| - 1]) ==> bs[|bs| - 1])
    case Xor => Parity(bs)
    case Eq => forall i | 0 <= i < |bs| :: bs[i] == bs[0]
    case Distinct => forall i, j | 0 <= i < j < |bs| :: bs[i] != bs[j]
    case Ite => |bs| == 3 && if bs[0] then bs[1] else bs[2]
    case _ => false
  }

  ghost function Truths(ts: seq<Term>, m: Model): (bs: seq<bool>)
    ensures |bs| == |ts| && forall i | 0 <= i < |ts| :: bs[i] == Holds(ts[i], m)
  {
    seq(|ts|, i requires 0 <= i < |ts| => Holds(ts[i], m))
  }

  predicate AllBool(ts: seq<Term>) { forall i | 0 <= i < |ts| :: ts[i].sort == Bool }

  /** The operand numbers a connective is used with. */
  predicate ArityOk(k: Kind, n: nat) {
    match k
    case Not => n == 1
    case And => n >= 1
    case Or => n >= 1
    case Implies => n >= 1
    case Xor => n >= 1
    case Eq => n >= 2
    case Distinct => n >= 2
    case Ite => n == 3
    case _ => false
  }

  lemma {:induction false} ParityIsOdd(vs: seq<Val>, bs: seq<bool>)
    requires |vs| == |bs| && forall i | 0 <= i < |vs| :: vs[i] == B(bs[i])
    ensures Odd(vs) == Parity(bs)
  {
    if vs != [] {
      ParityIsOdd(vs[..|vs| - 1], bs[..|bs| - 1]);
    }
  }

  /** A connective over Boolean operands means its truth function. */
  lemma ConnectiveHolds(t: Term, m: Model)
    requires t.sort == Bool && IsConnective(t.kind) && AllBool(t.children) && ArityOk(t.kind, |t.children|)
    ensures Holds(t, m) == Connective(t.kind, Truths(t.children, m))
  {
    var vs, bs := Values(t.children, m), Truths(t.children, m);
    forall i | 0 <= i < |vs|
      ensures vs[i] == B(bs[i])
    {
      ValueHasSort(t.children[i], m);
    }
    Unfold(t, m);
    hide Value;
    ConnectiveOnValues(t, vs, bs, m);
  }

  lemma ConnectiveOnValues(t: Term, vs: seq<Val>, bs: seq<bool>, m: Model)
    requires IsConnective(t.kind) && ArityOk(t.kind, |vs|)
    requires |vs| == |bs| && forall i | 0 <= i < |vs| :: vs[i] == B(bs[i])
    ensures AsBool(Interpret(t, vs, m)) == Connective(t.kind, bs)
  {
    if t.kind.Xor? {
      ParityIsOdd(vs, bs);
    } else if t.kind.Eq? {
      assert AllEqual(vs) <==> forall i | 0 <= i < |bs| :: bs[i] == bs[0];
    } else if t.kind.Distinct? {
      assert PairwiseDistinct(vs) <==> forall i, j | 0 <= i < j < |bs| :: bs[i] != bs[j];
    } else if t.kind.Or? {
      assert AnyTrue(vs) <==> AnyOf(bs);
    } else if t.kind.Implies? {
      assert AllTrue(vs[..|vs| - 1]) <==> AllOf(bs[..|bs| - 1]);
    }
  }

  /** What may appear in a clause. */
  predicate IsLit(t: Term) { IsLiteral(t) && t.sort == Bool }

  predicate AllLits(ts: seq<Term>) { forall i | 0 <= i < |ts| :: IsLit(ts[i]) }

  function Negs(ls: seq<Term>): (r: seq<Term>)
    ensures |r| == |ls| && forall i | 0 <= i < |ls| :: r[i] == MkNot(ls[i])
  {
    seq(|ls|, i requires 0 <= i < |ls| => MkNot(ls[i]))
  }

  /** Binary clauses of one literal with each of `ls`. */
  function PairClauses(a: Term, ls: seq<Term>): (r: seq<Term>)
    ensures |r| == |ls| && forall i | 0 <= i < |ls| :: r[i] == MkOr([a, ls[i]])
  {
    seq(|ls|, i requires 0 <= i < |ls| => MkOr([a, ls[i]]))
  }

  function PairClausesLeft(ls: seq<Term>, a: Term): (r: seq<Term>)
    ensures |r| == |ls| && forall i | 0 <= i < |ls| :: r[i] == MkOr([ls[i], a])
  {
    seq(|ls|, i requires 0 <= i < |ls| => MkOr([ls[i], a]))
  }

  /** The operand numbers the clause schemes are written for. */
  predicate GateOk(k: Kind, n: nat) {
    match k
    case Xor => n == 2
    case Eq => n == 2
    case Distinct => n == 2
    case _ => ArityOk(k, n)
  }

  /** The clauses that define `c` as the connective of `ls`. */
  function GateClauses(k: Kind, c: Term, ls: seq<Term>): seq<Term>
    requires GateOk(k, |ls|)
  {
    match k
    case Not => [MkOr([MkNot(c), MkNot(ls[0])]), MkOr([ls[0], c])]
    case And => PairClauses(MkNot(c), ls) + [MkOr(Negs(ls) + [c])]
    case Or => PairClausesLeft(Negs(ls), c) + [MkOr(ls + [MkNot(c)])]
    case Implies =>
      var n := |ls| - 1;
      [MkOr([MkNot(c)] + Negs(ls[..n]) + [ls[n]]), MkOr(Negs(ls) + [c])]
    case Xor =>
      var a, b := ls[0], ls[1];
      [MkOr([MkNot(c), MkNot(a), MkNot(b)]), MkOr([MkNot(c), a, b]),
       MkOr([c, MkNot(a), b]), MkOr([c, a, MkNot(b)])]
    case Eq =>
      var a, b := ls[0], ls[1];
      [MkOr([MkNot(c), a, MkNot(b)]), MkOr([MkNot(c), MkNot(a), b]),
       MkOr([c, a, b]), MkOr([c, MkNot(a), MkNot(b)])]
    case Distinct =>
      var a, b := ls[0], ls[1];
      [MkOr([MkNot(c), a, b]), MkOr([MkNot(c), MkNot(a), MkNot(b)]),
       MkOr([c, MkNot(a), b]), MkOr([c, a, MkNot(b)])]
    case Ite =>
      var a, b, d := ls[0], ls[1], ls[2];
      [MkOr([MkNot(c), MkNot(a), b]), MkOr([MkNot(c), a, d]),
       MkOr([c, MkNot(a), MkNot(b)]), MkOr([c, a, MkNot(d)])]
  }

  /** How a gate variable relates to its operands. An implication is defined
      in one direction only: its clauses let the variable be false although
      the implication holds, when an antecedent is false. */
  predicate GateRelation(k: Kind, c: bool, bs: seq<bool>, exact: bool) {
    if k.Implies? && !exact then (c ==> Connective(k, bs)) && (AllOf(bs) ==> c)
    else c == Connective(k, bs)
  }

  lemma LitHolds(l: Term, m: Model)
    requires IsLit(l)
    ensures Holds(MkNot(l), m) == !Holds(l, m)
  {
    MkNotHolds(l, m);
  }

  lemma ClauseHolds(ls: seq<Term>, m: Model)
    ensures Holds(MkOr(ls), m) <==> AnyOf(Truths(ls, m))
  {
    hide Value, Holds;
    MkOrHolds(ls, m);
    var bs := Truths(ls, m);
    if AnyHolds(ls, m) {
      var i :| 0 <= i < |ls| && Holds(ls[i], m);
      assert bs[i];
    }
  }

  lemma Clause2(a: Term, b: Term, m: Model)
    ensures Holds(MkOr([a, b]), m) == (Holds(a, m) || Holds(b, m))
  {
    hide Value, Holds;
    var bs := Truths([a, b], m);
    ClauseHolds([a, b], m);
    assert AnyOf(bs) <==> bs[0] || bs[1];
  }

  lemma Clause3(a: Term, b: Term, c: Term, m: Model)
    ensures Holds(MkOr([a, b, c]), m) == (Holds(a, m) || Holds(b, m) || Holds(c, m))
  {
    hide Value, Holds;
    var bs := Truths([a, b, c], m);
    ClauseHolds([a, b, c], m);
    assert AnyOf(bs) <==> bs[0] || bs[1] || bs[2];
  }

  /** The long clause of a gate: negated or plain operands and one more. */
  lemma LongClause(ls: seq<Term>, a: Term, m: Model)
    ensures Holds(MkOr(ls + [a]), m) == (AnyOf(Truths(ls, m)) || Holds(a, m))
  {
    hide Value, Holds;
    var bs, cs := Truths(ls, m), Truths(ls + [a], m);
    ClauseHolds(ls + [a], m);
    assert cs == bs + [Holds(a, m)];
    if AnyOf(bs) {
      var i :| 0 <= i < |bs| && bs[i];
      assert cs[i];
    }
    assert cs[|bs|] == Holds(a, m);
  }

  lemma NegsHold(ls: seq<Term>, m: Model)
    requires AllLits(ls)
    ensures AnyOf(Truths(Negs(ls), m)) <==> !AllOf(Truths(ls, m))
    ensures forall i | 0 <= i < |ls| :: Holds(Negs(ls)[i], m) == !Holds(ls[i], m)
  {
    hide Value, Holds;
    forall i | 0 <= i < |ls|
      ensures Holds(Negs(ls)[i], m) == !Holds(ls[i], m)
    {
      LitHolds(ls[i], m);
    }
    var ns, bs := Truths(Negs(ls), m), Truths(ls, m);
    assert forall i | 0 <= i < |ls| :: ns[i] == !bs[i];
  }

  /** The clauses of a gate hold exactly when its variable relates to its
      operands as the connective says, in one direction for an implication. */
  lemma GateClausesExact(k: Kind, c: Term, ls: seq<Term>, m: Model)
    requires GateOk(k, |ls|) && IsLit(c) && AllLits(ls)
    ensures AllHold(GateClauses(k, c, ls), m) <==> GateRelation(k, Holds(c, m), Truths(ls, m), false)
  {
    hide Value, Holds, MkNot, MkOr, GateClauses;
    match k
    case Not => NotGateExact(c, ls, m);
    case And => AndGateExact(c, ls, m);
    case Or => OrGateExact(c, ls, m);
    case Implies => ImpliesGateExact(c, ls, m);
    case Ite => IteGateExact(c, ls, m);
    case _ => BinaryGateExact(k, c, ls, m);
  }

  lemma NotGateExact(c: Term, ls: seq<Term>, m: Model)
    requires |ls| == 1 && IsLit(c) && AllLits(ls)
    ensures AllHold(GateClauses(Not, c, ls), m) <==> Holds(c, m) == Connective(Not, Truths(ls, m))
  {
    hide Value, Holds, MkNot, MkOr;
    LitHolds(c, m);
    NegsHold(ls, m);
    Clause2(MkNot(c), MkNot(ls[0]), m);
    Clause2(ls[0], c, m);
    FixedGate(GateClauses(Not, c, ls), m);
  }

  lemma IteGateExact(c: Term, ls: seq<Term>, m: Model)
    requires |ls| == 3 && IsLit(c) && AllLits(ls)
    ensures AllHold(GateClauses(Ite, c, ls), m) <==> Holds(c, m) == Connective(Ite, Truths(ls, m))
  {
    hide Value, Holds, MkNot, MkOr;
    var a, b, d := ls[0], ls[1], ls[2];
    LitHolds(c, m);
    LitHolds(a, m);
    LitHolds(b, m);
    LitHolds(d, m);
    Clause3(MkNot(c), MkNot(a), b, m);
    Clause3(MkNot(c), a, d, m);
    Clause3(c, MkNot(a), MkNot(b), m);
    Clause3(c, a, MkNot(d), m);
    FixedGate(GateClauses(Ite, c, ls), m);
  }

  lemma FixedGate(cs: seq<Term>, m: Model)
    ensures |cs| == 2 ==> (AllHold(cs, m) <==> Holds(cs[0], m) && Holds(cs[1], m))
    ensures |cs| == 4 ==> (AllHold(cs, m) <==>
                             Holds(cs[0], m) && Holds(cs[1], m) && Holds(cs[2], m) && Holds(cs[3], m))
  {
    hide Holds;
  }

  lemma BinaryGateExact(k: Kind, c: Term, ls: seq<Term>, m: Model)
    requires (k.Xor? || k.Eq? || k.Distinct?) && |ls| == 2 && IsLit(c) && AllLits(ls)
    ensures AllHold(GateClauses(k, c, ls), m) <==> Holds(c, m) == Connective(k, Truths(ls, m))
  {
    hide Value, Holds, MkNot, MkOr;
    var a, b := ls[0], ls[1];
    LitHolds(c, m);
    LitHolds(a, m);
    LitHolds(b, m);
    Clause3(MkNot(c), MkNot(a), MkNot(b), m);
    Clause3(MkNot(c), a, b, m);
    Clause3(MkNot(c), a, MkNot(b), m);
    Clause3(MkNot(c), MkNot(a), b, m);
    Clause3(c, MkNot(a), b, m);
    Clause3(c, a, MkNot(b), m);
    Clause3(c, a, b, m);
    Clause3(c, MkNot(a), MkNot(b), m);
    FixedGate(GateClauses(k, c, ls), m);
    var bs := Truths(ls, m);
    assert Parity(bs[..1]) == bs[0] by {
      assert bs[..1][..0] == [];
    }
  }

  lemma AndGateExact(c: Term, ls: seq<Term>, m: Model)
    requires IsLit(c) && AllLits(ls) && |ls| > 0
    ensures AllHold(GateClauses(And, c, ls), m) <==> Holds(c, m) == AllOf(Truths(ls, m))
  {
    hide Value, Holds, MkNot, MkOr;
    var short, long := PairClauses(MkNot(c), ls), MkOr(Negs(ls) + [c]);
    LitHolds(c, m);
    NegsHold(ls, m);
    LongClause(Negs(ls), c, m);
    forall i | 0 <= i < |ls|
      ensures Holds(short[i], m) == (!Holds(c, m) || Truths(ls, m)[i])
    {
      Clause2(MkNot(c), ls[i], m);
    }
    AllHoldSnoc(short, long, m);
  }

  lemma OrGateExact(c: Term, ls: seq<Term>, m: Model)
    requires IsLit(c) && AllLits(ls) && |ls| > 0
    ensures AllHold(GateClauses(Or, c, ls), m) <==> Holds(c, m) == AnyOf(Truths(ls, m))
  {
    hide Value, Holds, MkNot, MkOr;
    var short, long := PairClausesLeft(Negs(ls), c), MkOr(ls + [MkNot(c)]);
    LitHolds(c, m);
    NegsHold(ls, m);
    LongClause(ls, MkNot(c), m);
    forall i | 0 <= i < |ls|
      ensures Holds(short[i], m) == (Holds(c, m) || !Truths(ls, m)[i])
    {
      Clause2(Negs(ls)[i], c, m);
    }
    AllHoldSnoc(short, long, m);
  }

  lemma ImpliesGateExact(c: Term, ls: seq<Term>, m: Model)
    requires IsLit(c) && AllLits(ls) && |ls| > 0
    ensures AllHold(GateClauses(Implies, c, ls), m) <==>
              GateRelation(Implies, Holds(c, m), Truths(ls, m), false)
  {
    hide Value, Holds, MkNot, MkOr;
    hide AnyOf, AllOf;
    var n := |ls| - 1;
    NegsHold(ls, m);
    LongClause(Negs(ls), c, m);
    ForwardClause(c, ls, m);
    assert Truths(ls[..n], m) == Truths(ls, m)[..n];
    var first := [MkOr([MkNot(c)] + Negs(ls[..n]) + [ls[n]])];
    assert AllHold(first, m) <==> Holds(first[0], m);
    AllHoldSnoc(first, MkOr(Negs(ls) + [c]), m);
    assert GateClauses(Implies, c, ls) == first + [MkOr(Negs(ls) + [c])];
    assert Connective(Implies, Truths(ls, m)) == (AllOf(Truths(ls, m)[..n]) ==> Truths(ls, m)[n]);
  }

  /** The clause from the gate variable to the implication. */
  lemma {:induction false} ForwardClause(c: Term, ls: seq<Term>, m: Model)
    requires IsLit(c) && AllLits(ls) && |ls| > 0
    ensures var n := |ls| - 1;
            Holds(MkOr([MkNot(c)] + Negs(ls[..n]) + [ls[n]]), m)
            <==> !Holds(c, m) || !AllOf(Truths(ls[..n], m)) || Holds(ls[n], m)
  {
    hide Value, Holds, MkNot, MkOr, AllOf;
    var n := |ls| - 1;
    var head := [MkNot(c)] + Negs(ls[..n]);
    LitHolds(c, m);
    NegsHold(ls[..n], m);
    LongClause(head, ls[n], m);
    var hs := Truths(head, m);
    assert hs == [!Holds(c, m)] + Truths(Negs(ls[..n]), m);
    FirstOrRest(hs);
    assert hs[1..] == Truths(Negs(ls[..n]), m);
  }

  lemma FirstOrRest(hs: seq<bool>)
    requires hs != []
    ensures AnyOf(hs) <==> hs[0] || AnyOf(hs[1..])
  {
    assert forall i | 1 <= i < |hs| :: hs[i] == hs[1..][i - 1];
  }

  lemma AllHoldSnoc(cs: seq<Term>, c: Term, m: Model)
    ensures AllHold(cs + [c], m) <==> AllHold(cs, m) && Holds(c, m)
  {
    hide Holds;
    if AllHold(cs + [c], m) {
      assert (cs + [c])[|cs|] == c;
      assert forall i | 0 <= i < |cs| :: (cs + [c])[i] == cs[i];
    }
  }
}
