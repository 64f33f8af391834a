// What the normal forms ask of a formula: they read the first two operands of
// an implication and no others, and negate comparisons by swapping operators.
module Implications {
  import opened Terms
  import opened Builders
  import opened Tseitin

  /** Where `(=> a b)` says what `(=> a b c ...)` says: the first operand fails,
      or the second holds and the whole implication does too. */
  ghost predicate ReadsTwo(t: Term, m: Model)
    requires |t.children| >= 2
  {
    var n := |t.children| - 1;
    || n == 1
    || !Holds(t.children[0], m)
    || (Holds(t.children[1], m) && (AllHold(t.children[..n], m) ==> Holds(t.children[n], m)))
  }

  lemma ReadsTwoExact(t: Term, m: Model)
    requires t.kind.Implies? && t.sort == Bool && |t.children| >= 2 && AllBool(t.children)
    ensures ((Holds(t.children[0], m) ==> Holds(t.children[1], m)) <==> Holds(t, m)) <==> ReadsTwo(t, m)
  {
    hide Value, Holds;
    ConnectiveHolds(t, m);
    var n, bs := |t.children| - 1, Truths(t.children, m);
    assert AllOf(bs[..n]) <==> AllHold(t.children[..n], m);
    assert bs[..n][0] == bs[0] && (n > 1 ==> bs[..n][1] == bs[1]);
  }

  /** A condition on the implications of a formula and on its arithmetic
      comparisons. */
  type Condition = Term -> bool

  /** None. */
  function Any(): Condition { (t: Term) => true }

  /** Two operands each. */
  function TwoOperands(): Condition { (t: Term) => |t.children| == 2 }

  /** Read and negated right in a model. */
  ghost function ReadIn(m: Model): Condition {
    (t: Term) => if t.kind.Implies? then |t.children| >= 2 && ReadsTwo(t, m) else Negates(t, m)
  }

  /** A term the condition is asked about. */
  predicate Judged(t: Term) { t.sort == Bool && (t.kind.Implies? || IsComp(t)) }

  ghost predicate Weaker(ok: Condition, more: Condition) {
    forall t: Term {:trigger Judged(t)} :: Judged(t) && ok(t) ==> more(t)
  }

  /** A comparison that meets the condition does so with its operator swapped. */
  ghost predicate Stable(ok: Condition) {
    forall t: Term {:trigger NegateComp(t)} ::
      t.sort == Bool && IsComp(t) && ok(t) && IsComp(NegateComp(t)) ==> ok(NegateComp(t))
  }

  /** Comparisons that meet the condition are negated right. */
  ghost predicate Sound(ok: Condition, m: Model) {
    forall t: Term {:trigger Negates(t, m)} :: t.sort == Bool && IsComp(t) && ok(t) ==> Negates(t, m)
  }

  lemma ReadInHolds(m: Model)
    ensures Stable(ReadIn(m)) && Sound(ReadIn(m), m)
  {
    hide IsArithTerm, IsStrTerm, ReadsTwo, Holds, Negates;
    forall t: Term | t.sort == Bool && IsComp(t) && ReadIn(m)(t) && IsComp(NegateComp(t))
      ensures ReadIn(m)(NegateComp(t))
    {
      SwappedNegates(t, m);
    }
  }

  /** Swapping twice changes nothing but the printed name. */
  lemma {:induction false} SwappedNegates(t: Term, m: Model)
    requires t.sort == Bool && IsComp(t) && Negates(t, m) && IsComp(NegateComp(t))
    ensures Negates(NegateComp(t), m)
  {
    hide IsArithTerm, IsStrTerm, Value;
    var n := NegateComp(t);
    assert MkNot(t) == n && MkNot(n) == NegateComp(n);
    SwappedTwice(t, m);
  }

  lemma {:induction false} SwappedTwice(t: Term, m: Model)
    requires t.sort == Bool && IsComp(t) && IsComp(NegateComp(t))
    ensures Holds(NegateComp(NegateComp(t)), m) == Holds(t, m)
  {
    hide IsArithTerm, IsStrTerm, Value, StrLess;
    var r := NegateComp(NegateComp(t));
    TwiceSame(t);
    Unfold(t, m);
    Unfold(r, m);
  }

  lemma {:induction false} TwiceSame(t: Term)
    requires t.sort == Bool && IsComp(t) && IsComp(NegateComp(t))
    ensures var r := NegateComp(NegateComp(t));
            r.kind == t.kind && r.children == t.children && r.sort == t.sort
  {
    hide IsArithTerm, IsStrTerm;
    var n := NegateComp(t);
    assert n.kind != ConstTrue && n.kind != ConstFalse && n.children == t.children;
  }

  /** Implications and comparisons of two operands are read and
      negated right in every model. */
  lemma TwoAreRead(m: Model)
    ensures Weaker(TwoOperands(), ReadIn(m))
  {
    hide IsArithTerm, IsStrTerm, Holds, Negates;
    forall t: Term | Judged(t) && TwoOperands()(t)
      ensures ReadIn(m)(t)
    {
      if !t.kind.Implies? {
        BinaryNegates(t, m);
      }
    }
  }

  lemma {:induction false} BinaryNegates(t: Term, m: Model)
    requires t.sort == Bool && IsComp(t) && |t.children| == 2
    ensures Negates(t, m)
  {
    MkNotHolds(t, m);
  }
}
