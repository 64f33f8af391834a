// toDNFEliminateAll: rewriting xor, =>, ite, = and distinct away with a memo
// table that outlives the rounds of the outer loop.
module DnfElimination {
  import opened Terms
  import opened Builders
  import opened LetExpansion
  import opened Tseitin
  import opened Implications

  predicate IsDnfLeaf(t: Term) { IsLiteral(t) || IsAtom(t) || t.kind.TempVar? }

  /** Equalities and `distinct` over integers or strings that are no atoms, such
      as every `distinct` over strings: a pass that meets one raises an error,
      at the node or at its first operand; see `Raises`. */
  predicate Refused(t: Term) {
    && t.sort == Bool && (t.kind.Eq? || t.kind.Distinct?) && t.children != [] && !IsDnfLeaf(t)
    && (t.children[0].sort == Int || t.children[0].sort == Str || IsStrTerm(t.children[0]))
  }

  /** Where a pass ends, one way or the other. */
  predicate IsEnd(t: Term) { IsDnfLeaf(t) || Refused(t) }

  /** A xor B. */
  function XorPair(a: Term, b: Term): Term {
    MkOr([MkAnd([a, MkNot(b)]), MkAnd([MkNot(a), b])])
  }

  function EqPair(a: Term, b: Term): Term {
    MkOr([MkAnd([a, b]), MkAnd([MkNot(a), MkNot(b)])])
  }

  function EliminateXor(ts: seq<Term>): Term
    requires |ts| >= 2
  {
    var n := |ts| - 1;
    if n == 1 then XorPair(ts[0], ts[1]) else XorPair(EliminateXor(ts[..n]), ts[n])
  }

  /** Adjacent pairs of a chain. */
  function AdjacentEqs(ts: seq<Term>): seq<Term>
    requires |ts| >= 1
  {
    seq(|ts| - 1, i requires 0 <= i < |ts| - 1 => EqPair(ts[i], ts[i + 1]))
  }

  function EliminateEq(ts: seq<Term>): Term {
    if |ts| <= 1 then TrueTerm
    else if |ts| == 2 then EqPair(ts[0], ts[1])
    else MkAnd(AdjacentEqs(ts))
  }

  function EliminateDistinct(ts: seq<Term>): Term {
    if |ts| <= 1 then TrueTerm
    else if |ts| == 2 then XorPair(ts[0], ts[1])
    else FalseTerm
  }

  /** The operands the conversion looks at: two of an implication. */
  function Looked(t: Term): seq<Term> {
    if t.kind.Implies? && |t.children| > 2 then t.children[..2] else t.children
  }

  lemma LookedRank(t: Term)
    ensures RankAll(Looked(t)) <= Rank(t)
    ensures forall i | 0 <= i < |Looked(t)| :: Looked(t)[i] == t.children[i] && Rank(t.children[i]) <= Rank(t)
  {
    assert forall i | 0 <= i < |t.children| :: HasBinder(t.children[i]) ==> AnyHasBinder(t.children);
  }

  /** Formulas over Boolean operands, with implications and arithmetic
      comparisons that meet a condition. */
  predicate DnfInput(t: Term, ok: Condition)
    decreases Rank(t), t
  {
    if IsEnd(t) then t.sort == Bool && (IsComp(t) ==> ok(t)) && (t.kind.Not? ==> |t.children| == 1)
    else if t.kind.Let? then t.sort == Bool && WellFormed(t) && DnfInput(ExpandLet(t), ok)
    else
      && t.sort == Bool && IsConnective(t.kind)
      && (t.kind.Not? ==> |t.children| == 1)
      && (t.kind.Implies? ==> |t.children| >= 2 && AllBool(t.children) && ok(t))
      && (t.kind.Ite? ==> |t.children| == 3)
      && (t.kind.Xor? ==> |t.children| >= 2)
      && forall i | 0 <= i < |Looked(t)| :: (LookedRank(t); DnfInput(Looked(t)[i], ok))
  }

  predicate AllDnfInput(ts: seq<Term>, ok: Condition) { forall i | 0 <= i < |ts| :: DnfInput(ts[i], ok) }

  /** The result, the memo table and the change flag. */
  datatype Pass = Pass(term: Term, visited: map<Term, Term>, changed: bool)

  datatype PassAll = PassAll(terms: seq<Term>, visited: map<Term, Term>, changed: bool)

  predicate IsJunction(k: Kind) { k.Not? || k.And? || k.Or? }

  /** Implication, ite and xor hand their own flag down to their operands, by
      reference; the other connectives start each operand with a clear one. */
  predicate SharesFlag(k: Kind) { k.Implies? || k.Ite? || k.Xor? }

  /** One pass. `and` and `or` are rebuilt when their flag is set, which may
      have happened before they were entered; a hit in the table leaves the
      flag alone even if the entry differs from the node. */
  function Eliminate(t: Term, visited: map<Term, Term>, changed: bool): Pass
    requires DnfInput(t, Any())
    decreases Rank(t), t, 1
  {
    if IsEnd(t) then Pass(t, visited, changed)
    else if t in visited then Pass(visited[t], visited, changed)
    else if t.kind.Let? then
      var p := Eliminate(ExpandLet(t), visited, changed);
      Pass(p.term, p.visited[t := p.term], p.changed)
    else
      LookedRank(t);
      var p := EliminateAll(Looked(t), visited, SharesFlag(t.kind), SharesFlag(t.kind) && changed);
      var r := Replacement(t, p.terms, changed || p.changed);
      Pass(r, p.visited[t := r], changed || p.changed || !IsJunction(t.kind))
  }

  /** What a node becomes, given its operands' results. Distinct over more
      than two Booleans is false. */
  function Replacement(t: Term, cs: seq<Term>, changed: bool): Term
    requires DnfInput(t, Any()) && !IsEnd(t) && !t.kind.Let? && |cs| == |Looked(t)|
  {
    match t.kind
    case Not => MkNot(cs[0])
    case And => if changed then MkAnd(cs) else t
    case Or => if changed then MkOr(cs) else t
    case Implies => MkOr([MkNot(cs[0]), cs[1]])
    case Ite => MkAnd([MkOr([MkNot(cs[0]), cs[1]]), MkOr([cs[0], cs[2]])])
    case Xor => EliminateXor(cs)
    case Eq => EliminateEq(cs)
    case Distinct => EliminateDistinct(cs)
  }

  function EliminateAll(ts: seq<Term>, visited: map<Term, Term>, shared: bool, changed: bool): (p: PassAll)
    requires AllDnfInput(ts, Any())
    ensures |p.terms| == |ts|
    decreases RankAll(ts), ts, 0
  {
    if ts == [] then PassAll([], visited, changed)
    else
      var n := |ts| - 1;
      assert AnyHasBinder(ts[..n]) || HasBinder(ts[n]) ==> AnyHasBinder(ts);
      var p := EliminateAll(ts[..n], visited, shared, changed);
      var q := Eliminate(ts[n], p.visited, shared && p.changed);
      PassAll(p.terms + [q.term], q.visited, p.changed || q.changed)
  }

  // ------------------------------------------------------------------
  // Replacements mean the same
  // ------------------------------------------------------------------

  /** A weaker condition admits more. */
  lemma {:induction false} DnfInputWeakens(t: Term, ok: Condition, more: Condition)
    requires DnfInput(t, ok) && Weaker(ok, more)
    ensures DnfInput(t, more)
    decreases Rank(t), t
  {
    hide IsArithTerm, IsStrTerm;
    assert Judged(t) <==> t.sort == Bool && (t.kind.Implies? || IsComp(t));
    if !IsEnd(t) {
      if t.kind.Let? {
        DnfInputWeakens(ExpandLet(t), ok, more);
      } else {
        LookedRank(t);
        forall i | 0 <= i < |Looked(t)|
          ensures DnfInput(Looked(t)[i], more)
        {
          DnfInputWeakens(Looked(t)[i], ok, more);
        }
      }
    }
  }

  /** With two operands each, implications are read and comparisons negated
      right in every model. */
  lemma BinaryReads(t: Term, m: Model)
    requires DnfInput(t, TwoOperands())
    ensures DnfInput(t, ReadIn(m))
  {
    hide DnfInput, ReadIn;
    TwoAreRead(m);
    DnfInputWeakens(t, TwoOperands(), ReadIn(m));
  }

  lemma InputIsAny(t: Term, ok: Condition)
    requires DnfInput(t, ok)
    ensures DnfInput(t, Any())
  {
    hide DnfInput;
    DnfInputWeakens(t, ok, Any());
  }

  lemma InputIsBool(t: Term, ok: Condition)
    requires DnfInput(t, ok)
    ensures t.sort == Bool && (IsComp(t) ==> ok(t))
  {
  }

  lemma InputNotHolds(t: Term, ok: Condition, m: Model)
    requires DnfInput(t, ok) && Sound(ok, m)
    ensures Negates(t, m) && Holds(MkNot(t), m) == !Holds(t, m)
  {
    hide Holds, MkNot;
    InputIsBool(t, ok);
    if IsComp(t) {
      assert Negates(t, m);
    } else {
      MkNotHolds(t, m);
    }
  }

  lemma And2Holds(a: Term, b: Term, m: Model)
    ensures Holds(MkAnd([a, b]), m) <==> Holds(a, m) && Holds(b, m)
  {
    hide Holds, MkAnd;
    var ts := [a, b];
    MkAndHolds(ts, m);
    assert ts[0] == a && ts[1] == b;
  }

  lemma PairsHold(a: Term, b: Term, ok: Condition, m: Model)
    requires DnfInput(a, ok) && DnfInput(b, ok) && Sound(ok, m)
    ensures Holds(XorPair(a, b), m) <==> Holds(a, m) != Holds(b, m)
    ensures Holds(EqPair(a, b), m) <==> Holds(a, m) == Holds(b, m)
  {
    hide Holds, MkNot, MkAnd, MkOr, DnfInput;
    InputNotHolds(a, ok, m);
    InputNotHolds(b, ok, m);
    And2Holds(a, MkNot(b), m);
    And2Holds(MkNot(a), b, m);
    And2Holds(a, b, m);
    And2Holds(MkNot(a), MkNot(b), m);
    Clause2(MkAnd([a, MkNot(b)]), MkAnd([MkNot(a), b]), m);
    Clause2(MkAnd([a, b]), MkAnd([MkNot(a), MkNot(b)]), m);
  }

  /** Built from inputs, the results are inputs again. */
  lemma BuiltAreInputs(ts: seq<Term>, ok: Condition)
    requires AllDnfInput(ts, ok)
    ensures DnfInput(MkAnd(ts), ok) && DnfInput(MkOr(ts), ok)
  {
    hide MkAnd, MkOr;
    JunctionShape(ts);
    assert forall c | c in ts :: DnfInput(c, ok);
    JunctionIsInput(MkAnd(ts), ts, ok);
    JunctionIsInput(MkOr(ts), ts, ok);
  }

  lemma JunctionIsInput(t: Term, ts: seq<Term>, ok: Condition)
    requires forall c | c in ts :: DnfInput(c, ok)
    ensures (t.kind.And? || t.kind.Or?) && t.sort == Bool && (forall c | c in t.children :: c in ts) ==> DnfInput(t, ok)
    ensures t == TrueTerm || t == FalseTerm ==> DnfInput(t, ok)
  {
  }

  /** The swap of a comparison is an atom or a constant, or it is refused. */
  lemma {:induction false} SwapIsEnd(t: Term)
    requires IsComp(t)
    ensures var n := NegateComp(t);
            n.sort == Bool && IsEnd(n) && !n.kind.Not? && (Refused(n) <==> IsStrEq(t) && !IsArithComp(t))
  {
    hide IsArithTerm, IsStrTerm;
    if t.kind.Eq? && IsStrEq(t) {
      TermsApart(t.children[0]);
    }
  }

  lemma NegationIsInput(t: Term, ok: Condition)
    requires DnfInput(t, ok) && Stable(ok)
    ensures DnfInput(MkNot(t), ok)
  {
    hide IsArithTerm, IsStrTerm;
    if !IsEnd(t) && t.kind.Not? {
      assert DnfInput(Looked(t)[0], ok);
    }
    if !(t.kind.Not? && |t.children| == 1) && !IsTrue(t) && !IsFalse(t) {
      if IsComp(t) {
        SwapIsEnd(t);
      } else {
        NotNodeIsInput(t, ok);
      }
    }
  }

  lemma NotNodeIsInput(t: Term, ok: Condition)
    requires DnfInput(t, ok)
    ensures DnfInput(MkOper(Bool, Not, [t]), ok)
  {
    InputIsBool(t, ok);
    hide IsArithTerm, IsStrTerm;
  }

  lemma PairsAreInputs(a: Term, b: Term, ok: Condition)
    requires DnfInput(a, ok) && DnfInput(b, ok) && Stable(ok)
    ensures DnfInput(XorPair(a, b), ok) && DnfInput(EqPair(a, b), ok)
  {
    hide MkNot, MkAnd, MkOr, DnfInput;
    NegationIsInput(a, ok);
    NegationIsInput(b, ok);
    BuiltAreInputs([a, MkNot(b)], ok);
    BuiltAreInputs([MkNot(a), b], ok);
    BuiltAreInputs([a, b], ok);
    BuiltAreInputs([MkNot(a), MkNot(b)], ok);
    BuiltAreInputs([MkAnd([a, MkNot(b)]), MkAnd([MkNot(a), b])], ok);
    BuiltAreInputs([MkAnd([a, b]), MkAnd([MkNot(a), MkNot(b)])], ok);
  }

  lemma {:induction false} PrefixInput(ts: seq<Term>, n: nat, ok: Condition)
    requires n < |ts| && AllDnfInput(ts, ok)
    ensures AllDnfInput(ts[..n], ok) && DnfInput(ts[n], ok)
  {
    hide DnfInput;
  }

  lemma {:induction false} EliminateXorIsInput(ts: seq<Term>, ok: Condition)
    requires |ts| >= 2 && AllDnfInput(ts, ok) && Stable(ok)
    ensures DnfInput(EliminateXor(ts), ok)
  {
    hide DnfInput, XorPair, Stable;
    var n := |ts| - 1;
    if n == 1 {
      PairsAreInputs(ts[0], ts[1], ok);
    } else {
      PrefixInput(ts, n, ok);
      hide AllDnfInput;
      EliminateXorIsInput(ts[..n], ok);
      var r, x := EliminateXor(ts[..n]), ts[n];
      assert EliminateXor(ts) == XorPair(r, x);
      hide EliminateXor;
      PairsAreInputs(r, x, ok);
    }
  }

  lemma {:induction false} EliminateXorHolds(ts: seq<Term>, ok: Condition, m: Model)
    requires |ts| >= 2 && AllDnfInput(ts, ok) && Stable(ok) && Sound(ok, m)
    ensures Holds(EliminateXor(ts), m) == Parity(Truths(ts, m))
  {
    hide Holds, DnfInput, XorPair, Stable, Sound;
    var n := |ts| - 1;
    TruthsSnoc(ts, m);
    PrefixInput(ts, n, ok);
    if n == 1 {
      TruthsSnoc(ts[..1], m);
      assert ts[..1][..0] == [] && ts[..1][0] == ts[0];
      PairsHold(ts[0], ts[1], ok, m);
    } else {
      hide AllDnfInput, Parity;
      EliminateXorHolds(ts[..n], ok, m);
      EliminateXorIsInput(ts[..n], ok);
      var r, x := EliminateXor(ts[..n]), ts[n];
      assert EliminateXor(ts) == XorPair(r, x);
      hide EliminateXor;
      PairsHold(r, x, ok, m);
    }
  }

  lemma {:induction false} TruthsSnoc(ts: seq<Term>, m: Model)
    requires ts != []
    ensures var n := |ts| - 1;
            Parity(Truths(ts, m)) == (Parity(Truths(ts[..n], m)) != Holds(ts[n], m))
    ensures Parity(Truths([], m)) == false
  {
    hide Holds;
    assert Truths(ts[..|ts| - 1], m) == Truths(ts, m)[..|ts| - 1];
  }

  lemma {:induction false} ComparisonsAreInputs(ts: seq<Term>, ok: Condition)
    requires AllDnfInput(ts, ok) && Stable(ok)
    ensures DnfInput(EliminateEq(ts), ok) && DnfInput(EliminateDistinct(ts), ok)
  {
    hide DnfInput, EqPair, XorPair, MkAnd, Stable;
    ConstantsAreInputs(ok);
    if |ts| == 2 {
      PairsAreInputs(ts[0], ts[1], ok);
    } else if |ts| > 2 {
      var qs := AdjacentEqs(ts);
      forall i | 0 <= i < |qs|
        ensures DnfInput(qs[i], ok)
      {
        PairsAreInputs(ts[i], ts[i + 1], ok);
      }
      BuiltAreInputs(qs, ok);
    }
  }

  lemma {:induction false} EliminateEqHolds(ts: seq<Term>, ok: Condition, m: Model)
    requires AllDnfInput(ts, ok) && Sound(ok, m)
    ensures Holds(EliminateEq(ts), m) == Connective(Eq, Truths(ts, m))
  {
    hide Holds, DnfInput, EqPair, MkAnd, Value, Sound;
    var bs := Truths(ts, m);
    if |ts| <= 1 {
      ConstantsHold(m);
      assert IsTrue(TrueTerm) && IsFalse(FalseTerm);
    } else if |ts| == 2 {
      PairsHold(ts[0], ts[1], ok, m);
    } else {
      AdjacentHold(ts, ok, m);
      MkAndHolds(AdjacentEqs(ts), m);
      ChainIsEq(bs);
    }
  }

  lemma {:induction false} AdjacentHold(ts: seq<Term>, ok: Condition, m: Model)
    requires |ts| >= 1 && AllDnfInput(ts, ok) && Sound(ok, m)
    ensures var qs, bs := AdjacentEqs(ts), Truths(ts, m);
            AllHold(qs, m) <==> forall i | 0 <= i < |bs| - 1 :: bs[i] == bs[i + 1]
  {
    hide Holds, DnfInput, AllDnfInput, EqPair, Sound;
    var qs, bs := AdjacentEqs(ts), Truths(ts, m);
    assert |qs| == |bs| - 1;
    forall i | 0 <= i < |qs|
      ensures Holds(qs[i], m) == (bs[i] == bs[i + 1])
    {
      AdjacentAt(ts, ok, i, m);
    }
  }

  lemma {:induction false} AdjacentAt(ts: seq<Term>, ok: Condition, i: nat, m: Model)
    requires i + 1 < |ts| && AllDnfInput(ts, ok) && Sound(ok, m)
    ensures Holds(AdjacentEqs(ts)[i], m) == (Holds(ts[i], m) == Holds(ts[i + 1], m))
  {
    hide Holds, DnfInput, EqPair, Sound, Value;
    var a, b := ts[i], ts[i + 1];
    assert DnfInput(a, ok) && DnfInput(b, ok);
    hide AllDnfInput;
    assert AdjacentEqs(ts)[i] == EqPair(a, b);
    hide AdjacentEqs;
    PairsHold(a, b, ok, m);
  }

  /** A chain of equal neighbours is all equal. */
  lemma ChainIsEq(bs: seq<bool>)
    requires |bs| >= 1
    ensures (forall i | 0 <= i < |bs| - 1 :: bs[i] == bs[i + 1]) <==> (forall i | 0 <= i < |bs| :: bs[i] == bs[0])
  {
    if forall i | 0 <= i < |bs| - 1 :: bs[i] == bs[i + 1] {
      var n := 1;
      while n < |bs|
        invariant 1 <= n <= |bs| && forall i | 0 <= i < n :: bs[i] == bs[0]
      {
        assert bs[n - 1] == bs[n - 1 + 1];
        n := n + 1;
      }
    }
  }

  lemma ConstantsAreInputs(ok: Condition)
    ensures DnfInput(TrueTerm, ok) && DnfInput(FalseTerm, ok)
  {
  }

  lemma {:induction false} EliminateDistinctHolds(ts: seq<Term>, ok: Condition, m: Model)
    requires AllDnfInput(ts, ok) && Sound(ok, m)
    ensures Holds(EliminateDistinct(ts), m) == Connective(Distinct, Truths(ts, m))
  {
    hide Holds, DnfInput, XorPair, Value, Connective, Sound;
    ConstantsHold(m);
    assert IsTrue(TrueTerm) && IsFalse(FalseTerm);
    DistinctBits(Truths(ts, m));
    if |ts| == 2 {
      PairsHold(ts[0], ts[1], ok, m);
      TwoDiffer(Truths(ts, m));
    }
  }

  lemma TwoDiffer(bs: seq<bool>)
    requires |bs| == 2
    ensures Connective(Distinct, bs) == (bs[0] != bs[1])
  {
  }

  /** There are only two Booleans to be distinct. */
  lemma DistinctBits(bs: seq<bool>)
    ensures |bs| <= 1 ==> Connective(Distinct, bs)
    ensures |bs| == 2 ==> Connective(Distinct, bs) == (bs[0] != bs[1])
    ensures |bs| > 2 ==> !Connective(Distinct, bs)
  {
    if |bs| > 2 {
      assert bs[0] == bs[1] || bs[0] == bs[2] || bs[1] == bs[2];
    }
  }

  /** A connective of Booleans that the conversion accepts means its truth
      function, whatever its operand count. */
  lemma InputHolds(t: Term, ok: Condition, m: Model)
    requires DnfInput(t, ok) && !IsEnd(t) && !t.kind.Let?
    ensures Holds(t, m) == Connective(t.kind, Truths(t.children, m))
  {
    hide Value, Holds;
    LookedRank(t);
    forall i | 0 <= i < |t.children|
      ensures t.children[i].sort == Bool
    {
      if !t.kind.Implies? {
        assert DnfInput(Looked(t)[i], ok);
        InputIsBool(t.children[i], ok);
      }
    }
    if ArityOk(t.kind, |t.children|) {
      ConnectiveHolds(t, m);
    } else {
      FewOperands(t, m);
    }
  }

  lemma FewOperands(t: Term, m: Model)
    requires t.sort == Bool && IsConnective(t.kind) && AllBool(t.children) && |t.children| <= 1
    requires t.kind.And? || t.kind.Or? || t.kind.Eq? || t.kind.Distinct?
    ensures !ArityOk(t.kind, |t.children|) ==> Holds(t, m) == Connective(t.kind, Truths(t.children, m))
  {
    Unfold(t, m);
  }

  /** An implication whose first two operands have right results: what replaces
      it is right exactly when it can be read from them. */
  lemma ImplicationExact(t: Term, cs: seq<Term>, m: Model)
    requires t.kind.Implies? && t.sort == Bool && |t.children| >= 2 && AllBool(t.children)
    requires |cs| == 2 && Negates(cs[0], m)
    requires Holds(cs[0], m) == Holds(t.children[0], m) && Holds(cs[1], m) == Holds(t.children[1], m)
    ensures Holds(MkOr([MkNot(cs[0]), cs[1]]), m) == Holds(t, m) <==> ReadsTwo(t, m)
  {
    hide Holds, MkOr, MkNot, ReadsTwo;
    ReadsTwoExact(t, m);
    Clause2(MkNot(cs[0]), cs[1], m);
  }

  lemma ImplicationIsInput(cs: seq<Term>, ok: Condition)
    requires |cs| == 2 && AllDnfInput(cs, ok) && Stable(ok)
    ensures DnfInput(MkOr([MkNot(cs[0]), cs[1]]), ok)
  {
    hide MkOr, MkNot, DnfInput;
    NegationIsInput(cs[0], ok);
    BuiltAreInputs([MkNot(cs[0]), cs[1]], ok);
  }

  /** What replaces a node is an input of the next pass. */
  lemma {:induction false} ReplacementIsInput(t: Term, cs: seq<Term>, changed: bool, ok: Condition)
    requires DnfInput(t, ok) && !IsEnd(t) && !t.kind.Let? && |cs| == |Looked(t)| && AllDnfInput(cs, ok) && Stable(ok)
    ensures DnfInput(t, Any()) && DnfInput(Replacement(t, cs, changed), ok)
  {
    hide MkAnd, MkOr, MkNot, IsEnd, EliminateXor, EliminateEq, EliminateDistinct, Stable;
    InputIsAny(t, ok);
    match t.kind
    case Not => NegationIsInput(cs[0], ok);
    case And => BuiltAreInputs(cs, ok);
    case Or => BuiltAreInputs(cs, ok);
    case Implies => ImplicationIsInput(cs, ok);
    case Ite => IteIsInput(cs, ok);
    case Xor => EliminateXorIsInput(cs, ok);
    case Eq => ComparisonsAreInputs(cs, ok);
    case Distinct => ComparisonsAreInputs(cs, ok);
  }

  lemma {:induction false} ReplacementHolds(t: Term, cs: seq<Term>, changed: bool, m: Model)
    requires DnfInput(t, ReadIn(m)) && !IsEnd(t) && !t.kind.Let? && |cs| == |Looked(t)| && AllDnfInput(cs, ReadIn(m))
    requires forall i | 0 <= i < |cs| :: Holds(cs[i], m) == Holds(Looked(t)[i], m)
    ensures DnfInput(t, Any()) && DnfInput(Replacement(t, cs, changed), ReadIn(m))
    ensures Holds(Replacement(t, cs, changed), m) == Holds(t, m)
  {
    hide Holds, MkAnd, MkOr, MkNot, IsEnd, EliminateXor, EliminateEq, EliminateDistinct, ReadsTwo, Stable, Sound;
    var ok := ReadIn(m);
    ReadInHolds(m);
    ReplacementIsInput(t, cs, changed, ok);
    if t.kind.Implies? {
      InputNotHolds(cs[0], ok, m);
      ImplicationExact(t, cs, m);
      assert ok(t);
    } else {
      ConnectiveReplaced(t, cs, changed, m);
    }
  }

  lemma {:induction false} ConnectiveReplaced(t: Term, cs: seq<Term>, changed: bool, m: Model)
    requires DnfInput(t, ReadIn(m)) && DnfInput(t, Any()) && !IsEnd(t) && !t.kind.Let? && !t.kind.Implies?
    requires |cs| == |t.children| && AllDnfInput(cs, ReadIn(m))
    requires forall i | 0 <= i < |cs| :: Holds(cs[i], m) == Holds(t.children[i], m)
    ensures Holds(Replacement(t, cs, changed), m) == Holds(t, m)
  {
    hide Holds, MkAnd, MkOr, MkNot, IsEnd, EliminateXor, EliminateEq, EliminateDistinct, ReadsTwo, Stable, Sound;
    var bs, ok := Truths(cs, m), ReadIn(m);
    ReadInHolds(m);
    InputHolds(t, ok, m);
    assert Truths(t.children, m) == bs;
    match t.kind
    case Not => InputNotHolds(cs[0], ok, m);
    case And =>
      MkAndHolds(cs, m);
      assert AllHold(cs, m) <==> AllOf(bs);
    case Or => ClauseHolds(cs, m);
    case Ite => IteReplaced(cs, ok, m);
    case Xor => EliminateXorHolds(cs, ok, m);
    case Eq => EliminateEqHolds(cs, ok, m);
    case Distinct => EliminateDistinctHolds(cs, ok, m);
  }

  lemma {:induction false} IteIsInput(cs: seq<Term>, ok: Condition)
    requires |cs| == 3 && AllDnfInput(cs, ok) && Stable(ok)
    ensures DnfInput(MkAnd([MkOr([MkNot(cs[0]), cs[1]]), MkOr([cs[0], cs[2]])]), ok)
  {
    hide MkOr, MkNot, MkAnd, DnfInput, Stable;
    NegationIsInput(cs[0], ok);
    var a, b := [MkNot(cs[0]), cs[1]], [cs[0], cs[2]];
    BuiltAreInputs(a, ok);
    BuiltAreInputs(b, ok);
    BuiltAreInputs([MkOr(a), MkOr(b)], ok);
  }

  lemma {:induction false} IteReplaced(cs: seq<Term>, ok: Condition, m: Model)
    requires |cs| == 3 && AllDnfInput(cs, ok) && Sound(ok, m)
    ensures Holds(MkAnd([MkOr([MkNot(cs[0]), cs[1]]), MkOr([cs[0], cs[2]])]), m) == Connective(Ite, Truths(cs, m))
  {
    hide Holds, MkOr, MkNot, MkAnd, DnfInput, Sound;
    InputNotHolds(cs[0], ok, m);
    Clause2(MkNot(cs[0]), cs[1], m);
    Clause2(cs[0], cs[2], m);
    And2Holds(MkOr([MkNot(cs[0]), cs[1]]), MkOr([cs[0], cs[2]]), m);
  }

  /** Table entries stand for their keys. */
  ghost predicate TableHolds(visited: map<Term, Term>, m: Model) {
    forall k | k in visited :: DnfInput(visited[k], ReadIn(m)) && Holds(visited[k], m) == Holds(k, m)
  }

  /** What a pass goes on with. */
  lemma InputParts(t: Term, ok: Condition)
    requires DnfInput(t, ok) && !IsEnd(t)
    ensures t.kind.Let? ==> WellFormed(t) && DnfInput(ExpandLet(t), ok) && Rank(ExpandLet(t)) < Rank(t)
    ensures !t.kind.Let? ==> AllDnfInput(Looked(t), ok)
  {
  }

  /** One step of a pass. */
  lemma PassUnfolds(t: Term, visited: map<Term, Term>, changed: bool)
    requires DnfInput(t, Any()) && !IsEnd(t) && t !in visited
    ensures t.kind.Let? ==>
              DnfInput(ExpandLet(t), Any()) &&
              var p := Eliminate(ExpandLet(t), visited, changed);
              Eliminate(t, visited, changed) == Pass(p.term, p.visited[t := p.term], p.changed)
    ensures !t.kind.Let? ==>
              AllDnfInput(Looked(t), Any()) &&
              var p := EliminateAll(Looked(t), visited, SharesFlag(t.kind), SharesFlag(t.kind) && changed);
              var r := Replacement(t, p.terms, changed || p.changed);
              Eliminate(t, visited, changed) == Pass(r, p.visited[t := r], changed || p.changed || !IsJunction(t.kind))
  {
    hide IsEnd, Replacement, DnfInput;
    InputParts(t, Any());
  }

  lemma Answered(t: Term, visited: map<Term, Term>, changed: bool, m: Model)
    requires DnfInput(t, Any()) && DnfInput(t, ReadIn(m)) && (IsEnd(t) || t in visited) && TableHolds(visited, m)
    ensures var p := Eliminate(t, visited, changed);
            DnfInput(p.term, ReadIn(m)) && Holds(p.term, m) == Holds(t, m) && TableHolds(p.visited, m)
  {
    hide Holds, DnfInput, IsEnd;
  }

  lemma TablePut(visited: map<Term, Term>, k: Term, r: Term, m: Model)
    requires TableHolds(visited, m) && DnfInput(r, ReadIn(m)) && Holds(r, m) == Holds(k, m)
    ensures TableHolds(visited[k := r], m)
  {
    hide Holds, DnfInput;
  }

  /** A pass keeps the truth value, through the table and whatever the flags
      were, in every model that reads the implications and negates the
      comparisons right. */
  lemma {:induction false} EliminateHolds(t: Term, visited: map<Term, Term>, changed: bool, m: Model)
    requires DnfInput(t, ReadIn(m)) && TableHolds(visited, m)
    ensures DnfInput(t, Any())
    ensures var p := Eliminate(t, visited, changed);
            DnfInput(p.term, ReadIn(m)) && Holds(p.term, m) == Holds(t, m) && TableHolds(p.visited, m)
    decreases Rank(t), t, 1
  {
    hide Holds, IsEnd, Replacement, ReadsTwo, DnfInput, ReadIn, Any, Eliminate, EliminateAll, TableHolds, HasBinder;
    InputIsAny(t, ReadIn(m));
    if IsEnd(t) || t in visited {
      Answered(t, visited, changed, m);
    } else {
      InputParts(t, ReadIn(m));
      PassUnfolds(t, visited, changed);
      if t.kind.Let? {
        EliminateHolds(ExpandLet(t), visited, changed, m);
        LetHolds(t, m);
        var p := Eliminate(ExpandLet(t), visited, changed);
        TablePut(p.visited, t, p.term, m);
      } else {
        LookedRank(t);
        var shared := SharesFlag(t.kind);
        var p := EliminateAll(Looked(t), visited, shared, shared && changed);
        EliminateAllHold(Looked(t), visited, shared, shared && changed, m);
        ReplacementHolds(t, p.terms, changed || p.changed, m);
        TablePut(p.visited, t, Replacement(t, p.terms, changed || p.changed), m);
      }
    }
  }

  lemma LastInput(ts: seq<Term>, ok: Condition)
    requires ts != [] && AllDnfInput(ts[..|ts| - 1], ok) && DnfInput(ts[|ts| - 1], ok)
    ensures AllDnfInput(ts, ok)
  {
    hide DnfInput;
    var n := |ts| - 1;
    assert forall i | 0 <= i < n :: ts[i] == ts[..n][i];
  }

  lemma {:induction false} EliminateAllHold(ts: seq<Term>, visited: map<Term, Term>, shared: bool, changed: bool, m: Model)
    requires AllDnfInput(ts, ReadIn(m)) && TableHolds(visited, m)
    ensures AllDnfInput(ts, Any())
    ensures var p := EliminateAll(ts, visited, shared, changed);
            && AllDnfInput(p.terms, ReadIn(m)) && TableHolds(p.visited, m)
            && forall i | 0 <= i < |ts| :: Holds(p.terms[i], m) == Holds(ts[i], m)
    decreases RankAll(ts), ts, 0
  {
    hide Holds, DnfInput, Eliminate, TableHolds, ReadsTwo, HasBinder, ReadIn, Any;
    if ts != [] {
      var n := |ts| - 1;
      assert AnyHasBinder(ts[..n]) || HasBinder(ts[n]) ==> AnyHasBinder(ts);
      EliminateAllHold(ts[..n], visited, shared, changed, m);
      var p := EliminateAll(ts[..n], visited, shared, changed);
      EliminateHolds(ts[n], p.visited, shared && p.changed, m);
      LastInput(ts, Any());
    }
  }

  const BoolX := Node(Bool, Var, "x", [])
  const BoolY := Node(Bool, Var, "y", [])
  const BoolZ := Node(Bool, Var, "z", [])

  /** Of `(=> x y z)` a pass keeps `(or (not x) y)`: with x and y true and z
      false the result holds and the formula fails, with x true and y false it
      is the other way round. */
  lemma EliminationDropsConsequent() returns (t: Term, m: Model, m': Model)
    ensures t == Node(Bool, Implies, "=>", [BoolX, BoolY, BoolZ]) && DnfInput(t, Any())
    ensures var r := Eliminate(t, map[], false).term;
            Holds(r, m) && !Holds(t, m) && !Holds(r, m') && Holds(t, m')
  {
    hide Value, Holds, Eliminate;
    t := Node(Bool, Implies, "=>", [BoolX, BoolY, BoolZ]);
    m := Model((l: Term) => B(l == BoolX || l == BoolY), (k, n, vs) => U(0), map[]);
    m' := Model((l: Term) => B(l == BoolX), (k, n, vs) => U(0), map[]);
    TernaryValue(t, m);
    TernaryValue(t, m');
  }

  lemma TernaryValue(t: Term, m: Model)
    requires t == Node(Bool, Implies, "=>", [BoolX, BoolY, BoolZ])
    ensures DnfInput(t, Any())
    ensures Holds(t, m) <==> (AsBool(m.leaf(BoolX)) && AsBool(m.leaf(BoolY)) ==> AsBool(m.leaf(BoolZ)))
    ensures Holds(Eliminate(t, map[], false).term, m) <==> (AsBool(m.leaf(BoolX)) ==> AsBool(m.leaf(BoolY)))
  {
    hide Value, Holds, MkOr, MkNot;
    Unfold(BoolX, m);
    Unfold(BoolY, m);
    Unfold(BoolZ, m);
    VarHolds(BoolX, m);
    VarHolds(BoolY, m);
    VarHolds(BoolZ, m);
    ConnectiveHolds(t, m);
    var bs := Truths(t.children, m);
    assert AllOf(bs[..2]) <==> bs[0] && bs[1];
    TernaryPass(t);
    MkNotHolds(BoolX, m);
    Clause2(MkNot(BoolX), BoolY, m);
  }

  lemma VarHolds(v: Term, m: Model)
    requires v.kind.Var? && v.sort == Bool
    ensures Holds(v, m) <==> AsBool(m.leaf(v))
  {
    Unfold(v, m);
  }

  lemma TernaryPass(t: Term)
    requires t == Node(Bool, Implies, "=>", [BoolX, BoolY, BoolZ])
    ensures DnfInput(t, Any()) && Eliminate(t, map[], false).term == MkOr([MkNot(BoolX), BoolY])
  {
    hide MkOr, MkNot;
    var one, two := [BoolX], [BoolX, BoolY];
    assert one[..0] == [] && two[..1] == one && Looked(t) == two;
    assert IsEnd(BoolX) && IsEnd(BoolY) && DnfInput(BoolX, Any()) && DnfInput(BoolY, Any());
    assert EliminateAll(one[..0], map[], true, false) == PassAll([], map[], false);
    assert EliminateAll(one, map[], true, false) == PassAll([BoolX], map[], false);
    assert EliminateAll(two, map[], true, false) == PassAll([BoolX, BoolY], map[], false);
  }
}
