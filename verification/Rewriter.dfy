// The bottom-up rewriter: a rule table applied through a frame stack and a
// memo table, repeated to a fixpoint.
module Rewriter {
  import opened Terms
  import opened PostOrder

  /** Rebuilding a node with new children keeps its sort, kind and name; with
      another number of children the old node is kept. */
  function RebuildLike(t: Term, kids: seq<Term>): Term {
    if |kids| != |t.children| then t else Node(t.sort, t.kind, t.name, kids)
  }

  /** The recursive bottom-up rewriter. */
  function Rewritten(t: Term, rules: Term -> Term): Term
    decreases t, 1
  {
    rules(RebuildLike(t, RewrittenAll(t.children, rules)))
  }

  function RewrittenAll(ts: seq<Term>, rules: Term -> Term): (rs: seq<Term>)
    ensures |rs| == |ts| && forall i | 0 <= i < |ts| :: rs[i] == Rewritten(ts[i], rules)
    decreases ts, 0
  {
    seq(|ts|, i requires 0 <= i < |ts| => Rewritten(ts[i], rules))
  }

  /** `n` rounds, stopping early when a round changes nothing. */
  function Rounds(t: Term, rules: Term -> Term, n: nat): Term
    decreases n
  {
    if n == 0 then t
    else
      var next := Rewritten(t, rules);
      if next == t then t else Rounds(next, rules, n - 1)
  }

  function Iterate(t: Term, rules: Term -> Term, n: nat): Term
    decreases n
  {
    if n == 0 then t else Iterate(Rewritten(t, rules), rules, n - 1)
  }

  /** The rounds either reach a term no further round changes, or are used up
      with every one of them having made a change. */
  lemma {:induction false} RoundsReachFixpoint(t: Term, rules: Term -> Term, n: nat)
    ensures var r := Rounds(t, rules, n);
            || Rewritten(r, rules) == r
            || (r == Iterate(t, rules, n) && forall i | 0 <= i < n :: Iterate(t, rules, i + 1) != Iterate(t, rules, i))
    decreases n
  {
    hide Rewritten;
    if n > 0 && Rewritten(t, rules) != t {
      var next := Rewritten(t, rules);
      RoundsReachFixpoint(next, rules, n - 1);
      var r := Rounds(next, rules, n - 1);
      if Rewritten(r, rules) != r {
        forall i | 0 <= i < n
          ensures Iterate(t, rules, i + 1) != Iterate(t, rules, i)
        {
          if i > 0 {
            assert Iterate(next, rules, i - 1 + 1) != Iterate(next, rules, i - 1);
            assert Iterate(t, rules, i) == Iterate(next, rules, i - 1);
            assert Iterate(t, rules, i + 1) == Iterate(next, rules, i);
          } else {
            assert Iterate(t, rules, 1) == Iterate(next, rules, 0);
          }
        }
      }
    }
  }

  // ------------------------------------------------------------------
  // The default rules
  // ------------------------------------------------------------------

  function RuleNot(t: Term): Term {
    if |t.children| < 1 then t
    else
      var a := t.children[0];
      if a.kind.Not? && |a.children| >= 1 then a.children[0]
      else if IsTrue(a) then FalseTerm
      else if IsFalse(a) then TrueTerm
      else RebuildLike(t, [a])
  }

  function RuleAnd(t: Term): Term {
    if |t.children| != 2 then t
    else
      var l, r := t.children[0], t.children[1];
      if IsFalse(l) || IsFalse(r) then FalseTerm
      else if IsTrue(l) then r
      else if IsTrue(r) then l
      else if l == r then l
      else RebuildLike(t, [l, r])
  }

  predicate IsZero(t: Term) { t.kind.IntConst? && t.kind.n == 0 }

  function RuleAdd(t: Term): Term {
    if |t.children| != 2 then t
    else
      var l, r := t.children[0], t.children[1];
      if IsZero(l) then r else if IsZero(r) then l else RebuildLike(t, [l, r])
  }

  function DefaultRules(t: Term): Term {
    match t.kind
    case Not => RuleNot(t)
    case And => RuleAnd(t)
    case Add => RuleAdd(t)
    case _ => RebuildLike(t, t.children)
  }

  function Defaults(): Term -> Term { (t: Term) => DefaultRules(t) }

  /** Negations, conjunctions and sums have the sorts the builders give them,
      and calls name definitions over parameters. */
  predicate SortsOk(t: Term) {
    && (t.kind.Not? ==> t.sort == Bool && |t.children| == 1 && t.children[0].sort == Bool)
    && (t.kind.And? ==> t.sort == Bool && forall i | 0 <= i < |t.children| :: t.children[i].sort == Bool)
    && (t.kind.Add? ==> t.sort == Int && forall i | 0 <= i < |t.children| :: t.children[i].sort == Int)
    && NodeOk(t)
  }

  predicate WellSorted(t: Term)
    decreases t, 1
  {
    SortsOk(t) && AllWellSorted(t.children)
  }

  predicate AllWellSorted(ts: seq<Term>)
    decreases ts, 0
  {
    forall i | 0 <= i < |ts| :: WellSorted(ts[i])
  }

  /** A rule keeps the meaning and the sort of a well-sorted node. */
  lemma RulesKeepValue(t: Term, m: Model)
    requires WellSorted(t)
    ensures Value(DefaultRules(t), m) == Value(t, m)
    ensures DefaultRules(t).sort == t.sort && WellSorted(DefaultRules(t))
  {
    hide Value, IsZero;
    match t.kind
    case Not => NotKeepsValue(t, m);
    case And => AndKeepsValue(t, m);
    case Add => AddKeepsValue(t, m);
    case _ =>
  }

  lemma NotKeepsValue(t: Term, m: Model)
    requires WellSorted(t) && t.kind.Not?
    ensures Value(RuleNot(t), m) == Value(t, m)
    ensures RuleNot(t).sort == t.sort && WellSorted(RuleNot(t))
  {
    hide Value;
    var a := t.children[0];
    Unfold(t, m);
    assert WellSorted(a) && t.children == [a];
    if a.kind.Not? {
      assert AllWellSorted(a.children) && WellSorted(a.children[0]);
      Unfold(a, m);
      ValueHasSort(a.children[0], m);
    } else if IsTrue(a) || IsFalse(a) {
      Unfold(a, m);
      Unfold(TrueTerm, m);
      Unfold(FalseTerm, m);
    }
  }

  lemma AndKeepsValue(t: Term, m: Model)
    requires WellSorted(t) && t.kind.And?
    ensures Value(RuleAnd(t), m) == Value(t, m)
    ensures RuleAnd(t).sort == t.sort && WellSorted(RuleAnd(t))
  {
    hide Value;
    if |t.children| == 2 {
      var l, r := t.children[0], t.children[1];
      assert t.children == [l, r];
      var vs := Values(t.children, m);
      Unfold(t, m);
      ValueHasSort(l, m);
      ValueHasSort(r, m);
      assert AllTrue(vs) <==> AsBool(vs[0]) && AsBool(vs[1]);
      ConstantValues(l, m);
      ConstantValues(r, m);
      Unfold(FalseTerm, m);
    }
  }

  lemma ConstantValues(t: Term, m: Model)
    ensures IsTrue(t) ==> Value(t, m) == B(true)
    ensures IsFalse(t) ==> Value(t, m) == B(false)
    ensures IsZero(t) && t.sort == Int ==> Value(t, m) == N(0)
  {
    if IsTrue(t) || IsFalse(t) || IsZero(t) {
      Unfold(t, m);
    }
  }

  lemma AddKeepsValue(t: Term, m: Model)
    requires WellSorted(t) && t.kind.Add?
    ensures Value(RuleAdd(t), m) == Value(t, m)
    ensures RuleAdd(t).sort == t.sort && WellSorted(RuleAdd(t))
  {
    hide Value, IsZero;
    if |t.children| == 2 {
      var l, r := t.children[0], t.children[1];
      assert t.children == [l, r];
      var vs := Values(t.children, m);
      Unfold(t, m);
      ValueHasSort(l, m);
      ValueHasSort(r, m);
      assert vs[..1][..0] == [] && SumOf(vs[..1]) == AsInt(vs[0]);
      ConstantValues(l, m);
      ConstantValues(r, m);
    }
  }

  /** Rewriting with the default rules keeps the meaning in every model, under
      the bodies of called definitions too. */
  lemma {:induction false} RewrittenKeepsValue(t: Term, m: Model)
    requires WellSorted(t)
    ensures Value(Rewritten(t, Defaults()), m) == Value(t, m)
    ensures Rewritten(t, Defaults()).sort == t.sort && WellSorted(Rewritten(t, Defaults()))
    decreases t, 2
  {
    hide Value, SortsOk, DefaultRules;
    var cs := RewrittenAll(t.children, Defaults());
    var r := RebuildLike(t, cs);
    AllKeepValues(t.children, m);
    RebuiltSorts(t, cs);
    if t.kind.FuncApply? {
      CallKeepsValue(t, m);
    } else {
      Unfold(t, m);
      Unfold(r, m);
      LeafRebuilt(t, r, cs, m);
    }
    RulesKeepValue(r, m);
  }

  lemma LeafRebuilt(t: Term, r: Term, cs: seq<Term>, m: Model)
    requires SortsOk(t) && r == RebuildLike(t, cs) && |cs| == |t.children|
    ensures IsLeafKind(t.kind) ==> r == t
    ensures forall vs :: Interpret(r, vs, m) == Interpret(t, vs, m)
  {
  }

  lemma {:induction false} AllKeepValues(ts: seq<Term>, m: Model)
    requires AllWellSorted(ts)
    ensures var rs := RewrittenAll(ts, Defaults());
            && Values(rs, m) == Values(ts, m) && AllWellSorted(rs)
            && forall i | 0 <= i < |ts| :: rs[i].sort == ts[i].sort
    decreases ts, 0
  {
    hide Value, WellSorted, Rewritten;
    var rs := RewrittenAll(ts, Defaults());
    forall i | 0 <= i < |ts|
      ensures Value(rs[i], m) == Value(ts[i], m) && WellSorted(rs[i]) && rs[i].sort == ts[i].sort
    {
      RewrittenKeepsValue(ts[i], m);
    }
  }

  /** Nodes the default rules leave as they are. */
  lemma PlainRewritten(t: Term)
    requires !t.kind.Not? && !t.kind.And? && !t.kind.Add?
    ensures Rewritten(t, Defaults()) == RebuildLike(t, RewrittenAll(t.children, Defaults()))
  {
  }

  lemma RebuiltSorts(t: Term, cs: seq<Term>)
    requires WellSorted(t) && cs == RewrittenAll(t.children, Defaults()) && AllWellSorted(cs)
    requires forall i | 0 <= i < |cs| :: cs[i].sort == t.children[i].sort
    ensures WellSorted(RebuildLike(t, cs))
  {
    hide Rewritten, WellSorted, SortsOk;
    NodeIsWellSorted(t);
    forall i | 0 <= i < |cs| && (t.children[i].kind.FuncParam? || t.children[i].kind.FuncDef?)
      ensures cs[i].kind == t.children[i].kind && |cs[i].children| == |t.children[i].children|
    {
      PlainRewritten(t.children[i]);
    }
    SortsRebuilt(t, cs);
    NodeIsWellSorted(RebuildLike(t, cs));
  }

  lemma NodeIsWellSorted(t: Term)
    ensures WellSorted(t) <==> SortsOk(t) && AllWellSorted(t.children)
  {
  }

  lemma SortsRebuilt(t: Term, cs: seq<Term>)
    requires SortsOk(t) && |cs| == |t.children|
    requires forall i | 0 <= i < |cs| :: cs[i].sort == t.children[i].sort
    requires forall i | 0 <= i < |cs| && (t.children[i].kind.FuncParam? || t.children[i].kind.FuncDef?) ::
               cs[i].kind == t.children[i].kind && |cs[i].children| == |t.children[i].children|
    ensures SortsOk(RebuildLike(t, cs))
  {
  }

  lemma {:induction false} CallKeepsValue(t: Term, m: Model)
    requires WellSorted(t) && t.kind.FuncApply?
    requires Values(RewrittenAll(t.children, Defaults()), m) == Values(t.children, m)
    ensures Value(RebuildLike(t, RewrittenAll(t.children, Defaults())), m) == Value(t, m)
    decreases t, 1
  {
    hide Value, Rewritten;
    var cs := RewrittenAll(t.children, Defaults());
    var r := RebuildLike(t, cs);
    var fun := t.children[0];
    assert WellSorted(fun) && AllWellSorted(fun.children);
    PlainRewritten(fun);
    var formals := fun.children[1..];
    assert cs[0].children[1..] == formals by {
      forall i | 1 <= i < |fun.children|
        ensures Rewritten(fun.children[i], Defaults()) == fun.children[i]
      {
        assert WellSorted(fun.children[i]);
        PlainRewritten(fun.children[i]);
      }
    }
    UnfoldCall(t, m);
    UnfoldCall(r, m);
    RewrittenKeepsValue(fun.children[0], CalleeModel(t, m));
  }

  /** Any number of rounds keeps the meaning. */
  lemma {:induction false} RoundsKeepValue(t: Term, n: nat, m: Model)
    requires WellSorted(t)
    ensures Value(Rounds(t, Defaults(), n), m) == Value(t, m)
    decreases n
  {
    hide Value, Rewritten, WellSorted;
    RewrittenKeepsValue(t, m);
    if n > 0 && Rewritten(t, Defaults()) != t {
      RoundsKeepValue(Rewritten(t, Defaults()), n - 1, m);
    }
  }

  /** Normal forms: nowhere a `not` over a `not` or a Boolean constant, a
      two-operand `and` of equal operands or with a Boolean constant, or a
      two-operand sum with a zero. */
  predicate Reduced(t: Term) {
    && AllReduced(t.children)
    && (t.kind.Not? && t.children != [] ==>
          !(t.children[0].kind.Not? && t.children[0].children != []) && !IsBoolConstant(t.children[0]))
    && (t.kind.And? && |t.children| == 2 ==>
          t.children[0] != t.children[1] && !IsBoolConstant(t.children[0]) && !IsBoolConstant(t.children[1]))
    && (t.kind.Add? && |t.children| == 2 ==> t.children[0].kind != IntConst(0) && t.children[1].kind != IntConst(0))
  }

  predicate AllReduced(ts: seq<Term>) { forall i | 0 <= i < |ts| :: Reduced(ts[i]) }

  predicate IsBoolConstant(t: Term) { t.sort == Bool && (t.kind == ConstTrue || t.kind == ConstFalse) }

  lemma RuleResultReduced(t: Term)
    requires AllReduced(t.children)
    ensures Reduced(DefaultRules(t))
    ensures Reduced(t) ==> DefaultRules(t) == t
  {
    hide RuleNot, RuleAnd, RuleAdd;
    match t.kind
    case Not => NotReduced(t);
    case And => AndReduced(t);
    case Add => AddReduced(t);
    case _ =>
  }

  lemma NotReduced(t: Term)
    requires AllReduced(t.children) && t.kind.Not?
    ensures Reduced(RuleNot(t)) && (Reduced(t) ==> RuleNot(t) == t)
  {
    if t.children != [] && t.children[0].kind.Not? {
      var a := t.children[0];
      assert Reduced(a);
      NodeIsReduced(a);
      if a.children != [] {
        assert Reduced(a.children[0]);
      }
    }
  }

  lemma AndReduced(t: Term)
    requires AllReduced(t.children) && t.kind.And?
    ensures Reduced(RuleAnd(t)) && (Reduced(t) ==> RuleAnd(t) == t)
  {
    if |t.children| == 2 {
      assert Reduced(t.children[0]) && Reduced(t.children[1]) && t.children == [t.children[0], t.children[1]];
    }
  }

  lemma AddReduced(t: Term)
    requires AllReduced(t.children) && t.kind.Add?
    ensures Reduced(RuleAdd(t)) && (Reduced(t) ==> RuleAdd(t) == t)
  {
    if |t.children| == 2 {
      assert Reduced(t.children[0]) && Reduced(t.children[1]) && t.children == [t.children[0], t.children[1]];
    }
  }

  lemma {:induction false} RewrittenReduced(t: Term)
    ensures Reduced(Rewritten(t, Defaults()))
    ensures Reduced(t) ==> Rewritten(t, Defaults()) == t
    decreases t
  {
    hide DefaultRules, Reduced;
    var cs := RewrittenAll(t.children, Defaults());
    NodeIsReduced(t);
    forall i | 0 <= i < |cs|
      ensures Reduced(cs[i]) && (Reduced(t.children[i]) ==> cs[i] == t.children[i])
    {
      RewrittenReduced(t.children[i]);
    }
    assert Reduced(t) ==> cs == t.children;
    RuleResultReduced(RebuildLike(t, cs));
  }

  lemma NodeIsReduced(t: Term)
    ensures Reduced(t) ==> AllReduced(t.children)
  {
  }

  /** One pass of the default rules gives a normal form, and leaves exactly the
      normal forms alone: one round already reaches the fixpoint. */
  lemma OneRoundIsEnough(t: Term)
    ensures var r := Rewritten(t, Defaults());
            Reduced(r) && Rewritten(r, Defaults()) == r && (r == t <==> Reduced(t))
  {
    hide DefaultRules, Reduced, Rewritten;
    RewrittenReduced(t);
    RewrittenReduced(Rewritten(t, Defaults()));
  }

  /** So does any positive number of rounds. */
  lemma RoundsReduce(t: Term, n: nat)
    requires n > 0
    ensures Reduced(Rounds(t, Defaults(), n))
  {
    hide Reduced, Rewritten;
    OneRoundIsEnough(t);
    var next := Rewritten(t, Defaults());
    assert n > 1 ==> Rounds(next, Defaults(), n - 1) == next;
  }

  // ------------------------------------------------------------------
  // The rewriter as it runs
  // ------------------------------------------------------------------

  class Rewriting {
    const rules: Term -> Term
    var memo: map<Term, Term>

    constructor (rules: Term -> Term)
      ensures this.rules == rules && memo == map[]
    {
      this.rules := rules;
      memo := map[];
    }

    /** Every entry is the recursive result. */
    ghost predicate MemoOk()
      reads this
    {
      forall t | t in memo :: memo[t] == Rewritten(t, rules)
    }

    /** rewriteOnce: the frame stack computes the recursive rewriter, and the
        lookups of processed children never miss. */
    method RewriteOnce(root: Term) returns (r: Term)
      requires MemoOk()
      modifies this
      ensures MemoOk() && r == Rewritten(root, rules) && old(memo).Keys <= memo.Keys && root in memo
    {
      hide Rewritten, Waiting, Covered, Size;
      if root in memo {
        return memo[root];
      }
      var stack := [Visit(root, false)];
      StartState(root, memo.Keys, Kids());
      while stack != []
        invariant MemoOk() && old(memo).Keys <= memo.Keys
        invariant Waiting(stack, memo.Keys, Kids()) && Covered(root, memo.Keys, stack, 0)
        decreases Weight(stack)
      {
        var frame := stack[|stack| - 1];
        ghost var done := memo.Keys;
        if frame.node in memo {
          Pop(stack, done, done, Kids(), root);
          stack := stack[..|stack| - 1];
        } else if !frame.ready {
          var pushed := PushOperands(frame.node.children, memo.Keys);
          SizeOfNode(frame.node);
          Schedule(stack, done, Kids(), pushed, root);
          stack := stack[..|stack| - 1] + [Visit(frame.node, true)] + pushed;
        } else {
          TopIsReady(stack, done, Kids());
          var result := Rebuilt(frame.node);
          memo := memo[frame.node := result];
          Pop(stack, done, memo.Keys, Kids(), root);
          stack := stack[..|stack| - 1];
        }
      }
      NothingLeft(root, memo.Keys);
      r := memo[root];
    }

    method Rebuilt(t: Term) returns (r: Term)
      requires MemoOk() && AllDone(t.children, memo.Keys)
      ensures r == Rewritten(t, rules)
    {
      var kids := [];
      for i := 0 to |t.children|
        invariant |kids| == i && forall j | 0 <= j < i :: kids[j] == Rewritten(t.children[j], rules)
      {
        assert t.children[i] in memo.Keys;
        kids := kids + [memo[t.children[i]]];
      }
      assert kids == RewrittenAll(t.children, rules);
      // an unchanged node is shared, not copied
      var node := if kids == t.children then t else RebuildLike(t, kids);
      r := rules(node);
    }

    /** rewrite: one pass over the current table, or rounds with a fresh table
        each until one changes nothing. */
    method Rewrite(root: Term, enableFixpoint: bool, maxRounds: nat) returns (r: Term)
      requires MemoOk()
      modifies this
      ensures MemoOk()
      ensures r == if enableFixpoint then Rounds(root, rules, maxRounds) else Rewritten(root, rules)
    {
      hide Rewritten;
      if !enableFixpoint {
        r := RewriteOnce(root);
        return;
      }
      r := root;
      for round := 0 to maxRounds
        invariant MemoOk()
        invariant Rounds(root, rules, maxRounds) == Rounds(r, rules, maxRounds - round)
      {
        memo := map[];
        var next := RewriteOnce(r);
        if next == r {
          return;
        }
        r := next;
      }
    }
  }
}
