// Expansion of preserved lets: `expandLet` and its explicit work stack.
module LetExpansion {
  import opened Terms
  import opened Builders

  /** Some let, let-chain or bound variable occurs in the term. */
  predicate HasBinder(t: Term)
    decreases t, 1
  {
    IsBinder(t.kind) || AnyHasBinder(t.children)
  }

  predicate AnyHasBinder(ts: seq<Term>)
    decreases ts, 0
  {
    exists i :: 0 <= i < |ts| && HasBinder(ts[i])
  }

  /** Conversions recurse into the expansion of a let, which has none left. */
  function Rank(t: Term): nat { if HasBinder(t) then 1 else 0 }

  function RankAll(ts: seq<Term>): nat { if AnyHasBinder(ts) then 1 else 0 }

  predicate KeepsName(k: Kind) {
    k.UfApply? || k.FuncApply? || k.DtConstructor? || k.DtSelector? || k.DtTester?
  }

  /** The term with every binder replaced by what it stands for. A binder
      without children, which the source refuses, becomes the error term. */
  function Expand(t: Term): (r: Term)
    ensures !HasBinder(r)
    decreases t, 1
  {
    if IsBinder(t.kind) then
      if t.children == [] then ErrorTerm else Expand(t.children[BinderChild(t)])
    else if !HasBinder(t) then t
    else
      var cs := ExpandAll(t.children);
      if KeepsName(t.kind) then Node(t.sort, t.kind, t.name, cs) else MkOper(t.sort, t.kind, cs)
  }

  function ExpandAll(ts: seq<Term>): (rs: seq<Term>)
    ensures |rs| == |ts| && (forall i | 0 <= i < |ts| :: rs[i] == Expand(ts[i]))
    ensures !AnyHasBinder(rs)
    decreases ts, 0
  {
    if ts == [] then []
    else
      assert ts == [ts[0]] + ts[1..];
      [Expand(ts[0])] + ExpandAll(ts[1..])
  }

  /** `expandLet` itself only looks under a let or a let-chain at the root. */
  function ExpandLet(t: Term): Term {
    if t.kind.Let? || t.kind.LetChain? then Expand(t) else t
  }

  /** Applications and datatype operators keep their names. */
  lemma ExpandKeepsNames(t: Term)
    requires t.kind.UfApply? || t.kind.FuncApply? || t.kind.DtConstructor? || t.kind.DtSelector? || t.kind.DtTester?
    ensures var r := Expand(t); r.kind == t.kind && r.name == t.name && r.sort == t.sort && |r.children| == |t.children|
  {
  }

  lemma ExpandKeepsSort(t: Term)
    requires WellFormed(t)
    ensures Expand(t).sort == t.sort
  {
  }

  lemma NoBinderExpand(t: Term)
    requires !HasBinder(t)
    ensures Expand(t) == t
  {
  }

  /** The children of an expanded operator node. */
  lemma ExpandedChildren(t: Term)
    requires !IsBinder(t.kind)
    ensures Expand(t).kind == t.kind && Expand(t).sort == t.sort
    ensures Expand(t).children == ExpandAll(t.children)
    ensures KeepsName(t.kind) ==> Expand(t).name == t.name
    ensures !HasBinder(t) ==> Expand(t) == t
    ensures t.children == [] ==> Expand(t) == t
  {
    if !HasBinder(t) {
      assert !AnyHasBinder(t.children);
      var cs := ExpandAll(t.children);
      forall i | 0 <= i < |cs|
        ensures cs[i] == t.children[i]
      {
        NoBinderExpand(t.children[i]);
      }
      assert cs == t.children;
    }
  }

  /** Expansion keeps the meaning in every model, calls of defined functions
      whose bodies use lets included. */
  lemma {:induction false} ExpandKeepsValue(t: Term, m: Model)
    requires WellFormed(t)
    ensures Value(Expand(t), m) == Value(t, m)
    decreases t, 1
  {
    hide Value, Interpret, HasBinder;
    var r := Expand(t);
    if IsBinder(t.kind) {
      var c := t.children[BinderChild(t)];
      ExpandKeepsValue(c, m);
      BinderValue(t, m);
    } else {
      ExpandedChildren(t);
      ExpandAllKeepsValues(t.children, m);
      if t.kind.FuncApply? {
        ExpandCall(t, m);
      } else {
        Unfold(t, m);
        Unfold(r, m);
        RebuiltInterpretation(t, r, Values(t.children, m), m);
      }
    }
  }

  lemma {:induction false} ExpandAllKeepsValues(ts: seq<Term>, m: Model)
    requires AllWellFormed(ts)
    ensures Values(ExpandAll(ts), m) == Values(ts, m)
    decreases ts, 0
  {
    hide Value;
    forall i | 0 <= i < |ts|
      ensures Value(ExpandAll(ts)[i], m) == Value(ts[i], m)
    {
      ExpandKeepsValue(ts[i], m);
    }
  }

  lemma BinderValue(t: Term, m: Model)
    requires NodeOk(t) && IsBinder(t.kind)
    ensures Value(t, m) == Value(t.children[BinderChild(t)], m)
  {
    hide Value;
    Unfold(t, m);
    ValueHasSort(t.children[BinderChild(t)], m);
  }

  /** Rebuilding a node with mkOper clobbers its name, which only name-keeping
      kinds and leaves read. */
  lemma RebuiltInterpretation(t: Term, r: Term, vs: seq<Val>, m: Model)
    requires r.kind == t.kind && !t.kind.FuncApply? && (KeepsName(t.kind) ==> r.name == t.name)
    requires IsLeafKind(t.kind) ==> r == t
    ensures Interpret(r, vs, m) == Interpret(t, vs, m)
  {
  }

  lemma {:induction false} ExpandCall(t: Term, m: Model)
    requires WellFormed(t) && t.kind.FuncApply?
    requires Values(ExpandAll(t.children), m) == Values(t.children, m)
    ensures Value(Expand(t), m) == Value(t, m)
    decreases t, 0
  {
    hide HasBinder, Interpret;
    var fun, r := t.children[0], Expand(t);
    assert WellFormed(fun) && AllWellFormed(fun.children);
    ExpandedChildren(t);
    ExpandedChildren(fun);
    var formals := fun.children[1..];
    assert r.children[0] == Expand(fun);
    assert r.children[0].children[1..] == formals by {
      forall i | 1 <= i < |fun.children|
        ensures Expand(fun.children[i]) == fun.children[i]
      {
        LeafExpand(fun.children[i]);
      }
    }
    var m' := m.(params := BindParams(formals, Values(t.children, m)[1..]));
    ExpandKeepsValue(fun.children[0], m');
  }

  lemma LeafExpand(t: Term)
    requires t.kind.FuncParam? && WellFormed(t)
    ensures Expand(t) == t
  {
  }

  /** What the maps hold for the nodes already processed. */
  ghost predicate ResultsOk(results: map<Term, Term>, changed: map<Term, bool>) {
    && changed.Keys == results.Keys
    && forall t | t in results :: results[t] == Expand(t) && changed[t] == HasBinder(t)
  }

  /** The stack is a path of unprocessed subterms of the root, each smaller
      than the one below it. */
  ghost predicate IsDescent(root: Term, stack: seq<Term>, results: map<Term, Term>) {
    && (forall i | 0 <= i < |stack| :: stack[i] in Subterms(root) && stack[i] !in results)
    && (forall i, j | 0 <= i < j < |stack| :: Size(stack[j]) < Size(stack[i]))
  }

  /** The result for a node whose children are processed: binders are
      stripped, a node with a changed child is rebuilt, any other is kept. */
  method ProcessNode(t: Term, results: map<Term, Term>, changed: map<Term, bool>, hasChanged: bool, cs: seq<Term>)
    returns (result: Term, flag: bool)
    requires WellFormed(t) && ResultsOk(results, changed)
    requires forall i | 0 <= i < |t.children| :: t.children[i] in results
    requires hasChanged == AnyHasBinder(t.children) && cs == ExpandAll(t.children)
    ensures result == Expand(t) && flag == HasBinder(t)
  {
    if IsBinder(t.kind) {
      result, flag := results[t.children[BinderChild(t)]], true;
    } else if hasChanged {
      if KeepsName(t.kind) {
        result := Node(t.sort, t.kind, t.name, cs);
      } else {
        result := MkOper(t.sort, t.kind, cs);
      }
      flag := true;
    } else {
      result, flag := t, false;
    }
  }

  /** The children of `t` in order, up to the first that is not processed. */
  method ScanChildren(t: Term, results: map<Term, Term>, changed: map<Term, bool>)
    returns (missing: nat, hasChanged: bool, cs: seq<Term>)
    requires ResultsOk(results, changed)
    ensures missing <= |t.children| && (missing < |t.children| ==> t.children[missing] !in results)
    ensures forall i | 0 <= i < missing :: t.children[i] in results
    ensures missing == |t.children| ==> hasChanged == AnyHasBinder(t.children) && cs == ExpandAll(t.children)
  {
    missing, hasChanged, cs := 0, false, [];
    while missing < |t.children| && t.children[missing] in results
      invariant missing <= |t.children| && |cs| == missing
      invariant forall i | 0 <= i < missing :: t.children[i] in results && cs[i] == Expand(t.children[i])
      invariant hasChanged <==> exists i :: 0 <= i < missing && HasBinder(t.children[i])
    {
      var child := t.children[missing];
      cs := cs + [results[child]];
      hasChanged := hasChanged || changed[child];
      missing := missing + 1;
    }
  }

  lemma WellFormedSubterm(t: Term, s: Term)
    requires WellFormed(t) && s in Subterms(t)
    ensures WellFormed(s)
    decreases t, 1
  {
    if s != t {
      WellFormedSubtermOfAll(t.children, s);
    }
  }

  lemma WellFormedSubtermOfAll(ts: seq<Term>, s: Term)
    requires AllWellFormed(ts) && s in SubtermsOfAll(ts)
    ensures WellFormed(s)
    decreases ts, 0
  {
    if s in Subterms(ts[0]) {
      WellFormedSubterm(ts[0], s);
    } else {
      WellFormedSubtermOfAll(ts[1..], s);
    }
  }

  /** `expandLet` with let preservation on: the stack machine computes the
      recursive expansion. */
  method ExpandLetIterative(expr: Term) returns (r: Term)
    requires WellFormed(expr)
    ensures r == ExpandLet(expr)
  {
    hide Expand, HasBinder, WellFormed, Size, IsDescent, Subterms;
    if !(expr.kind.Let? || expr.kind.LetChain?) {
      return expr;
    }
    BodyOf(expr);
    var body := expr.children[BinderChild(expr)];
    var stack := [body];
    var results: map<Term, Term>, changed: map<Term, bool> := map[], map[];
    StartDescent(body, results);
    while stack != []
      invariant ResultsOk(results, changed) && IsDescent(body, stack, results)
      invariant stack == [] ==> body in results
      invariant stack != [] ==> stack[0] == body
      decreases Subterms(body) - results.Keys, if stack == [] then 0 else Size(stack[|stack| - 1])
    {
      // the source also skips a top that is already processed, which a descent
      // never has
      var current, below := stack[|stack| - 1], stack[..|stack| - 1];
      TopOfDescent(body, stack, results);
      var missing, hasChanged, cs := ScanChildren(current, results, changed);
      if missing < |current.children| {
        Descend(body, stack, results, missing);
        stack := stack + [current.children[missing]];
      } else {
        var result, flag := ProcessNode(current, results, changed, hasChanged, cs);
        Ascend(body, stack, results, result);
        stack := below;
        results := results[current := result];
        changed := changed[current := flag];
      }
    }
    r := results[body];
    ExpandOfBinder(expr);
  }

  lemma BodyOf(t: Term)
    requires WellFormed(t) && (t.kind.Let? || t.kind.LetChain?)
    ensures t.children != [] && WellFormed(t.children[BinderChild(t)])
  {
  }

  lemma StartDescent(root: Term, results: map<Term, Term>)
    requires root !in results
    ensures IsDescent(root, [root], results)
  {
  }

  lemma TopOfDescent(root: Term, stack: seq<Term>, results: map<Term, Term>)
    requires WellFormed(root) && stack != [] && IsDescent(root, stack, results)
    ensures WellFormed(stack[|stack| - 1]) && stack[|stack| - 1] !in results && stack[|stack| - 1] in Subterms(root)
  {
    WellFormedSubterm(root, stack[|stack| - 1]);
  }

  /** Going down to an unprocessed child. */
  lemma Descend(root: Term, stack: seq<Term>, results: map<Term, Term>, i: nat)
    requires stack != [] && IsDescent(root, stack, results)
    requires i < |stack[|stack| - 1].children| && stack[|stack| - 1].children[i] !in results
    ensures IsDescent(root, stack + [stack[|stack| - 1].children[i]], results)
    ensures Size(stack[|stack| - 1].children[i]) < Size(stack[|stack| - 1])
  {
    hide Subterms;
    var top := stack[|stack| - 1];
    SubtermsClosed(root, top, i);
    SizeOfChild(top.children, i);
  }

  /** Leaving a processed node. */
  lemma Ascend(root: Term, stack: seq<Term>, results: map<Term, Term>, r: Term)
    requires stack != [] && IsDescent(root, stack, results)
    ensures var top := stack[|stack| - 1];
            && IsDescent(root, stack[..|stack| - 1], results[top := r])
            && Subterms(root) - results[top := r].Keys < Subterms(root) - results.Keys
  {
    hide Subterms;
    var top := stack[|stack| - 1];
    assert Subterms(root) - results[top := r].Keys == Subterms(root) - results.Keys - {top};
  }

  lemma ExpandOfBinder(t: Term)
    requires IsBinder(t.kind) && t.children != []
    ensures Expand(t) == Expand(t.children[BinderChild(t)])
  {
  }

  lemma LetRankDrops(t: Term)
    requires t.kind.Let?
    ensures Rank(ExpandLet(t)) < Rank(t)
  {
  }

  lemma LetHolds(t: Term, m: Model)
    requires WellFormed(t)
    ensures Holds(ExpandLet(t), m) == Holds(t, m)
  {
    ExpandKeepsValue(t, m);
  }

  /** What a caller of `expandLet` relies on: no binder is left below an
      expanded root, and the meaning is that of the original. */
  lemma ExpandLetCorrect(t: Term, m: Model)
    requires WellFormed(t)
    ensures t.kind.Let? || t.kind.LetChain? ==> !HasBinder(ExpandLet(t))
    ensures Value(ExpandLet(t), m) == Value(t, m) && ExpandLet(t).sort == t.sort
  {
    ExpandKeepsValue(t, m);
    ExpandKeepsSort(t);
  }
}
