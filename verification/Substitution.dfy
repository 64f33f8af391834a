// substitute: replacing variables by terms, with an explicit worklist and a
// memo table.
module Substitution {
  import opened Terms
  import opened Builders
  import opened PostOrder

  predicate StaysLeaf(t: Term) { IsVarKind(t.kind) || IsConst(t) || t.kind.FuncParam? }

  /** Nodes that keep their name when substitute rebuilds them: applications and
      everything of an array sort. Datatype constructors, selectors and testers
      of other sorts are not among them. */
  predicate NameKept(t: Term) { t.kind.UfApply? || t.kind.FuncApply? || t.sort.Array? }

  function Rebuild(t: Term, cs: seq<Term>): Term {
    if NameKept(t) then Node(t.sort, t.kind, t.name, cs)
    else if cs == [] then ErrorTerm
    else MkOper(t.sort, t.kind, cs)
  }

  function Subst(t: Term, sub: map<string, Term>): Term
    decreases t, 1
  {
    if IsVarKind(t.kind) then (if t.name in sub then sub[t.name] else t)
    else if StaysLeaf(t) then t
    else Rebuild(t, SubstAll(t.children, sub))
  }

  function SubstAll(ts: seq<Term>, sub: map<string, Term>): (rs: seq<Term>)
    ensures |rs| == |ts| && forall i | 0 <= i < |ts| :: rs[i] == Subst(ts[i], sub)
    decreases ts, 0
  {
    seq(|ts|, i requires 0 <= i < |ts| => Subst(ts[i], sub))
  }

  // ------------------------------------------------------------------
  // The substitution lemma
  // ------------------------------------------------------------------

  predicate IsDatatypeKind(k: Kind) { k.DtConstructor? || k.DtSelector? || k.DtTester? }

  type Interpretation = (Kind, string, seq<Val>) -> Val

  /** What the value of a node reads is still there after rebuilding: where the
      name of a datatype operator is replaced by the bare name of its kind, the
      interpretation does not tell the two apart. */
  ghost predicate NameSurvives(t: Term, uf: Interpretation) {
    IsDatatypeKind(t.kind) && !NameKept(t) ==>
      forall vs: seq<Val> {:trigger uf(t.kind, t.name, vs)} :: uf(t.kind, t.name, vs) == uf(t.kind, KindName(t.kind), vs)
  }

  /** Let-free terms whose variables are replaced by terms of their sort. */
  ghost predicate SubstInput(t: Term, sub: map<string, Term>, uf: Interpretation)
    decreases t, 1
  {
    if t.kind.Var? || t.kind.TempVar? then t.name in sub ==> sub[t.name].sort == t.sort
    else if StaysLeaf(t) then !t.kind.LetBindVar? && t.children == []
    else
      && !IsBinder(t.kind) && !t.kind.LetBindVarList?
      && NodeOk(t) && NameSurvives(t, uf) && (NameKept(t) || t.children != [])
      && AllSubstInput(t.children, sub, uf)
  }

  ghost predicate AllSubstInput(ts: seq<Term>, sub: map<string, Term>, uf: Interpretation)
    decreases ts, 0
  {
    forall i | 0 <= i < |ts| :: SubstInput(ts[i], sub, uf)
  }

  /** No parameter occurs outside the definitions of called functions. */
  predicate ParamFree(t: Term)
    decreases t, 1
  {
    if t.kind.FuncParam? then false
    else if IsCall(t) then AllParamFree(t.children[1..])
    else AllParamFree(t.children)
  }

  predicate AllParamFree(ts: seq<Term>)
    decreases ts, 0
  {
    forall i | 0 <= i < |ts| :: ParamFree(ts[i])
  }

  lemma {:induction false} ParamsUnread(t: Term, m: Model, params: map<string, Val>)
    requires ParamFree(t)
    ensures Value(t, m.(params := params)) == Value(t, m)
    decreases t
  {
    hide Value, Interpret;
    var m' := m.(params := params);
    if IsCall(t) {
      forall i | 1 <= i < |t.children|
        ensures Value(t.children[i], m') == Value(t.children[i], m)
      {
        assert t.children[i] == t.children[1..][i - 1];
        ParamsUnread(t.children[i], m, params);
      }
      UnfoldCall(t, m);
      UnfoldCall(t, m');
      assert Values(t.children, m')[1..] == Values(t.children, m)[1..];
    } else {
      forall i | 0 <= i < |t.children|
        ensures Value(t.children[i], m') == Value(t.children[i], m)
      {
        ParamsUnread(t.children[i], m, params);
      }
      assert Values(t.children, m') == Values(t.children, m);
      if t.kind.FuncApply? {
        UnfoldCall(t, m);
        UnfoldCall(t, m');
      } else {
        Unfold(t, m);
        Unfold(t, m');
        SameInterpretation(t, t, Values(t.children, m), m, m');
      }
    }
  }

  lemma SameInterpretation(t: Term, r: Term, vs: seq<Val>, m: Model, m': Model)
    requires m.uf == m'.uf && r.kind == t.kind && (t.kind.UfApply? || IsDatatypeKind(t.kind) ==> r.name == t.name)
    requires IsLeafKind(t.kind) ==> !t.kind.FuncParam? && r == t && m.leaf(t) == m'.leaf(t)
    ensures Interpret(t, vs, m') == Interpret(r, vs, m)
  {
  }

  /** The mapped variables that occur in a term. */
  function Mapped(t: Term, sub: map<string, Term>): set<string>
    decreases t, 1
  {
    (if IsVarKind(t.kind) && t.name in sub then {t.name} else {}) + MappedAll(t.children, sub)
  }

  function MappedAll(ts: seq<Term>, sub: map<string, Term>): (xs: set<string>)
    ensures forall i | 0 <= i < |ts| :: Mapped(ts[i], sub) <= xs
    decreases ts, 0
  {
    if ts == [] then {}
    else
      assert ts == [ts[0]] + ts[1..];
      Mapped(ts[0], sub) + MappedAll(ts[1..], sub)
  }

  /** No replacement is captured: into the bodies of called definitions, where
      the parameters are bound anew, go only replacements without parameters. */
  predicate NoneCaptured(t: Term, sub: map<string, Term>)
    decreases t, 1
  {
    && (IsCall(t) ==> forall x | x in Mapped(t.children[0].children[0], sub) && x in sub :: ParamFree(sub[x]))
    && AllNoneCaptured(t.children, sub)
  }

  predicate AllNoneCaptured(ts: seq<Term>, sub: map<string, Term>)
    decreases ts, 0
  {
    forall i | 0 <= i < |ts| :: NoneCaptured(ts[i], sub)
  }

  /** Replacements without parameters are never captured. */
  lemma {:induction false} ParamFreeNotCaptured(t: Term, sub: map<string, Term>)
    requires forall x | x in sub :: ParamFree(sub[x])
    ensures NoneCaptured(t, sub)
    decreases t
  {
    hide ParamFree;
    if IsCall(t) {
      MappedInSub(t.children[0].children[0], sub);
    }
    forall i | 0 <= i < |t.children|
      ensures NoneCaptured(t.children[i], sub)
    {
      ParamFreeNotCaptured(t.children[i], sub);
    }
  }

  lemma {:induction false} MappedInSub(t: Term, sub: map<string, Term>)
    ensures Mapped(t, sub) <= sub.Keys
    decreases t, 1
  {
    AllMappedInSub(t.children, sub);
  }

  lemma {:induction false} AllMappedInSub(ts: seq<Term>, sub: map<string, Term>)
    ensures MappedAll(ts, sub) <= sub.Keys
    decreases ts, 0
  {
    if ts != [] {
      MappedInSub(ts[0], sub);
      AllMappedInSub(ts[1..], sub);
    }
  }

  /** The second model reads the mapped variables among `names` as the values
      their replacements have in the first, and unmapped ones as the first. */
  ghost predicate Reads(names: set<string>, sub: map<string, Term>, m: Model, m': Model) {
    && m'.uf == m.uf && m'.params == m.params
    && forall v: Term {:trigger m'.leaf(v)} ::
         && (IsVarKind(v.kind) && v.name in sub ==> v.name in names ==> m'.leaf(v) == Value(sub[v.name], m))
         && (!(IsVarKind(v.kind) && v.name in sub) ==> m'.leaf(v) == m.leaf(v))
  }

  ghost function SubstModel(sub: map<string, Term>, m: Model): (m': Model)
    ensures Reads(sub.Keys, sub, m, m')
  {
    m.(leaf := (v: Term) => if IsVarKind(v.kind) && v.name in sub then Value(sub[v.name], m) else m.leaf(v))
  }

  lemma ReadsInCallee(names: set<string>, inner: set<string>, sub: map<string, Term>, m: Model, m': Model, params: map<string, Val>)
    requires Reads(names, sub, m, m') && inner <= names && inner <= sub.Keys
    requires forall x | x in inner :: ParamFree(sub[x])
    ensures Reads(inner, sub, m.(params := params), m'.(params := params))
  {
    hide Value, ParamFree;
    forall x | x in inner
      ensures Value(sub[x], m.(params := params)) == Value(sub[x], m)
    {
      ParamsUnread(sub[x], m, params);
    }
  }

  /** The value after substituting is the value with every mapped variable read
      as its replacement. */
  lemma {:induction false} SubstReads(t: Term, names: set<string>, sub: map<string, Term>, m: Model, m': Model)
    requires SubstInput(t, sub, m.uf) && NoneCaptured(t, sub)
    requires Mapped(t, sub) <= names && Reads(names, sub, m, m')
    ensures Value(Subst(t, sub), m) == Value(t, m')
    decreases t, 2
  {
    hide Value, Interpret, ParamFree;
    if StaysLeaf(t) {
      LeafReads(t, names, sub, m, m');
    } else {
      SubstAllReads(t.children, names, sub, m, m');
      if t.kind.FuncApply? {
        CallReads(t, names, sub, m, m');
      } else {
        var r := Subst(t, sub);
        Unfold(t, m');
        Unfold(r, m);
        RebuiltInterpretation(t, r, Values(t.children, m'), m, m');
      }
    }
  }

  lemma RebuiltInterpretation(t: Term, r: Term, vs: seq<Val>, m: Model, m': Model)
    requires m.uf == m'.uf && r.kind == t.kind && !IsLeafKind(t.kind) && NameSurvives(t, m.uf)
    requires r.name == if NameKept(t) then t.name else KindName(t.kind)
    ensures Interpret(t, vs, m') == Interpret(r, vs, m)
  {
  }

  lemma LeafReads(t: Term, names: set<string>, sub: map<string, Term>, m: Model, m': Model)
    requires SubstInput(t, sub, m.uf) && StaysLeaf(t) && Mapped(t, sub) <= names && Reads(names, sub, m, m')
    ensures Value(Subst(t, sub), m) == Value(t, m')
  {
    hide Value;
    Unfold(t, m');
    Unfold(t, m);
    if IsVarKind(t.kind) && t.name in sub {
      ValueHasSort(sub[t.name], m);
    }
  }

  lemma {:induction false} SubstAllReads(ts: seq<Term>, names: set<string>, sub: map<string, Term>, m: Model, m': Model)
    requires AllSubstInput(ts, sub, m.uf) && AllNoneCaptured(ts, sub)
    requires MappedAll(ts, sub) <= names && Reads(names, sub, m, m')
    ensures Values(SubstAll(ts, sub), m) == Values(ts, m')
    decreases ts, 0
  {
    hide Value, Reads, Subst, SubstInput, NoneCaptured, Mapped;
    forall i | 0 <= i < |ts|
      ensures Value(SubstAll(ts, sub)[i], m) == Value(ts[i], m')
    {
      assert Mapped(ts[i], sub) <= names;
      SubstReads(ts[i], names, sub, m, m');
    }
  }

  /** In a call the substitution also reaches the body of the definition; its
      parameters are untouched. */
  lemma {:induction false} CallReads(t: Term, names: set<string>, sub: map<string, Term>, m: Model, m': Model)
    requires SubstInput(t, sub, m.uf) && NoneCaptured(t, sub) && t.kind.FuncApply?
    requires Mapped(t, sub) <= names && Reads(names, sub, m, m')
    requires Values(SubstAll(t.children, sub), m) == Values(t.children, m')
    ensures Value(Subst(t, sub), m) == Value(t, m')
    decreases t, 1
  {
    hide Value, Interpret, ParamFree, Reads;
    var fun := t.children[0];
    var r := Subst(t, sub);
    DefinitionParts(t, names, sub, m.uf);
    var formals, body := fun.children[1..], fun.children[0];
    UnfoldCall(t, m');
    UnfoldCall(r, m);
    var params := BindParams(formals, Values(t.children, m')[1..]);
    var inner := Mapped(body, sub);
    MappedInSub(body, sub);
    ReadsInCallee(names, inner, sub, m, m', params);
    SubstReads(body, inner, sub, m.(params := params), m'.(params := params));
  }

  /** What substitution makes of a definition. */
  lemma {:induction false} DefinitionParts(t: Term, names: set<string>, sub: map<string, Term>, uf: Interpretation)
    requires SubstInput(t, sub, uf) && NoneCaptured(t, sub) && t.kind.FuncApply? && Mapped(t, sub) <= names
    ensures var fun, r := t.children[0], Subst(t, sub);
            && IsCall(t) && IsCall(r) && |fun.children| >= 1
            && r.kind == t.kind && r.sort == t.sort && r.children == SubstAll(t.children, sub)
            && r.children[0].children[0] == Subst(fun.children[0], sub)
            && r.children[0].children[1..] == fun.children[1..]
            && SubstInput(fun.children[0], sub, uf) && NoneCaptured(fun.children[0], sub)
            && Mapped(fun.children[0], sub) <= names
            && forall x | x in Mapped(fun.children[0], sub) && x in sub :: ParamFree(sub[x])
  {
    hide ParamFree, NameSurvives;
    var fun := t.children[0];
    assert SubstInput(fun, sub, uf) && NoneCaptured(fun, sub) && Mapped(fun, sub) <= names;
    assert AllSubstInput(fun.children, sub, uf) && MappedAll(fun.children, sub) <= names;
    assert Subst(fun, sub).children == SubstAll(fun.children, sub);
    assert Subst(fun, sub).children[1..] == fun.children[1..] by {
      assert forall i | 1 <= i < |fun.children| :: fun.children[i].kind.FuncParam?;
    }
  }

  /** The substitution lemma, in the model that reads mapped variables as their
      replacements. */
  lemma SubstitutionLemma(t: Term, sub: map<string, Term>, m: Model)
    requires SubstInput(t, sub, m.uf) && NoneCaptured(t, sub)
    ensures Value(Subst(t, sub), m) == Value(t, SubstModel(sub, m))
  {
    hide Value, Reads;
    MappedInSub(t, sub);
    SubstReads(t, sub.Keys, sub, m, SubstModel(sub, m));
  }

  const ParamP := Node(Int, FuncParam, "p", [])
  const VarX := Node(Int, Var, "x", [])

  /** A call keeps its own name; the definition inside it is renamed after its
      kind. */
  lemma CallNameKept(t: Term, sub: map<string, Term>)
    requires IsCall(t)
    ensures var r := Subst(t, sub);
            && r.kind.FuncApply? && r.sort == t.sort && r.name == t.name && |r.children| == |t.children|
            && r.children[0].kind.FuncDef? && (r.children[0].sort.Array? || r.children[0].name == "func_def")
  {
  }

  /** A parameter is captured: with x replaced by the parameter p, the body x of
      a definition with a parameter of that name becomes its own argument. */
  lemma ParamCaptured() returns (t: Term, sub: map<string, Term>, m: Model)
    ensures t == Node(Int, FuncApply, "f", [Node(Int, FuncDef, "f", [VarX, ParamP]), IntTerm(7)])
    ensures sub == map["x" := ParamP] && SubstInput(t, sub, m.uf)
    ensures Value(Subst(t, sub), m) == N(7) && Value(t, SubstModel(sub, m)) == N(1)
  {
    hide Value, Subst, SubstInput;
    var fun := Node(Int, FuncDef, "f", [VarX, ParamP]);
    t, sub := Node(Int, FuncApply, "f", [fun, IntTerm(7)]), map["x" := ParamP];
    m := Model((l: Term) => U(0), (k, n, vs) => U(0), map["p" := N(1)]);
    var r := Subst(t, sub);
    CapturedForm(t, sub, m.uf);
    var m' := SubstModel(sub, m);
    assert "x" in sub;
    UnfoldCall(r, m);
    UnfoldCall(t, m');
    CalledWithSeven(r, m);
    CalledWithSeven(t, m');
    Unfold(ParamP, m);
    Unfold(ParamP, CalleeModel(r, m));
    Unfold(VarX, CalleeModel(t, m'));
  }

  lemma CapturedForm(t: Term, sub: map<string, Term>, uf: Interpretation)
    requires t == Node(Int, FuncApply, "f", [Node(Int, FuncDef, "f", [VarX, ParamP]), IntTerm(7)]) && sub == map["x" := ParamP]
    ensures SubstInput(t, sub, uf)
    ensures Subst(t, sub) == Node(Int, FuncApply, "f", [MkOper(Int, FuncDef, [ParamP, ParamP]), IntTerm(7)])
  {
    var fun := Node(Int, FuncDef, "f", [VarX, ParamP]);
    assert "x" in sub;
    assert AllSubstInput([VarX, ParamP], sub, uf) && SubstInput(fun, sub, uf);
    assert SubstAll([VarX, ParamP], sub) == [ParamP, ParamP];
    assert SubstAll([fun, IntTerm(7)], sub) == [Subst(fun, sub), IntTerm(7)];
  }

  lemma CalledWithSeven(t: Term, m: Model)
    requires IsCall(t) && |t.children| == 2 && t.children[1] == IntTerm(7) && t.children[0].children[1] == ParamP
    ensures CalleeModel(t, m) == m.(params := map["p" := N(7)])
  {
    hide Value;
    Unfold(IntTerm(7), m);
    var formals, vs := t.children[0].children[1..], Values(t.children, m)[1..];
    assert formals == [ParamP] && vs == [N(7)];
    assert formals[1..] == [] && BindParams([], vs[1..]) == map[];
    assert BindParams(formals, vs) == map["p" := N(7)];
  }

  /** A model that tells two names of an operator apart. */
  ghost function TellApart(sort: Sort, name: string): Model {
    Model((l: Term) => U(0),
          (k, n, vs) => match sort
            case Bool => B(n == name)
            case Int => N(if n == name then 1 else 0)
            case Str => S(if n == name then "a" else "")
            case _ => U(if n == name then 1 else 0),
          map[])
  }

  /** Where the operands of a datatype operator are substituted right, the whole
      node is, in all models, exactly if its name is the one mkOper gives or it is
      of an array sort: elsewhere the declared name of a constructor, selector or
      tester is lost. */
  lemma DatatypeNamesLost(t: Term, sub: map<string, Term>)
    requires IsDatatypeKind(t.kind) && t.children != []
    requires forall m: Model :: AllSubstInput(t.children, sub, m.uf)
    requires AllNoneCaptured(t.children, sub)
    ensures (forall m: Model :: Value(Subst(t, sub), m) == Value(t, SubstModel(sub, m)))
            <==> t.name == KindName(t.kind) || t.sort.Array?
  {
    hide Value, SubstAll, Values, AllSubstInput, AllNoneCaptured;
    if t.name == KindName(t.kind) || t.sort.Array? {
      forall m: Model
        ensures Value(Subst(t, sub), m) == Value(t, SubstModel(sub, m))
      {
        OperatorReads(t, sub, m);
      }
    } else {
      var m := TellApart(t.sort, t.name);
      OperatorReads(t, sub, m);
      assert Value(Subst(t, sub), m) != Value(t, SubstModel(sub, m));
    }
  }

  lemma OperatorReads(t: Term, sub: map<string, Term>, m: Model)
    requires IsDatatypeKind(t.kind) && t.children != []
    requires AllSubstInput(t.children, sub, m.uf) && AllNoneCaptured(t.children, sub)
    ensures var vs := Values(t.children, SubstModel(sub, m));
            && Value(t, SubstModel(sub, m)) == Coerce(t.sort, m.uf(t.kind, t.name, vs))
            && Value(Subst(t, sub), m) ==
               Coerce(t.sort, m.uf(t.kind, if t.sort.Array? then t.name else KindName(t.kind), vs))
  {
    hide Value, Values, SubstModel, SubstAll, Mapped, NoneCaptured, SubstInput, AllSubstInput, AllNoneCaptured, MappedAll;
    var r, m' := Subst(t, sub), SubstModel(sub, m);
    OperatorRebuilt(t, sub);
    hide Subst;
    AllMappedInSub(t.children, sub);
    SubstAllReads(t.children, sub.Keys, sub, m, m');
    Unfold(t, m');
    Unfold(r, m);
  }

  lemma {:induction false} OperatorRebuilt(t: Term, sub: map<string, Term>)
    requires IsDatatypeKind(t.kind) && t.children != []
    ensures Subst(t, sub) ==
            Node(t.sort, t.kind, if t.sort.Array? then t.name else KindName(t.kind), SubstAll(t.children, sub))
  {
    hide SubstAll;
  }

  // ------------------------------------------------------------------
  // The worklist
  // ------------------------------------------------------------------

  ghost predicate MemoOk(visited: map<Term, Term>, sub: map<string, Term>) {
    forall t | t in visited :: visited[t] == Subst(t, sub)
  }

  ghost function Operands(): Term -> seq<Term> { (t: Term) => if StaysLeaf(t) then [] else t.children }

  method Collect(t: Term, visited: map<Term, Term>, ghost sub: map<string, Term>) returns (cs: seq<Term>)
    requires MemoOk(visited, sub) && AllDone(t.children, visited.Keys)
    ensures cs == SubstAll(t.children, sub)
  {
    hide Subst;
    cs := [];
    for i := 0 to |t.children|
      invariant |cs| == i && forall j | 0 <= j < i :: cs[j] == Subst(t.children[j], sub)
    {
      assert t.children[i] in visited.Keys;
      cs := cs + [visited[t.children[i]]];
    }
  }

  /** One node on its second visit, or a leaf on its first. */
  method Visited(t: Term, sub: map<string, Term>, visited: map<Term, Term>) returns (r: Term)
    requires MemoOk(visited, sub) && (StaysLeaf(t) || AllDone(t.children, visited.Keys))
    ensures r == Subst(t, sub)
  {
    if IsVarKind(t.kind) {
      r := if t.name in sub then sub[t.name] else t;
    } else if StaysLeaf(t) {
      r := t;
    } else {
      var cs := Collect(t, visited, sub);
      r := Rebuild(t, cs);
    }
  }

  /** The stack machine computes the recursive substitution, from any correct
      memo table, which it only adds correct entries to. */
  method Substitute(expr: Term, sub: map<string, Term>, memo: map<Term, Term>)
    returns (r: Term, visited: map<Term, Term>)
    requires MemoOk(memo, sub)
    ensures r == Subst(expr, sub) && MemoOk(visited, sub) && memo.Keys <= visited.Keys && expr in visited
  {
    hide Subst, Waiting, Covered, Size, StaysLeaf;
    visited := memo;
    if expr in visited {
      return visited[expr], visited;
    }
    var todo := [Visit(expr, false)];
    StartState(expr, visited.Keys, Operands());
    while todo != []
      invariant MemoOk(visited, sub) && memo.Keys <= visited.Keys
      invariant Waiting(todo, visited.Keys, Operands()) && Covered(expr, visited.Keys, todo, 0)
      decreases Weight(todo)
    {
      var current := todo[|todo| - 1];
      ghost var done := visited.Keys;
      if current.node in visited {
        Pop(todo, done, done, Operands(), expr);
        todo := todo[..|todo| - 1];
      } else if current.ready || StaysLeaf(current.node) {
        if current.ready {
          TopIsReady(todo, done, Operands());
          ReadyOperands(current.node, done);
        }
        var result := Visited(current.node, sub, visited);
        visited := visited[current.node := result];
        Pop(todo, done, visited.Keys, Operands(), expr);
        todo := todo[..|todo| - 1];
      } else {
        var pushed := PushOperands(current.node.children, visited.Keys);
        ScheduledOperands(current.node, done, pushed);
        Schedule(todo, done, Operands(), pushed, expr);
        todo := todo[..|todo| - 1] + [Visit(current.node, true)] + pushed;
      }
    }
    NothingLeft(expr, visited.Keys);
    r := visited[expr];
  }

  lemma ReadyOperands(t: Term, done: set<Term>)
    requires AllDone(Operands()(t), done)
    ensures StaysLeaf(t) || AllDone(t.children, done)
  {
  }

  lemma ScheduledOperands(t: Term, done: set<Term>, pushed: seq<Visit>)
    requires !StaysLeaf(t) && AllCovered(t.children, done, pushed, 0) && Weight(pushed) <= 2 * SizeAll(t.children)
    ensures AllCovered(Operands()(t), done, pushed, 0) && 1 + Weight(pushed) < 2 * Size(t)
  {
  }
}
