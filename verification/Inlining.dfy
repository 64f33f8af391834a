// applyFun and applyFunPostOrder: calling defined functions by replacing
// parameters in the body, nested calls included.
module Inlining {
  import opened Terms
  import opened Builders
  import opened PostOrder

  predicate IsReplacedLeaf(t: Term) { t.kind.FuncParam? || IsConst(t) || IsVarKind(t.kind) }

  /** Applications rebuilt by mkApplyUF, which finds the same operator again
      from the name and the sorts. */
  predicate IsNamedApply(k: Kind) { k.UfApply? || k.DtConstructor? || k.DtSelector? || k.DtTester? }

  /** Parameter names and arguments; `insert` keeps the first of two. */
  function BindArgs(formals: seq<Term>, args: seq<Term>): map<string, Term>
    requires |formals| == |args|
  {
    if formals == [] then map[]
    else BindArgs(formals[1..], args[1..])[formals[0].name := args[0]]
  }

  predicate SortMismatch(formals: seq<Term>, args: seq<Term>)
    requires |formals| == |args|
  {
    exists i :: 0 <= i < |args| && !args[i].kind.Error? && args[i].sort != formals[i].sort
  }

  /** The first erroneous argument, or the error term. */
  function FirstError(args: seq<Term>): Term {
    if args == [] then ErrorTerm
    else if args[0].kind.Error? then args[0]
    else FirstError(args[1..])
  }

  predicate AnyError(args: seq<Term>) { exists i :: 0 <= i < |args| && args[i].kind.Error? }

  function RebuildCalled(t: Term, cs: seq<Term>): Term {
    if IsNamedApply(t.kind) then Node(t.sort, t.kind, t.name, cs)
    else if cs == [] then ErrorTerm
    else MkOper(t.sort, t.kind, cs)
  }

  function Inline(t: Term, args: map<string, Term>, expand: bool): Term
    decreases t, 1
  {
    if t.kind.FuncParam? then (if t.name in args then args[t.name] else ErrorTerm)
    else if IsReplacedLeaf(t) then t
    else if t.kind.FuncApply? then
      if t.children == [] then ErrorTerm
      else ApplyFun(t.children[0], InlineAll(t.children[1..], args, expand), expand)
    else RebuildCalled(t, InlineAll(t.children, args, expand))
  }

  function InlineAll(ts: seq<Term>, args: map<string, Term>, expand: bool): (rs: seq<Term>)
    ensures |rs| == |ts| && forall i | 0 <= i < |ts| :: rs[i] == Inline(ts[i], args, expand)
    decreases ts, 0
  {
    seq(|ts|, i requires 0 <= i < |ts| => Inline(ts[i], args, expand))
  }

  /** A call: refused on a wrong number or sort of arguments, kept as a call
      when definitions are not expanded, otherwise the body with the arguments
      for the parameters. */
  function ApplyFun(fun: Term, args: seq<Term>, expand: bool): Term
    decreases fun, 2
  {
    if !fun.kind.FuncDef? || |fun.children| != |args| + 1 then ErrorTerm
    else
      var body, formals := fun.children[0], fun.children[1..];
      if SortMismatch(formals, args) then ErrorTerm
      else if !expand then Node(fun.sort, FuncApply, fun.name, [fun] + args)
      else if body.kind.Error? then body
      else if AnyError(args) then FirstError(args)
      else Inline(body, BindArgs(formals, args), expand)
  }

  // ------------------------------------------------------------------
  // Inlining means calling
  // ------------------------------------------------------------------

  function ParamSorts(formals: seq<Term>): map<string, Sort> {
    if formals == [] then map[] else ParamSorts(formals[1..])[formals[0].name := formals[0].sort]
  }

  /** A definition whose body has the declared sort and mentions only its own
      parameters. */
  predicate DefOk(fun: Term)
    decreases fun, 2
  {
    && fun.kind.FuncDef? && fun.children != []
    && fun.sort == fun.children[0].sort
    && Fits(fun.children[0], ParamSorts(fun.children[1..]))
  }

  /** A let-free term over the given parameters whose calls match their
      definitions in number and sort of arguments. */
  predicate Fits(t: Term, sorts: map<string, Sort>)
    decreases t, 1
  {
    if t.kind.FuncParam? then t.children == [] && t.name in sorts && sorts[t.name] == t.sort
    else if IsReplacedLeaf(t) then t.children == [] && !t.kind.LetBindVar?
    else if t.kind.FuncApply? then
      && IsCall(t) && DefOk(t.children[0]) && t.sort == t.children[0].sort
      && AllFits(t.children[1..], sorts)
      && forall i | 1 <= i < |t.children| :: t.children[i].sort == t.children[0].children[i].sort
    else
      && !t.kind.Error? && !t.kind.FuncDef? && !IsBinder(t.kind) && !t.kind.LetBindVarList?
      && (IsNamedApply(t.kind) || t.children != [])
      && AllFits(t.children, sorts)
  }

  predicate AllFits(ts: seq<Term>, sorts: map<string, Sort>)
    decreases ts, 0
  {
    forall i | 0 <= i < |ts| :: Fits(ts[i], sorts)
  }

  /** Arguments of the declared sorts, none of them an error. */
  predicate ArgsFit(args: map<string, Term>, sorts: map<string, Sort>) {
    forall x | x in sorts :: x in args && args[x].sort == sorts[x] && !args[x].kind.Error?
  }

  /** The second model gives each parameter the value its argument has in the
      first. */
  ghost predicate Calls(args: map<string, Term>, sorts: map<string, Sort>, m: Model, m': Model) {
    && m'.leaf == m.leaf && m'.uf == m.uf
    && forall x | x in sorts :: x in args && x in m'.params && m'.params[x] == Value(args[x], m)
  }

  lemma {:induction false} BoundArgs(formals: seq<Term>, args: seq<Term>, m: Model)
    requires |formals| == |args|
    requires forall i | 0 <= i < |args| :: args[i].sort == formals[i].sort && !args[i].kind.Error?
    ensures var vs := Values(args, m);
            && ArgsFit(BindArgs(formals, args), ParamSorts(formals))
            && Calls(BindArgs(formals, args), ParamSorts(formals), m, m.(params := BindParams(formals, vs)))
  {
    hide Value;
    if formals != [] {
      BoundArgs(formals[1..], args[1..], m);
      assert Values(args, m)[1..] == Values(args[1..], m);
    }
  }

  lemma {:induction false} InlineMeansCall(t: Term, args: map<string, Term>, expand: bool, sorts: map<string, Sort>, m: Model, m': Model)
    requires Fits(t, sorts) && ArgsFit(args, sorts) && Calls(args, sorts, m, m')
    ensures Value(Inline(t, args, expand), m) == Value(t, m')
    ensures Inline(t, args, expand).sort == t.sort && !Inline(t, args, expand).kind.Error?
    decreases t, 2
  {
    hide Value, Interpret, Calls, ArgsFit, DefOk;
    if IsReplacedLeaf(t) {
      LeafMeans(t, args, expand, sorts, m, m');
    } else if t.kind.FuncApply? {
      CallMeans(t, args, expand, sorts, m, m');
    } else {
      var r := Inline(t, args, expand);
      AllMean(t.children, args, expand, sorts, m, m');
      Unfold(t, m');
      Unfold(r, m);
      OperatorMeans(t, r, Values(t.children, m'), args, sorts, m, m');
    }
  }

  lemma LeafMeans(t: Term, args: map<string, Term>, expand: bool, sorts: map<string, Sort>, m: Model, m': Model)
    requires Fits(t, sorts) && ArgsFit(args, sorts) && Calls(args, sorts, m, m') && IsReplacedLeaf(t)
    ensures Value(Inline(t, args, expand), m) == Value(t, m')
    ensures Inline(t, args, expand).sort == t.sort && !Inline(t, args, expand).kind.Error?
  {
    hide Value;
    Unfold(t, m');
    Unfold(t, m);
    if t.kind.FuncParam? {
      ValueHasSort(args[t.name], m);
    }
  }

  lemma OperatorMeans(t: Term, r: Term, vs: seq<Val>, args: map<string, Term>, sorts: map<string, Sort>, m: Model, m': Model)
    requires Calls(args, sorts, m, m') && !IsReplacedLeaf(t) && r.kind == t.kind && (IsNamedApply(t.kind) ==> r.name == t.name)
    ensures Interpret(r, vs, m) == Interpret(t, vs, m')
  {
    hide Value;
  }

  lemma {:induction false} AllMean(ts: seq<Term>, args: map<string, Term>, expand: bool, sorts: map<string, Sort>, m: Model, m': Model)
    requires AllFits(ts, sorts) && ArgsFit(args, sorts) && Calls(args, sorts, m, m')
    ensures Values(InlineAll(ts, args, expand), m) == Values(ts, m')
    ensures forall i | 0 <= i < |ts| :: InlineAll(ts, args, expand)[i].sort == ts[i].sort && !InlineAll(ts, args, expand)[i].kind.Error?
    decreases ts, 0
  {
    hide Value, Inline, Fits, ArgsFit, Calls;
    forall i | 0 <= i < |ts|
      ensures Value(InlineAll(ts, args, expand)[i], m) == Value(ts[i], m')
      ensures InlineAll(ts, args, expand)[i].sort == ts[i].sort && !InlineAll(ts, args, expand)[i].kind.Error?
    {
      InlineMeansCall(ts[i], args, expand, sorts, m, m');
    }
  }

  lemma {:induction false} CallMeans(t: Term, args: map<string, Term>, expand: bool, sorts: map<string, Sort>, m: Model, m': Model)
    requires Fits(t, sorts) && ArgsFit(args, sorts) && Calls(args, sorts, m, m') && t.kind.FuncApply?
    ensures Value(Inline(t, args, expand), m) == Value(t, m')
    ensures Inline(t, args, expand).sort == t.sort && !Inline(t, args, expand).kind.Error?
    decreases t, 1
  {
    hide Value, Interpret, ArgsFit, Inline, ApplyFun;
    var fun := t.children[0];
    var formals, actuals := fun.children[1..], InlineAll(t.children[1..], args, expand);
    AllMean(t.children[1..], args, expand, sorts, m, m');
    assert Values(t.children[1..], m') == Values(t.children, m')[1..];
    forall i | 0 <= i < |actuals|
      ensures actuals[i].sort == formals[i].sort
    {
      assert t.children[1..][i] == t.children[i + 1];
    }
    InlinedCall(t, args, expand);
    ApplyMeans(fun, actuals, expand, m);
    UnfoldCall(t, m');
    assert CalleeModel(t, m') == m.(params := BindParams(formals, Values(actuals, m)));
  }

  lemma InlinedCall(t: Term, args: map<string, Term>, expand: bool)
    requires t.kind.FuncApply? && t.children != []
    ensures Inline(t, args, expand) == ApplyFun(t.children[0], InlineAll(t.children[1..], args, expand), expand)
  {
  }

  /** The main result: calling a definition on arguments gives a term whose
      value is the body's with the parameters bound to the arguments' values,
      expanded or not. */
  lemma {:induction false} ApplyMeans(fun: Term, args: seq<Term>, expand: bool, m: Model)
    requires DefOk(fun) && |fun.children| == |args| + 1
    requires forall i | 0 <= i < |args| :: args[i].sort == fun.children[1..][i].sort && !args[i].kind.Error?
    ensures var r := ApplyFun(fun, args, expand);
            && r.sort == fun.sort && !r.kind.Error?
            && Value(r, m) == Coerce(fun.sort, Value(fun.children[0], m.(params := BindParams(fun.children[1..], Values(args, m)))))
    decreases fun, 3
  {
    hide Value, Interpret, ArgsFit, Inline, Calls, Fits;
    var formals, body := fun.children[1..], fun.children[0];
    var callee := m.(params := BindParams(formals, Values(args, m)));
    if expand {
      BoundArgs(formals, args, m);
      InlineMeansCall(body, BindArgs(formals, args), expand, ParamSorts(formals), m, callee);
      ValueHasSort(body, callee);
      BodyIsNotError(body, ParamSorts(formals));
    } else {
      var r := Node(fun.sort, FuncApply, fun.name, [fun] + args);
      UnfoldCall(r, m);
      assert r.children[1..] == args;
      assert Values(r.children, m)[1..] == Values(args, m);
    }
  }

  lemma BodyIsNotError(body: Term, sorts: map<string, Sort>)
    requires Fits(body, sorts)
    ensures !body.kind.Error?
  {
  }

  // ------------------------------------------------------------------
  // Refused calls, kept calls, and none left
  // ------------------------------------------------------------------

  /** A call on terms that are no errors gives an error exactly if it has
      another number of arguments or an argument of another sort than the
      definition declares. */
  lemma ApplyErrs(fun: Term, args: seq<Term>, expand: bool)
    requires DefOk(fun) && forall i | 0 <= i < |args| :: !args[i].kind.Error?
    ensures ApplyFun(fun, args, expand).kind.Error? <==>
              |args| != |fun.children| - 1 || exists i :: 0 <= i < |args| && args[i].sort != fun.children[i + 1].sort
    ensures ApplyFun(fun, args, expand).kind.Error? ==> ApplyFun(fun, args, expand) == ErrorTerm
  {
    hide Inline, DefOk, BindArgs;
    DefHasBody(fun);
    if |args| == |fun.children| - 1 {
      assert forall i | 0 <= i < |args| :: fun.children[1..][i] == fun.children[i + 1];
      if exists i :: 0 <= i < |args| && args[i].sort != fun.children[i + 1].sort {
        var i :| 0 <= i < |args| && args[i].sort != fun.children[i + 1].sort;
        assert SortMismatch(fun.children[1..], args);
      } else {
        var m := Model(x => B(false), (k, name, vs) => B(false), map[]);
        ApplyMeans(fun, args, expand, m);
      }
    }
  }

  lemma DefHasBody(fun: Term)
    requires DefOk(fun)
    ensures fun.kind.FuncDef? && fun.children != []
  {
  }

  /** With an argument that is an error and the others of the declared sorts,
      an expanded call is the first such argument. */
  lemma ErrorArgument(fun: Term, args: seq<Term>, i: nat)
    requires DefOk(fun) && |fun.children| == |args| + 1 && i < |args|
    requires forall j | 0 <= j < |args| :: args[j].kind.Error? || args[j].sort == fun.children[j + 1].sort
    requires args[i].kind.Error? && forall j | 0 <= j < i :: !args[j].kind.Error?
    ensures ApplyFun(fun, args, true) == args[i]
  {
    hide Inline, Fits, BindArgs;
    BodyIsNotError(fun.children[0], ParamSorts(fun.children[1..]));
    assert forall j | 0 <= j < |args| :: fun.children[1..][j] == fun.children[j + 1];
    assert AnyError(args);
    FirstErrorAt(args, i);
  }

  lemma {:induction false} FirstErrorAt(args: seq<Term>, i: nat)
    requires i < |args| && args[i].kind.Error? && forall j | 0 <= j < i :: !args[j].kind.Error?
    ensures FirstError(args) == args[i]
  {
    if i > 0 {
      FirstErrorAt(args[1..], i - 1);
    }
  }

  /** No call of a defined function and no parameter. */
  predicate CallFree(t: Term) {
    !t.kind.FuncApply? && !t.kind.FuncParam? && forall i | 0 <= i < |t.children| :: CallFree(t.children[i])
  }

  predicate AllCallFree(ts: seq<Term>) { forall i | 0 <= i < |ts| :: CallFree(ts[i]) }

  /** Expanding leaves no call and no parameter that the arguments did not
      bring. */
  lemma {:induction false} ExpandedIsCallFree(t: Term, args: map<string, Term>, sorts: map<string, Sort>)
    requires Fits(t, sorts) && forall x | x in args :: CallFree(args[x])
    ensures CallFree(Inline(t, args, true))
    decreases t, 2
  {
    hide CallFree, DefOk, ApplyFun;
    ErrorCallFree();
    if t.kind.FuncParam? {
    } else if IsReplacedLeaf(t) {
      LeafCallFree(t, sorts);
    } else if t.kind.FuncApply? {
      AllExpandedCallFree(t.children[1..], args, sorts);
      InlinedCall(t, args, true);
      AppliedIsCallFree(t.children[0], InlineAll(t.children[1..], args, true));
    } else {
      AllExpandedCallFree(t.children, args, sorts);
      RebuiltIsCallFree(t, InlineAll(t.children, args, true));
    }
  }

  lemma ErrorCallFree()
    ensures CallFree(ErrorTerm)
  {
  }

  lemma LeafCallFree(t: Term, sorts: map<string, Sort>)
    requires Fits(t, sorts) && IsReplacedLeaf(t) && !t.kind.FuncParam?
    ensures CallFree(t)
  {
  }

  lemma RebuiltIsCallFree(t: Term, cs: seq<Term>)
    requires !t.kind.FuncApply? && !t.kind.FuncParam? && AllCallFree(cs)
    ensures CallFree(RebuildCalled(t, cs))
  {
  }

  lemma {:induction false} AllExpandedCallFree(ts: seq<Term>, args: map<string, Term>, sorts: map<string, Sort>)
    requires AllFits(ts, sorts) && forall x | x in args :: CallFree(args[x])
    ensures AllCallFree(InlineAll(ts, args, true))
    decreases ts, 0
  {
    hide CallFree, Fits, Inline;
    forall i | 0 <= i < |ts|
      ensures CallFree(InlineAll(ts, args, true)[i])
    {
      ExpandedIsCallFree(ts[i], args, sorts);
    }
  }

  lemma {:induction false} AppliedIsCallFree(fun: Term, args: seq<Term>)
    requires DefOk(fun) && AllCallFree(args)
    ensures CallFree(ApplyFun(fun, args, true))
    decreases fun, 3
  {
    hide CallFree, Fits, Inline, BindArgs, FirstError, SortMismatch;
    ErrorCallFree();
    FirstErrorCallFree(args);
    if |fun.children| == |args| + 1 {
      var body, formals := fun.children[0], fun.children[1..];
      BodyIsNotError(body, ParamSorts(formals));
      BoundCallFree(formals, args);
      ExpandedIsCallFree(body, BindArgs(formals, args), ParamSorts(formals));
    }
  }

  lemma {:induction false} FirstErrorCallFree(args: seq<Term>)
    requires AllCallFree(args)
    ensures CallFree(FirstError(args))
  {
    hide CallFree;
    if args == [] {
      ErrorCallFree();
    } else {
      FirstErrorCallFree(args[1..]);
    }
  }

  lemma {:induction false} BoundCallFree(formals: seq<Term>, args: seq<Term>)
    requires |formals| == |args| && AllCallFree(args)
    ensures forall x | x in BindArgs(formals, args) :: CallFree(BindArgs(formals, args)[x])
  {
    hide CallFree;
    if formals != [] {
      BoundCallFree(formals[1..], args[1..]);
    }
  }

  /** Every call outside definitions is named after its definition. */
  predicate CallsNamed(t: Term) {
    if t.kind.FuncApply? then
      t.children != [] && t.name == t.children[0].name && forall i | 1 <= i < |t.children| :: CallsNamed(t.children[i])
    else forall i | 0 <= i < |t.children| :: CallsNamed(t.children[i])
  }

  predicate AllCallsNamed(ts: seq<Term>) { forall i | 0 <= i < |ts| :: CallsNamed(ts[i]) }

  /** Calls that are not expanded keep their definition and are named after
      it. */
  lemma {:induction false} KeptCallsNamed(t: Term, args: map<string, Term>, sorts: map<string, Sort>)
    requires Fits(t, sorts) && forall x | x in args :: CallsNamed(args[x])
    ensures CallsNamed(Inline(t, args, false))
    decreases t, 2
  {
    hide CallsNamed, DefOk;
    ErrorNamed();
    if IsReplacedLeaf(t) {
      LeafNamed(t, sorts);
    } else if t.kind.FuncApply? {
      AllKeptCallsNamed(t.children[1..], args, sorts);
      CallNamed(t.children[0], InlineAll(t.children[1..], args, false));
    } else {
      AllKeptCallsNamed(t.children, args, sorts);
      RebuiltNamed(t, InlineAll(t.children, args, false));
    }
  }

  lemma ErrorNamed()
    ensures CallsNamed(ErrorTerm)
  {
  }

  lemma LeafNamed(t: Term, sorts: map<string, Sort>)
    requires Fits(t, sorts) && IsReplacedLeaf(t)
    ensures CallsNamed(t)
  {
  }

  /** A kept call holds the definition and the arguments. */
  lemma CallNamed(fun: Term, args: seq<Term>)
    requires AllCallsNamed(args)
    ensures var r := ApplyFun(fun, args, false);
            r == ErrorTerm || (r == Node(fun.sort, FuncApply, fun.name, [fun] + args) && CallsNamed(r))
  {
    ErrorNamed();
    if ApplyFun(fun, args, false) != ErrorTerm {
      var r := Node(fun.sort, FuncApply, fun.name, [fun] + args);
      forall i | 1 <= i < |r.children|
        ensures CallsNamed(r.children[i])
      {
        assert r.children[i] == args[i - 1];
      }
    }
  }

  lemma RebuiltNamed(t: Term, cs: seq<Term>)
    requires !t.kind.FuncApply? && AllCallsNamed(cs)
    ensures CallsNamed(RebuildCalled(t, cs))
  {
  }

  lemma {:induction false} AllKeptCallsNamed(ts: seq<Term>, args: map<string, Term>, sorts: map<string, Sort>)
    requires AllFits(ts, sorts) && forall x | x in args :: CallsNamed(args[x])
    ensures AllCallsNamed(InlineAll(ts, args, false))
    decreases ts, 0
  {
    hide CallsNamed, Fits, Inline;
    forall i | 0 <= i < |ts|
      ensures CallsNamed(InlineAll(ts, args, false)[i])
    {
      KeptCallsNamed(ts[i], args, sorts);
    }
  }

  // ------------------------------------------------------------------
  // The worklist
  // ------------------------------------------------------------------

  ghost predicate ResultsOk(results: map<Term, Term>, args: map<string, Term>, expand: bool) {
    forall t | t in results :: results[t] == Inline(t, args, expand)
  }

  /** The children that are processed before a node: not the definition of a
      call. */
  function Operands(t: Term): seq<Term> {
    if IsReplacedLeaf(t) then []
    else if t.kind.FuncApply? && t.children != [] then t.children[1..]
    else t.children
  }

  ghost function OperandsOf(): Term -> seq<Term> { (t: Term) => Operands(t) }

  method Collect(cs: seq<Term>, results: map<Term, Term>, ghost args: map<string, Term>, ghost expand: bool) returns (rs: seq<Term>)
    requires ResultsOk(results, args, expand) && AllDone(cs, results.Keys)
    ensures rs == InlineAll(cs, args, expand)
  {
    hide Inline;
    rs := [];
    for i := 0 to |cs|
      invariant |rs| == i && forall j | 0 <= j < i :: rs[j] == Inline(cs[j], args, expand)
    {
      assert cs[i] in results.Keys;
      rs := rs + [results[cs[i]]];
    }
  }

  /** A node whose operands are processed. */
  method Revisit(t: Term, results: map<Term, Term>, args: map<string, Term>, expand: bool) returns (r: Term)
    requires ResultsOk(results, args, expand) && AllDone(Operands(t), results.Keys)
    requires !IsReplacedLeaf(t)
    ensures r == Inline(t, args, expand)
    decreases Size(t), 0
  {
    hide ApplyFun, ResultsOk, AllDone;
    var cs := Collect(Operands(t), results, args, expand);
    if t.kind.FuncApply? {
      if t.children == [] {
        r := ErrorTerm;
      } else {
        SizeOfChild(t.children, 0);
        r := ApplyFunction(t.children[0], cs, expand);
      }
    } else {
      r := RebuildCalled(t, cs);
    }
  }

  /** The parameter map, unless an argument is an error. */
  method BindParameters(formals: seq<Term>, args: seq<Term>) returns (bound: map<string, Term>, failed: bool, error: Term)
    requires |formals| == |args|
    ensures failed == AnyError(args)
    ensures if failed then error == FirstError(args) else bound == BindArgs(formals, args)
  {
    bound, failed, error := map[], false, ErrorTerm;
    assert args[0..] == args && formals[0..] == formals;
    for i := 0 to |args|
      invariant forall j | 0 <= j < i :: !args[j].kind.Error?
      invariant BindArgs(formals, args) == BindArgs(formals[i..], args[i..]) + bound
      invariant FirstError(args) == FirstError(args[i..])
    {
      if args[i].kind.Error? {
        return bound, true, args[i];
      }
      if formals[i].name !in bound {
        bound := bound[formals[i].name := args[i]];
      }
      assert formals[i..][1..] == formals[i + 1..] && args[i..][1..] == args[i + 1..];
    }
    assert BindArgs(formals, args) == bound;
  }

  /** applyFun. */
  method ApplyFunction(fun: Term, args: seq<Term>, expand: bool) returns (r: Term)
    ensures r == ApplyFun(fun, args, expand)
    decreases Size(fun), 0
  {
    hide Inline, BindArgs, FirstError;
    if !fun.kind.FuncDef? || |fun.children| != |args| + 1 {
      return ErrorTerm;
    }
    var body, formals := fun.children[0], fun.children[1..];
    for i := 0 to |args|
      invariant forall j | 0 <= j < i :: args[j].kind.Error? || args[j].sort == formals[j].sort
    {
      if !args[i].kind.Error? && args[i].sort != formals[i].sort {
        return ErrorTerm;
      }
    }
    assert !SortMismatch(formals, args);
    if !expand {
      return Node(fun.sort, FuncApply, fun.name, [fun] + args);
    }
    if body.kind.Error? {
      return body;
    }
    var bound, failed, error := BindParameters(formals, args);
    if failed {
      return error;
    }
    SizeOfChild(fun.children, 0);
    r := ApplyFunPostOrder(body, bound, expand);
  }

  /** applyFunPostOrder: the stack machine computes the recursive inlining. It
      ends because an expanded call works on a smaller term, the definition
      inside the call. */
  method ApplyFunPostOrder(node: Term, args: map<string, Term>, expand: bool) returns (r: Term)
    ensures r == Inline(node, args, expand)
    decreases Size(node), 1
  {
    hide Inline, Waiting, Covered, Size, AllCovered;
    var results: map<Term, Term> := map[];
    var todo := [Visit(node, false)];
    StartState(node, results.Keys, OperandsOf());
    while todo != []
      invariant ResultsOk(results, args, expand) && SizesBelow(todo, Size(node))
      invariant Waiting(todo, results.Keys, OperandsOf()) && Covered(node, results.Keys, todo, 0)
      decreases Weight(todo)
    {
      var current := todo[|todo| - 1];
      ghost var done := results.Keys;
      if current.ready || IsReplacedLeaf(current.node) {
        var result;
        if IsReplacedLeaf(current.node) {
          result := LeafResult(current.node, args, expand);
        } else {
          TopIsReady(todo, done, OperandsOf());
          result := Revisit(current.node, results, args, expand);
        }
        results := results[current.node := result];
        Pop(todo, done, results.Keys, OperandsOf(), node);
        todo := todo[..|todo| - 1];
      } else {
        var pushed := PushOperands(Operands(current.node), {});
        ScheduledOperands(current.node, done, pushed);
        Schedule(todo, done, OperandsOf(), pushed, node);
        todo := todo[..|todo| - 1] + [Visit(current.node, true)] + pushed;
      }
    }
    NothingLeft(node, results.Keys);
    r := results[node];
  }

  method LeafResult(t: Term, args: map<string, Term>, expand: bool) returns (r: Term)
    requires IsReplacedLeaf(t)
    ensures r == Inline(t, args, expand)
  {
    if t.kind.FuncParam? {
      r := if t.name in args then args[t.name] else ErrorTerm;
    } else {
      r := t;
    }
  }

  ghost predicate SizesBelow(todo: seq<Visit>, size: nat) {
    forall j | 0 <= j < |todo| :: Size(todo[j].node) <= size
  }

  lemma {:induction false} TailSize(ts: seq<Term>)
    requires ts != []
    ensures SizeAll(ts[1..]) < SizeAll(ts)
  {
  }

  lemma ScheduledOperands(t: Term, done: set<Term>, pushed: seq<Visit>)
    requires !IsReplacedLeaf(t) && AllCovered(Operands(t), {}, pushed, 0) && Weight(pushed) <= 2 * SizeAll(Operands(t))
    requires forall j | 0 <= j < |pushed| :: pushed[j].node in Operands(t)
    ensures AllCovered(OperandsOf()(t), done, pushed, 0) && 1 + Weight(pushed) < 2 * Size(t)
    ensures forall j | 0 <= j < |pushed| :: Size(pushed[j].node) < Size(t)
  {
    hide Covered;
    var cs := Operands(t);
    assert SizeAll(cs) < Size(t) by {
      if t.children != [] { TailSize(t.children); }
    }
    forall i | 0 <= i < |cs|
      ensures Covered(cs[i], done, pushed, 0)
    {
      MoreDone(cs[i], done, pushed);
    }
    forall j | 0 <= j < |pushed|
      ensures Size(pushed[j].node) < Size(t)
    {
      var i :| 0 <= i < |cs| && cs[i] == pushed[j].node;
      SizeOfChild(cs, i);
    }
  }

  lemma MoreDone(c: Term, done: set<Term>, pushed: seq<Visit>)
    requires Covered(c, {}, pushed, 0)
    ensures Covered(c, done, pushed, 0)
  {
  }
}
