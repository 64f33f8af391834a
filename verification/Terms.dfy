// The shared term language of the front end and its meaning.
//
// A DAG node of the parser is (sort, kind, name, children). Nodes are
// hash-consed, so structural equality of this datatype is the parser's
// pointer equality, and every `unordered_map` keyed by nodes becomes a `map`
// keyed by terms.
module Terms {

  datatype Sort = Bool | Int | Str | Named(name: string) | Array(index: Sort, element: Sort)

  /** Whose operator it is: arithmetic and string operators make comparisons
      out of the equalities over them. */
  datatype Theory = Arithmetic | Strings | OtherTheory

  datatype Kind =
    | ConstTrue | ConstFalse | IntConst(n: int) | StrConst(s: string)
    | Var | TempVar(id: nat) | FuncParam | LetBindVar
    | Not | And | Or | Implies | Xor | Eq | Distinct | Ite
    | Neg | Add | Sub | Mul | Max | Min
    | Le | Lt | Ge | Gt
    | StrLe | StrLt | StrGe | StrGt
    | StrConcat
    | TheoryPred(tag: string)                     // the other atomic predicates of the theories
    | TheoryOp(theory: Theory, tag: string)       // every other operator of a fixed meaning
    | UfApply | DtConstructor | DtSelector | DtTester
    | FuncDef | FuncApply
    | Let | LetChain | LetBindVarList
    | Error

  datatype Term = Node(sort: Sort, kind: Kind, name: string, children: seq<Term>)

  const TrueTerm := Node(Bool, ConstTrue, "true", [])
  const FalseTerm := Node(Bool, ConstFalse, "false", [])
  const ErrorTerm := Node(Bool, Error, "error", [])

  function IntTerm(n: int): Term { Node(Int, IntConst(n), "", []) }

  function StrTerm(s: string): Term { Node(Str, StrConst(s), "", []) }

  function TempTerm(k: nat): Term { Node(Bool, TempVar(k), "", []) }

  /** The printed name `kindToString` gives a node that `mkOper` builds. */
  function KindName(k: Kind): string {
    match k
    case ConstTrue => "true"
    case ConstFalse => "false"
    case IntConst(_) => "CONST"
    case StrConst(_) => "CONST"
    case Var => "VAR"
    case TempVar(_) => "TEMP_VAR"
    case FuncParam => "func_param"
    case LetBindVar => "let_bind_var"
    case Not => "not"
    case And => "and"
    case Or => "or"
    case Implies => "=>"
    case Xor => "xor"
    case Eq => "="
    case Distinct => "distinct"
    case Ite => "ite"
    case Neg => "-"
    case Add => "+"
    case Sub => "-"
    case Mul => "*"
    case Max => "max"
    case Min => "min"
    case Le => "<="
    case Lt => "<"
    case Ge => ">="
    case Gt => ">"
    case StrLe => "str.<="
    case StrLt => "str.<"
    case StrGe => "str.>="
    case StrGt => "str.>"
    case StrConcat => "str.++"
    case TheoryPred(tag) => tag
    case TheoryOp(_, tag) => tag
    case UfApply => "UF_APPLY"
    case DtConstructor => "UNKNOWN_KIND"
    case DtSelector => "UNKNOWN_KIND"
    case DtTester => "is"
    case FuncDef => "func_def"
    case FuncApply => "func_apply"
    case Let => "let"
    case LetChain => "let_chain"
    case LetBindVarList => "let_bind_var_list"
    case Error => "ERROR"
  }

  predicate IsVarKind(k: Kind) {
    k.Var? || k.TempVar? || k.LetBindVar?
  }

  predicate IsConstKind(k: Kind) {
    k.ConstTrue? || k.ConstFalse? || k.IntConst? || k.StrConst?
  }

  predicate IsConst(t: Term) { IsConstKind(t.kind) }

  predicate IsTrue(t: Term) { t.kind.ConstTrue? && t.sort == Bool }

  predicate IsFalse(t: Term) { t.kind.ConstFalse? && t.sort == Bool }

  predicate IsVBool(t: Term) { IsVarKind(t.kind) && t.sort == Bool }

  predicate IsCBool(t: Term) { (t.kind.ConstTrue? || t.kind.ConstFalse?) && t.sort == Bool }

  predicate IsLiteral(t: Term) {
    IsVBool(t) || IsCBool(t) || (t.kind.Not? && |t.children| == 1 && IsVBool(t.children[0]))
  }

  predicate IsArithTerm(t: Term) {
    || t.kind.Neg? || t.kind.Add? || t.kind.Sub? || t.kind.Mul?
    || (t.kind.TheoryOp? && t.kind.theory.Arithmetic?)
    || (IsVarKind(t.kind) && t.sort == Int)
    || (t.kind.IntConst? && t.sort == Int)
    || ((t.kind.Ite? || t.kind.Max? || t.kind.Min? || t.kind.UfApply?) && t.sort == Int)
  }

  predicate IsArithComp(t: Term) {
    || ((t.kind.Eq? || t.kind.Distinct?) && |t.children| > 0 && IsArithTerm(t.children[0]))
    || t.kind.Le? || t.kind.Lt? || t.kind.Ge? || t.kind.Gt?
  }

  predicate IsStrTerm(t: Term) {
    || ((IsVarKind(t.kind) || IsConst(t)) && t.sort == Str)
    || t.kind.StrConcat? || (t.kind.TheoryOp? && t.kind.theory.Strings?)
    || (t.kind.UfApply? && t.sort == Str)
  }

  predicate IsStrEq(t: Term) {
    t.kind.Eq? && |t.children| >= 2 && IsStrTerm(t.children[0])
  }

  /** Comparisons of strings; `distinct` is not one of them. */
  predicate IsStrComp(t: Term) {
    IsStrEq(t) || t.kind.StrLe? || t.kind.StrLt? || t.kind.StrGe? || t.kind.StrGt?
  }

  /** The comparisons that mkNot negates by swapping the operator. */
  predicate IsComp(t: Term) { IsArithComp(t) || IsStrComp(t) }

  /** The nodes the conversions treat as opaque: comparisons, theory
      predicates and Boolean applications. */
  predicate IsAtom(t: Term) {
    IsComp(t) || t.kind.TheoryPred? || (t.kind.UfApply? && t.sort == Bool)
  }

  // ------------------------------------------------------------------
  // Meaning
  // ------------------------------------------------------------------

  datatype Val = B(b: bool) | N(n: int) | S(s: string) | U(id: int)

  /** A model: values for the leaves, an interpretation of the operators whose
      meaning is not fixed here, and the current values of the parameters of
      the defined function being read. */
  datatype Model = Model(
    leaf: Term -> Val,
    uf: (Kind, string, seq<Val>) -> Val,
    params: map<string, Val>)

  function AsBool(v: Val): bool { v == B(true) }

  function AsInt(v: Val): int { if v.N? then v.n else 0 }

  function AsStr(v: Val): string { if v.S? then v.s else "" }

  /** Values of a sort: a Boolean term denotes a Boolean, and so on. */
  function Coerce(s: Sort, v: Val): Val {
    match s
    case Bool => B(AsBool(v))
    case Int => N(AsInt(v))
    case Str => S(AsStr(v))
    case _ => v
  }

  predicate AllTrue(vs: seq<Val>) { forall i | 0 <= i < |vs| :: AsBool(vs[i]) }

  predicate AnyTrue(vs: seq<Val>) { exists i | 0 <= i < |vs| :: AsBool(vs[i]) }

  predicate Odd(vs: seq<Val>) {
    if vs == [] then false else Odd(vs[..|vs| - 1]) != AsBool(vs[|vs| - 1])
  }

  predicate AllEqual(vs: seq<Val>) {
    forall i | 0 <= i < |vs| :: vs[i] == vs[0]
  }

  predicate PairwiseDistinct(vs: seq<Val>) {
    forall i, j | 0 <= i < j < |vs| :: vs[i] != vs[j]
  }

  function SumOf(vs: seq<Val>): int {
    if vs == [] then 0 else SumOf(vs[..|vs| - 1]) + AsInt(vs[|vs| - 1])
  }

  function ProductOf(vs: seq<Val>): int {
    if vs == [] then 1 else ProductOf(vs[..|vs| - 1]) * AsInt(vs[|vs| - 1])
  }

  function IntMax(a: int, b: int): int { if a < b then b else a }

  function IntMin(a: int, b: int): int { if a < b then a else b }

  function MaxOf(vs: seq<Val>): int
    requires vs != []
  {
    if |vs| == 1 then AsInt(vs[0]) else IntMax(MaxOf(vs[..|vs| - 1]), AsInt(vs[|vs| - 1]))
  }

  function MinOf(vs: seq<Val>): int
    requires vs != []
  {
    if |vs| == 1 then AsInt(vs[0]) else IntMin(MinOf(vs[..|vs| - 1]), AsInt(vs[|vs| - 1]))
  }

  function ConcatOf(vs: seq<Val>): string {
    if vs == [] then "" else ConcatOf(vs[..|vs| - 1]) + AsStr(vs[|vs| - 1])
  }

  /** The lexicographic order on strings. */
  predicate StrLess(a: string, b: string) {
    b != "" && (a == "" || a[0] < b[0] || (a[0] == b[0] && StrLess(a[1..], b[1..])))
  }

  /** It is total: of two strings one is less, or they are the same. */
  lemma {:induction false} StrOrder(a: string, b: string)
    ensures !(StrLess(a, b) && StrLess(b, a)) && !StrLess(a, a)
    ensures StrLess(a, b) || StrLess(b, a) || a == b
    decreases |a|
  {
    if a != "" && b != "" {
      StrOrder(a[1..], b[1..]);
      assert a == [a[0]] + a[1..] && b == [b[0]] + b[1..];
    } else if a != "" {
      StrOrder(a[1..], a[1..]);
    }
  }

  /** The meaning of an operator on the values of its operands. */
  function Apply(k: Kind, name: string, vs: seq<Val>, m: Model): Val {
    match k
    case Not => B(|vs| > 0 && !AsBool(vs[0]))
    case And => B(AllTrue(vs))
    case Or => B(AnyTrue(vs))
    case Implies => B(|vs| > 0 && (AllTrue(vs[..|vs| - 1]) ==> AsBool(vs[|vs| - 1])))
    case Xor => B(Odd(vs))
    case Eq => B(AllEqual(vs))
    case Distinct => B(PairwiseDistinct(vs))
    case Ite => if |vs| == 3 then (if AsBool(vs[0]) then vs[1] else vs[2]) else m.uf(k, "", vs)
    case Neg => N(if |vs| > 0 then -AsInt(vs[0]) else 0)
    case Add => N(SumOf(vs))
    case Sub => N(if |vs| > 0 then AsInt(vs[0]) - SumOf(vs[1..]) else 0)
    case Mul => N(ProductOf(vs))
    case Max => if |vs| > 0 then N(MaxOf(vs)) else m.uf(k, "", vs)
    case Min => if |vs| > 0 then N(MinOf(vs)) else m.uf(k, "", vs)
    case Le => B(|vs| == 2 && AsInt(vs[0]) <= AsInt(vs[1]))
    case Lt => B(|vs| == 2 && AsInt(vs[0]) < AsInt(vs[1]))
    case Ge => B(|vs| == 2 && AsInt(vs[0]) >= AsInt(vs[1]))
    case Gt => B(|vs| == 2 && AsInt(vs[0]) > AsInt(vs[1]))
    case StrLe => B(|vs| == 2 && (AsStr(vs[0]) == AsStr(vs[1]) || StrLess(AsStr(vs[0]), AsStr(vs[1]))))
    case StrLt => B(|vs| == 2 && StrLess(AsStr(vs[0]), AsStr(vs[1])))
    case StrGe => B(|vs| == 2 && (AsStr(vs[0]) == AsStr(vs[1]) || StrLess(AsStr(vs[1]), AsStr(vs[0]))))
    case StrGt => B(|vs| == 2 && StrLess(AsStr(vs[1]), AsStr(vs[0])))
    case StrConcat => S(ConcatOf(vs))
    // the body of a let is its first child, of a let-chain its last, and a
    // bound variable carries the term it is bound to as its first child
    case Let => if |vs| > 0 then vs[0] else m.uf(k, "", vs)
    case LetChain => if |vs| > 0 then vs[|vs| - 1] else m.uf(k, "", vs)
    case LetBindVar => if |vs| > 0 then vs[0] else m.uf(k, "", vs)
    case UfApply => m.uf(k, name, vs)
    case DtConstructor => m.uf(k, name, vs)
    case DtSelector => m.uf(k, name, vs)
    case DtTester => m.uf(k, name, vs)
    case _ => m.uf(k, "", vs)
  }

  /** A call of a defined function: its first child is the definition, whose
      first child is the body and whose other children are the parameters. */
  predicate IsCall(t: Term) {
    && t.kind.FuncApply?
    && |t.children| > 0
    && t.children[0].kind.FuncDef?
    && |t.children[0].children| == |t.children|
  }

  /** Parameters and their values; the first of two equal names wins, as
      `unordered_map::insert` keeps the first. */
  function BindParams(formals: seq<Term>, vs: seq<Val>): map<string, Val>
    requires |formals| == |vs|
  {
    if formals == [] then map[]
    else BindParams(formals[1..], vs[1..])[formals[0].name := vs[0]]
  }

  /** The meaning of a node that is not a call, from those of its children. */
  function Interpret(t: Term, vs: seq<Val>, m: Model): Val {
    match t.kind
    case ConstTrue => B(true)
    case ConstFalse => B(false)
    case IntConst(n) => N(n)
    case StrConst(s) => S(s)
    case Var => m.leaf(t)
    case TempVar(_) => m.leaf(t)
    case FuncParam => if t.name in m.params then m.params[t.name] else m.leaf(t)
    case _ => Apply(t.kind, t.name, vs, m)
  }

  ghost function Value(t: Term, m: Model): Val
    decreases t, 1
  {
    Coerce(t.sort,
           if t.kind.FuncApply? then
             var vs := Values(t.children, m);
             if IsCall(t) then
               var fun := t.children[0];
               Value(fun.children[0], m.(params := BindParams(fun.children[1..], vs[1..])))
             else m.uf(t.kind, "", vs)
           else Interpret(t, Values(t.children, m), m))
  }

  ghost function Values(ts: seq<Term>, m: Model): (vs: seq<Val>)
    ensures |vs| == |ts|
    ensures forall i | 0 <= i < |ts| :: vs[i] == Value(ts[i], m)
    decreases ts, 0
  {
    seq(|ts|, i requires 0 <= i < |ts| => Value(ts[i], m))
  }

  lemma Unfold(t: Term, m: Model)
    requires !t.kind.FuncApply?
    ensures Value(t, m) == Coerce(t.sort, Interpret(t, Values(t.children, m), m))
  {
  }

  /** The model in which the body of a called definition is read. */
  ghost function CalleeModel(t: Term, m: Model): Model
    requires IsCall(t)
  {
    m.(params := BindParams(t.children[0].children[1..], Values(t.children, m)[1..]))
  }

  lemma UnfoldCall(t: Term, m: Model)
    requires t.kind.FuncApply?
    ensures IsCall(t) ==> Value(t, m) == Coerce(t.sort, Value(t.children[0].children[0], CalleeModel(t, m)))
    ensures !IsCall(t) ==> Value(t, m) == Coerce(t.sort, m.uf(t.kind, "", Values(t.children, m)))
  {
  }

  ghost predicate Holds(t: Term, m: Model) { AsBool(Value(t, m)) }

  /** The two terms mean the same in every model. */
  ghost predicate Equivalent(a: Term, b: Term) {
    forall m: Model :: Value(a, m) == Value(b, m)
  }

  ghost predicate AllHold(ts: seq<Term>, m: Model) {
    forall i | 0 <= i < |ts| :: Holds(ts[i], m)
  }

  // ------------------------------------------------------------------
  // Sizes and occurrences
  // ------------------------------------------------------------------

  function Size(t: Term): nat
    decreases t, 1
  {
    1 + SizeAll(t.children)
  }

  function SizeAll(ts: seq<Term>): nat
    decreases ts, 0
  {
    if ts == [] then 0 else Size(ts[0]) + SizeAll(ts[1..])
  }

  lemma {:induction false} SizeOfChild(ts: seq<Term>, i: nat)
    requires i < |ts|
    ensures Size(ts[i]) <= SizeAll(ts)
  {
    if i > 0 {
      SizeOfChild(ts[1..], i - 1);
    }
  }

  predicate IsLeafKind(k: Kind) {
    k.Var? || k.TempVar? || k.FuncParam? || IsConstKind(k)
  }

  predicate IsBinder(k: Kind) {
    k.Let? || k.LetChain? || k.LetBindVar?
  }

  /** The child that stands for a binder: the body of a let or let-chain, the
      term of a bound variable. */
  function BinderChild(t: Term): nat
    requires IsBinder(t.kind) && t.children != []
  {
    if t.kind.LetChain? then |t.children| - 1 else 0
  }

  /** The shape the builders give one node: leaves have no children, a binder
      has the sort of what it stands for, a call names its definition, and the
      formal parameters of a definition are parameters. */
  predicate NodeOk(t: Term) {
    && (IsLeafKind(t.kind) ==> t.children == [])
    && (IsBinder(t.kind) ==> t.children != [] && t.children[BinderChild(t)].sort == t.sort)
    && (t.kind.FuncApply? ==> IsCall(t))
    && (t.kind.FuncDef? ==> forall i | 1 <= i < |t.children| :: t.children[i].kind.FuncParam?)
  }

  predicate WellFormed(t: Term)
    decreases t, 1
  {
    NodeOk(t) && AllWellFormed(t.children)
  }

  predicate AllWellFormed(ts: seq<Term>)
    decreases ts, 0
  {
    forall i | 0 <= i < |ts| :: WellFormed(ts[i])
  }

  /** `t` and everything below it. */
  function Subterms(t: Term): (s: set<Term>)
    ensures t in s
    decreases t, 1
  {
    {t} + SubtermsOfAll(t.children)
  }

  function SubtermsOfAll(ts: seq<Term>): (s: set<Term>)
    ensures forall i | 0 <= i < |ts| :: Subterms(ts[i]) <= s
    decreases ts, 0
  {
    if ts == [] then {}
    else
      assert ts == [ts[0]] + ts[1..];
      Subterms(ts[0]) + SubtermsOfAll(ts[1..])
  }

  lemma {:induction false} SubtermsClosed(t: Term, s: Term, i: nat)
    requires s in Subterms(t) && i < |s.children|
    ensures s.children[i] in Subterms(t)
    decreases t, 1
  {
    if s != t {
      SubtermsClosedAll(t.children, s, i);
    }
  }

  lemma {:induction false} SubtermsClosedAll(ts: seq<Term>, s: Term, i: nat)
    requires s in SubtermsOfAll(ts) && i < |s.children|
    ensures s.children[i] in SubtermsOfAll(ts)
    decreases ts, 0
  {
    if s in Subterms(ts[0]) {
      SubtermsClosed(ts[0], s, i);
    } else {
      SubtermsClosedAll(ts[1..], s, i);
    }
  }

  /** A value of a sort is left alone by the coercion to that sort. */
  lemma ValueHasSort(t: Term, m: Model)
    ensures Coerce(t.sort, Value(t, m)) == Value(t, m)
    ensures t.sort == Bool ==> Value(t, m) == B(Holds(t, m))
    ensures t.sort == Int ==> Value(t, m).N?
    ensures t.sort == Str ==> Value(t, m).S?
  {
  }
}
