// The formulas the conversions are promised to take, written out: operand
// numbers and classes of atoms, with no reference to how they are converted.
module Grammar {
  import opened Terms
  import opened LetExpansion

  /** Terms whose equality compares numbers. */
  predicate IsNumber(t: Term) {
    match t.kind
    case Var => t.sort == Int
    case TempVar(_) => t.sort == Int
    case LetBindVar => t.sort == Int
    case IntConst(_) => t.sort == Int
    case Ite => t.sort == Int
    case Max => t.sort == Int
    case Min => t.sort == Int
    case UfApply => t.sort == Int
    case Neg => true
    case Add => true
    case Sub => true
    case Mul => true
    case TheoryOp(theory, _) => theory == Arithmetic
    case _ => false
  }

  /** Terms whose equality compares strings. */
  predicate IsText(t: Term) {
    match t.kind
    case Var => t.sort == Str
    case TempVar(_) => t.sort == Str
    case LetBindVar => t.sort == Str
    case ConstTrue => t.sort == Str
    case ConstFalse => t.sort == Str
    case IntConst(_) => t.sort == Str
    case StrConst(_) => t.sort == Str
    case UfApply => t.sort == Str
    case StrConcat => true
    case TheoryOp(theory, _) => theory == Strings
    case _ => false
  }

  /** Comparisons of numbers, by =, distinct or order, and of strings, by = or
      order. */
  predicate IsComparison(t: Term) {
    match t.kind
    case Le => true
    case Lt => true
    case Ge => true
    case Gt => true
    case StrLe => true
    case StrLt => true
    case StrGe => true
    case StrGt => true
    case Eq => t.children != [] && (IsNumber(t.children[0]) || (IsText(t.children[0]) && |t.children| >= 2))
    case Distinct => t.children != [] && IsNumber(t.children[0])
    case _ => false
  }

  predicate IsAtomic(t: Term) {
    match t.kind
    case TheoryPred(_) => true
    case UfApply => t.sort == Bool
    case _ => IsComparison(t)
  }

  predicate IsBoolVariable(t: Term) { t.sort == Bool && (t.kind.Var? || t.kind.TempVar? || t.kind.LetBindVar?) }

  predicate IsBoolValue(t: Term) { t.sort == Bool && (t.kind.ConstTrue? || t.kind.ConstFalse?) }

  /** Atoms, Boolean variables and constants, and connectives with the numbers
      of operands the language gives them; a let stands for its expansion. */
  predicate Formula(t: Term)
    decreases Rank(t), t, 1
  {
    && t.sort == Bool
    && (IsAtomic(t) || IsBoolVariable(t) || IsBoolValue(t) ||
        match t.kind
        case Not => |t.children| == 1 && AllFormulas(t.children)
        case And => |t.children| >= 1 && AllFormulas(t.children)
        case Or => |t.children| >= 1 && AllFormulas(t.children)
        case Xor => |t.children| >= 1 && AllFormulas(t.children)
        case Implies => |t.children| >= 1 && AllFormulas(t.children)
        case Eq => |t.children| >= 2 && AllFormulas(t.children)
        case Distinct => |t.children| >= 2 && AllFormulas(t.children)
        case Ite => |t.children| == 3 && AllFormulas(t.children)
        case Let => WellFormed(t) && Formula(ExpandLet(t))
        case _ => false)
  }

  predicate AllFormulas(ts: seq<Term>)
    decreases RankAll(ts), ts, 0
  {
    forall i | 0 <= i < |ts| :: Formula(ts[i])
  }

  /** Comparisons and implications have two operands, an xor at least two. */
  predicate Binary(t: Term)
    decreases Rank(t), t, 1
  {
    if IsAtomic(t) then IsComparison(t) ==> |t.children| == 2
    else if IsBoolVariable(t) || IsBoolValue(t) then true
    else if t.kind.Let? then Binary(ExpandLet(t))
    else
      && (t.kind.Implies? ==> |t.children| == 2)
      && (t.kind.Xor? ==> |t.children| >= 2)
      && AllBinary(t.children)
  }

  predicate AllBinary(ts: seq<Term>)
    decreases RankAll(ts), ts, 0
  {
    forall i | 0 <= i < |ts| :: Binary(ts[i])
  }

  /** No implication. */
  predicate Unconditional(t: Term)
    decreases Rank(t), t, 1
  {
    if IsAtomic(t) || IsBoolVariable(t) || IsBoolValue(t) then true
    else if t.kind.Let? then Unconditional(ExpandLet(t))
    else !t.kind.Implies? && AllUnconditional(t.children)
  }

  predicate AllUnconditional(ts: seq<Term>)
    decreases RankAll(ts), ts, 0
  {
    forall i | 0 <= i < |ts| :: Unconditional(ts[i])
  }

  /** No equality of strings. */
  predicate Textless(t: Term)
    decreases Rank(t), t, 1
  {
    if IsAtomic(t) then t.kind.Eq? ==> !IsText(t.children[0])
    else if IsBoolVariable(t) || IsBoolValue(t) then true
    else if t.kind.Let? then Textless(ExpandLet(t))
    else AllTextless(t.children)
  }

  predicate AllTextless(ts: seq<Term>)
    decreases RankAll(ts), ts, 0
  {
    forall i | 0 <= i < |ts| :: Textless(ts[i])
  }
}
