// The partial evaluator as it runs: `evaluate` and its cases, each a loop over
// the operands. What is proved of `Evaluation.Eval` holds of it.
module Evaluator {
  import opened Terms
  import opened Builders
  import opened EvalBuilders
  import opened EvalValues
  import opened EvalResults
  import opened Evaluation

  method Evaluate(t: Term, pm: Partial) returns (changed: bool, r: Term)
    requires EvalInput(t) && PartialOk(pm)
    ensures Outcome(changed, r) == Eval(t, pm)
    decreases t, 2
  {
    hide EvalInput, PartialOk, Settle;
    if pm == map[] && !t.kind.Eq? && !t.kind.Distinct? {
      return false, t;
    }
    if IsConst(t) || IsEvalVar(t) {
      if t in pm {
        return true, pm[t];
      }
      return false, t;
    }
    InputIsNode(t);
    if t.kind.And? || t.kind.Or? {
      changed, r := EvaluateAndOr(t, pm);
    } else if t.kind.Xor? {
      changed, r := EvaluateXor(t, pm);
    } else if t.kind.Eq? {
      changed, r := EvaluateEq(t, pm);
    } else if t.kind.Distinct? {
      changed, r := EvaluateDistinct(t, pm);
    } else if t.kind.StrConcat? {
      changed, r := EvaluateConcat(t, pm);
    } else {
      changed, r := EvaluateSimpleOp(t, pm);
    }
  }

  /** One more operand. */
  lemma {:induction false} NextResult(ts: seq<Term>, pm: Partial, i: nat)
    requires AllInputs(ts) && PartialOk(pm) && i < |ts|
    ensures Results(ts[..i + 1], pm) == Results(ts[..i], pm) + [Eval(ts[i], pm).term]
    ensures AnyChanged(ts[..i + 1], pm) == (AnyChanged(ts[..i], pm) || Eval(ts[i], pm).changed)
  {
    hide Eval, EvalInput;
    assert ts[..i + 1][..i] == ts[..i];
  }

  /** One more operand, as the loops that look at each result see it. */
  lemma {:induction false} NextOperand(ts: seq<Term>, pm: Partial, i: nat)
    requires AllInputs(ts) && PartialOk(pm) && i < |ts|
    requires Results(ts[..i], pm) == Results(ts, pm)[..i]
    ensures var all, e := Results(ts, pm), Eval(ts[i], pm).term;
            && Results(ts[..i + 1], pm) == all[..i + 1] == all[..i] + [e] && all[i] == e
            && AnyChanged(ts[..i + 1], pm) == (AnyChanged(ts[..i], pm) || Eval(ts[i], pm).changed)
  {
    hide Eval, EvalInput, Results, AnyChanged;
    NextResult(ts, pm, i);
    ResultAt(ts, pm, i);
    var all := Results(ts, pm);
    assert all[..i + 1] == all[..i] + [all[i]];
  }

  lemma {:induction false} StartOperands(ts: seq<Term>, pm: Partial)
    requires AllInputs(ts) && PartialOk(pm)
    ensures Results(ts[..0], pm) == Results(ts, pm)[..0] && !AnyChanged(ts[..0], pm)
    ensures ts[..|ts|] == ts && Results(ts, pm)[..|ts|] == Results(ts, pm)
  {
    assert ts[..0] == [];
    assert AnyChanged([], pm) == false;
  }

  /** All operands in order. */
  method EvaluateOperands(t: Term, pm: Partial) returns (changed: bool, rs: seq<Term>)
    requires IsNode(t) && PartialOk(pm) && !Skipped(t, pm)
    ensures AllInputs(t.children) && rs == Results(t.children, pm) && changed == AnyChanged(t.children, pm)
    decreases t, 0
  {
    hide EvalInput, PartialOk, Eval;
    NodeHasOperands(t);
    var ts := t.children;
    changed, rs := false, [];
    for i := 0 to |ts|
      invariant rs == Results(ts[..i], pm) && changed == AnyChanged(ts[..i], pm)
    {
      var c, r := Evaluate(ts[i], pm);
      NextResult(ts, pm, i);
      changed, rs := changed || c, rs + [r];
    }
    assert ts[..|ts|] == ts;
  }

  /** One operand, two operands, ite, and the arithmetic that folds its
      constants. */
  method EvaluateSimpleOp(t: Term, pm: Partial) returns (changed: bool, r: Term)
    requires IsNode(t) && PartialOk(pm) && !Skipped(t, pm)
    requires !t.kind.And? && !t.kind.Or? && !t.kind.Xor? && !t.kind.Eq? && !t.kind.Distinct? && !t.kind.StrConcat?
    ensures Outcome(changed, r) == Eval(t, pm)
    decreases t, 1
  {
    hide EvalInput, PartialOk, Eval, Fold1, Fold2, IteOf, Regrouped, Subtracted, Ready;
    NodeEval(t, pm);
    var rs;
    changed, rs := EvaluateOperands(t, pm);
    if !changed {
      return false, t;
    }
    NodeSorts(t);
    ReadyFacts(t, rs);
    ReadyLength(t, rs);
    if t.kind.Not? || t.kind.Neg? {
      r := Fold1(t.sort, t.kind, rs[0]);
    } else if t.kind.Implies? || IsOrder(t.kind) {
      r := Fold2(t.sort, t.kind, rs[0], rs[1]);
    } else if t.kind.Ite? {
      r := IteOf(rs[0], rs[1], rs[2]);
    } else if t.kind.Sub? {
      r := SubtractConstants(rs);
    } else {
      r := FoldConstants(t.kind, rs);
    }
  }

  lemma {:induction false} ReadyLength(t: Term, rs: seq<Term>)
    requires Ready(t, rs)
    ensures |rs| == |t.children|
  {
  }

  /** The two vectors of constants and of other operands. */
  method SplitConstants(rs: seq<Term>) returns (con: seq<Term>, non: seq<Term>)
    ensures con == Consts(rs) && non == NonConsts(rs)
  {
    hide IsConst;
    con, non := [], [];
    for i := 0 to |rs|
      invariant con == Consts(rs[..i]) && non == NonConsts(rs[..i])
    {
      assert rs[..i + 1][..i] == rs[..i];
      if IsConst(rs[i]) {
        con := con + [rs[i]];
      } else {
        non := non + [rs[i]];
      }
    }
    assert rs[..|rs|] == rs;
  }

  /** The running constant, folded pair by pair. */
  method FoldPairs(k: Kind, con: seq<Term>) returns (c: Term)
    requires con != [] && IntConsts(con) && (IsIntFold(k) || k.Sub?)
    ensures c == IntTerm(FoldConsts(k, con))
  {
    c := con[0];
    assert con[..1] == [con[0]];
    for i := 1 to |con|
      invariant c == IntTerm(FoldConsts(k, con[..i]))
    {
      assert con[..i + 1][..i] == con[..i];
      c := Fold2(Int, k, c, con[i]);
    }
    assert con[..|con|] == con;
  }

  method FoldConstants(k: Kind, rs: seq<Term>) returns (r: Term)
    requires IsIntFold(k) && rs != [] && IntConsts(Consts(rs))
    ensures r == Regrouped(k, rs)
  {
    hide Consts, NonConsts, FoldConsts;
    var con, non := SplitConstants(rs);
    if con == [] {
      r := if |non| == 1 then non[0] else MkOper(Int, k, non);
    } else {
      r := FoldPairs(k, con);
      non := non + [r];
      r := if |non| == 1 then non[0] else MkOper(Int, k, non);
    }
  }

  method SubtractConstants(rs: seq<Term>) returns (r: Term)
    requires rs != [] && IntConsts(Consts(rs))
    ensures r == Subtracted(rs)
  {
    hide Consts, NonConsts, FoldConsts;
    var con, non := SplitConstants(rs);
    if con == [] {
      r := if |non| == 1 then non[0] else MkOper(Int, Sub, non);
    } else {
      if IsConst(rs[0]) {
        r := FoldPairs(Sub, con);
        non := [r] + non;
      } else {
        r := FoldPairs(Add, con);
        non := non + [r];
      }
      r := if |non| == 1 then non[0] else MkOper(Int, Sub, non);
    }
  }

  /** Conjunction and disjunction stop at the first constant that decides
      them. */
  method EvaluateAndOr(t: Term, pm: Partial) returns (changed: bool, r: Term)
    requires IsNode(t) && (t.kind.And? || t.kind.Or?) && PartialOk(pm) && !Skipped(t, pm)
    ensures Outcome(changed, r) == Eval(t, pm)
    decreases t, 1
  {
    hide EvalInput, PartialOk, Eval, Consts, NonConsts, IsConst, Ready, HasTrue, HasFalse, Results, AnyChanged, TrueCount;
    hide Settle, MkAnd, MkOr;
    NodeEval(t, pm);
    NodeSorts(t);
    var ts := t.children;
    ghost var all := Results(ts, pm);
    StartOperands(ts, pm);
    var children: seq<Term> := [];
    changed := false;
    NothingSplit();
    NothingDecided(all[..0]);
    for i := 0 to |ts|
      invariant Results(ts[..i], pm) == all[..i] && changed == AnyChanged(ts[..i], pm)
      invariant children == NonConsts(all[..i])
      invariant if t.kind.And? then !HasFalse(all[..i]) else !HasTrue(all[..i])
    {
      var c, e := Evaluate(ts[i], pm);
      NextOperand(ts, pm, i);
      PrefixSplit(all, i);
      TruthConstant(ts, pm, i);
      DecidedAt(all, i);
      changed := changed || c;
      if IsConst(e) {
        if (t.kind.And? && IsFalse(e)) || (t.kind.Or? && IsTrue(e)) {
          JunctionDecided(t, all);
          return true, e;
        }
      } else {
        children := children + [e];
      }
    }
    JunctionSettled(t, all, changed);
    if !changed {
      return false, t;
    }
    if t.kind.And? {
      r := if children == [] then TrueTerm else if |children| == 1 then children[0] else MkAnd(children);
    } else {
      r := if children == [] then FalseTerm else if |children| == 1 then children[0] else MkOr(children);
    }
    changed := true;
  }

  lemma {:induction false} JunctionDecided(t: Term, rs: seq<Term>)
    requires Ready(t, rs) && Decided(t, rs)
    ensures forall any :: Settle(t, rs, any) == Outcome(true, if t.kind.And? then FalseTerm else TrueTerm)
  {
    hide Ready, EvalInput;
  }

  lemma {:induction false} JunctionSettled(t: Term, rs: seq<Term>, any: bool)
    requires Ready(t, rs) && (t.kind.And? || t.kind.Or?) && !Decided(t, rs)
    ensures !any ==> Settle(t, rs, any) == Outcome(false, t)
    ensures any && t.kind.And? ==> Settle(t, rs, any) == Outcome(true, Conjoin(NonConsts(rs)))
    ensures any && t.kind.Or? ==> Settle(t, rs, any) == Outcome(true, Disjoin(NonConsts(rs)))
  {
    hide Ready, EvalInput, Conjoin, Disjoin, NonConsts;
  }

  lemma {:induction false} NothingDecided(rs: seq<Term>)
    requires rs == []
    ensures !HasFalse(rs) && !HasTrue(rs)
  {
  }

  lemma {:induction false} DecidedAt(rs: seq<Term>, i: nat)
    requires i < |rs|
    ensures HasFalse(rs[..i + 1]) <==> HasFalse(rs[..i]) || IsFalse(rs[i])
    ensures HasTrue(rs[..i + 1]) <==> HasTrue(rs[..i]) || IsTrue(rs[i])
    ensures (IsFalse(rs[i]) ==> HasFalse(rs)) && (IsTrue(rs[i]) ==> HasTrue(rs))
  {
    hide IsTrue, IsFalse;
    assert rs[..i + 1] == rs[..i] + [rs[i]];
    if HasFalse(rs[..i]) {
      var k :| 0 <= k < i && IsFalse(rs[..i][k]);
      assert IsFalse(rs[..i + 1][k]);
    }
    if HasTrue(rs[..i]) {
      var k :| 0 <= k < i && IsTrue(rs[..i][k]);
      assert IsTrue(rs[..i + 1][k]);
    }
    if IsFalse(rs[i]) {
      assert IsFalse(rs[..i + 1][i]);
    }
    if IsTrue(rs[i]) {
      assert IsTrue(rs[..i + 1][i]);
    }
  }

  /** A constant of sort Bool is one of the two. */
  lemma {:induction false} TruthConstant(ts: seq<Term>, pm: Partial, i: nat)
    requires AllInputs(ts) && PartialOk(pm) && i < |ts| && ts[i].sort == Bool
    ensures var e := Eval(ts[i], pm).term;
            && (IsTrue(e) ==> e == TrueTerm) && (IsFalse(e) ==> e == FalseTerm)
            && (IsTrue(e) || IsFalse(e) ==> IsConst(e))
  {
    hide Eval, EvalInput;
    var e := Eval(ts[i], pm).term;
    assert Plain(e);
  }

  method EvaluateXor(t: Term, pm: Partial) returns (changed: bool, r: Term)
    requires IsNode(t) && t.kind.Xor? && PartialOk(pm) && !Skipped(t, pm)
    ensures Outcome(changed, r) == Eval(t, pm)
    decreases t, 1
  {
    hide EvalInput, PartialOk, Eval, Consts, NonConsts, IsConst, TrueCount, Ready, MkXor, MkNot, Results, AnyChanged, Settle;
    NodeEval(t, pm);
    NodeSorts(t);
    var ts := t.children;
    ghost var all := Results(ts, pm);
    StartOperands(ts, pm);
    var remaining: seq<Term>, trueCount: nat := [], 0;
    changed := false;
    NothingSplit();
    NothingCounted();
    for i := 0 to |ts|
      invariant Results(ts[..i], pm) == all[..i] && changed == AnyChanged(ts[..i], pm)
      invariant remaining == NonConsts(all[..i]) && trueCount == TrueCount(all[..i])
    {
      var c, e := Evaluate(ts[i], pm);
      NextOperand(ts, pm, i);
      PrefixSplit(all, i);
      TruthConstant(ts, pm, i);
      changed := changed || c;
      if IsConst(e) {
        if IsTrue(e) {
          trueCount := trueCount + 1;
        }
      } else {
        remaining := remaining + [e];
      }
    }
    XorSettled(t, all, changed);
    if !changed {
      return false, t;
    }
    var odd := trueCount % 2 == 1;
    if remaining == [] {
      r := if odd then TrueTerm else FalseTerm;
    } else if |remaining| == 1 {
      r := if odd then MkNot(remaining[0]) else remaining[0];
    } else {
      r := if odd then MkNot(MkXor(remaining)) else MkXor(remaining);
    }
    changed := true;
  }

  lemma {:induction false} NothingCounted()
    ensures TrueCount([]) == 0
  {
  }

  method EvaluateEq(t: Term, pm: Partial) returns (changed: bool, r: Term)
    requires IsNode(t) && t.kind.Eq? && PartialOk(pm)
    ensures Outcome(changed, r) == Eval(t, pm)
    decreases t, 1
  {
    hide EvalInput, PartialOk, Eval, Consts, NonConsts, IsConst, MkEqual, ConstValue, Ready, Settle, IsCanonical;
    NodeEval(t, pm);
    var rs;
    changed, rs := EvaluateOperands(t, pm);
    ComparisonSettled(t, rs, changed);
    var con, non := SplitConstants(rs);
    if !changed && con == [] {
      return false, t;
    }
    if con == [] {
      return true, MkEqual(non);
    }
    assert forall i | 0 <= i < |con| :: con[i] in con;
    for i := 1 to |con|
      invariant forall j | 0 <= j < i :: ConstValue(con[j]) == ConstValue(con[0])
    {
      if ConstValue(con[i]) != ConstValue(con[0]) {
        return true, FalseTerm;
      }
    }
    assert !(exists c :: c in con && ConstValue(c) != ConstValue(con[0]));
    if non == [] {
      r := TrueTerm;
    } else {
      r := MkEqual(non + [con[0]]);
    }
    changed := true;
  }

  /** Distinctness stops at a repeated constant. */
  method EvaluateDistinct(t: Term, pm: Partial) returns (changed: bool, r: Term)
    requires IsNode(t) && t.kind.Distinct? && PartialOk(pm)
    ensures Outcome(changed, r) == Eval(t, pm)
    decreases t, 1
  {
    hide EvalInput, PartialOk, Eval, Consts, NonConsts, IsConst, MkDistinct, Ready, Results, AnyChanged, TrueCount, Settle;
    NodeEval(t, pm);
    var ts := t.children;
    ghost var all := Results(ts, pm);
    StartOperands(ts, pm);
    var con: seq<Term>, non: seq<Term> := [], [];
    changed := false;
    NothingSplit();
    for i := 0 to |ts|
      invariant Results(ts[..i], pm) == all[..i] && changed == AnyChanged(ts[..i], pm)
      invariant con == Consts(all[..i]) && non == NonConsts(all[..i])
      invariant forall j, k | 0 <= j < k < |con| :: con[j] != con[k]
    {
      var c, e := Evaluate(ts[i], pm);
      NextOperand(ts, pm, i);
      PrefixSplit(all, i);
      if IsConst(e) && e in con {
        RepeatedConstant(t, all, i);
        return true, FalseTerm;
      }
      changed := changed || c;
      if IsConst(e) {
        con := con + [e];
      } else {
        non := non + [e];
      }
    }
    ComparisonSettled(t, all, changed);
    if !changed && con == [] {
      return false, t;
    }
    if con == [] {
      r := MkDistinct(non);
    } else if non == [] {
      r := TrueTerm;
    } else {
      r := MkDistinct(non + con);
    }
    changed := true;
  }

  lemma {:induction false} ConstsPrefix(rs: seq<Term>, i: nat)
    requires i <= |rs|
    ensures Consts(rs[..i]) <= Consts(rs)
    decreases |rs| - i
  {
    hide IsConst, Consts;
    if i == |rs| {
      assert rs[..i] == rs;
    } else {
      PrefixSplit(rs, i);
      ConstsPrefix(rs, i + 1);
    }
  }

  /** A constant that was seen before settles the whole node. */
  lemma {:induction false} RepeatedConstant(t: Term, rs: seq<Term>, i: nat)
    requires Ready(t, rs) && t.kind.Distinct? && i < |rs| && IsConst(rs[i]) && rs[i] in Consts(rs[..i])
    ensures forall any :: Settle(t, rs, any) == Outcome(true, FalseTerm)
  {
    hide EvalInput, Ready, Consts, NonConsts, IsConst, MkDistinct;
    PrefixSplit(rs, i);
    ConstsPrefix(rs, i + 1);
    var con := Consts(rs);
    var j :| 0 <= j < |Consts(rs[..i])| && Consts(rs[..i])[j] == rs[i];
    var k := |Consts(rs[..i])|;
    assert con[j] == rs[i] && con[k] == rs[i];
  }

  /** Inside a run: its constant so far and, once it is over, the operand that
      ended it. */
  ghost predicate InRun(done: seq<Term>, children: seq<Term>, child: Term, open: bool, next: Term) {
    if open then Runs(done) == children + [child] + [next] && !IsConst(next)
    else Runs(done) == children + [child] && IsConst(child) && Plain(child) && child.sort == Str
  }

  lemma {:induction false} RunStep(rs: seq<Term>, i: nat, children: seq<Term>, child: Term, next: Term)
    requires i < |rs| && InRun(rs[..i], children, child, false, next)
    requires IsConst(rs[i]) ==>
               var c := Fold2(Str, StrConcat, child, rs[i]);
               IsConst(c) && Plain(c) && c.sort == Str
    ensures if IsConst(rs[i]) then InRun(rs[..i + 1], children, Fold2(Str, StrConcat, child, rs[i]), false, next)
            else InRun(rs[..i + 1], children, child, true, rs[i])
  {
    hide IsConst, Fold2, Plain, Runs;
    NextRun(rs, i);
    var p := children + [child];
    assert p[..|p| - 1] == children;
  }

  /** Between runs. */
  lemma {:induction false} RunStart(rs: seq<Term>, i: nat, children: seq<Term>, next: Term)
    requires i < |rs| && Runs(rs[..i]) == children && (children == [] || !IsConst(children[|children| - 1]))
    requires Plain(rs[i]) && rs[i].sort == Str
    ensures if IsConst(rs[i]) then InRun(rs[..i + 1], children, rs[i], false, next)
            else Runs(rs[..i + 1]) == children + [rs[i]]
  {
    hide IsConst, Fold2, Plain, Runs;
    NextRun(rs, i);
  }

  lemma {:induction false} RunEnd(done: seq<Term>, children: seq<Term>, child: Term, open: bool, next: Term)
    requires InRun(done, children, child, open, next)
    ensures Runs(done) == children + (if open then [child] + [next] else [child])
    ensures open ==> !IsConst(next)
  {
    hide IsConst, Runs;
  }

  /** Concatenation folds each run of constants into one. */
  method EvaluateConcat(t: Term, pm: Partial) returns (changed: bool, r: Term)
    requires IsNode(t) && t.kind.StrConcat? && PartialOk(pm) && !Skipped(t, pm)
    ensures Outcome(changed, r) == Eval(t, pm)
    decreases t, 1
  {
    hide EvalInput, PartialOk, Eval, IsConst, Ready, Fold2, Plain, Results, AnyChanged, Runs, Settle, InRun;
    NodeEval(t, pm);
    NodeSorts(t);
    var ts := t.children;
    ghost var all := Results(ts, pm);
    StartOperands(ts, pm);
    var children: seq<Term> := [];
    changed := false;
    var i := 0;
    assert all[..0] == [];
    ConcatSettled(t, all, changed);
    while i < |ts|
      invariant i <= |ts| && Results(ts[..i], pm) == all[..i] && changed == AnyChanged(ts[..i], pm)
      invariant children == Runs(all[..i])
      invariant i == |ts| || children == [] || !IsConst(children[|children| - 1])
    {
      var c, child := Evaluate(ts[i], pm);
      NextOperand(ts, pm, i);
      StringConstants(ts, pm, i, child);
      RunStart(all, i, children, child);
      changed := changed || c;
      i := i + 1;
      if !IsConst(child) {
        children := children + [child];
      } else {
        // go on while the next operand is a constant too
        var open := false;
        var next := child;
        while i < |ts| && !open
          invariant i <= |ts| && Results(ts[..i], pm) == all[..i] && changed == AnyChanged(ts[..i], pm)
          invariant InRun(all[..i], children, child, open, next)
          decreases |ts| - i
        {
          var d, e := Evaluate(ts[i], pm);
          NextOperand(ts, pm, i);
          StringRun(ts, pm, i, children, child, next);
          if IsConst(e) {
            child := Fold2(Str, StrConcat, child, e);
          } else {
            open, next := true, e;
          }
          changed := changed || d;
          i := i + 1;
        }
        RunEnd(all[..i], children, child, open, next);
        children := children + (if open then [child] + [next] else [child]);
      }
    }
    ConcatSettled(t, all, changed);
    if !changed {
      return false, t;
    }
    r := if |children| == 1 then children[0] else MkOper(Str, StrConcat, children);
    changed := true;
  }

  lemma {:induction false} StringRun(ts: seq<Term>, pm: Partial, i: nat, children: seq<Term>, child: Term, next: Term)
    requires AllInputs(ts) && PartialOk(pm) && i < |ts| && ts[i].sort == Str
    requires InRun(Results(ts, pm)[..i], children, child, false, next)
    requires Eval(ts[i], pm).term == Results(ts, pm)[i]
    ensures var done, e := Results(ts, pm)[..i + 1], Eval(ts[i], pm).term;
            if IsConst(e) then InRun(done, children, Fold2(Str, StrConcat, child, e), false, next)
            else InRun(done, children, child, true, e)
  {
    hide EvalInput, PartialOk, Eval, IsConst, Fold2, Plain, Results, Runs;
    StringConstants(ts, pm, i, child);
    RunStep(Results(ts, pm), i, children, child, next);
  }

  lemma {:induction false} ConcatSettled(t: Term, rs: seq<Term>, any: bool)
    requires Ready(t, rs) && t.kind.StrConcat?
    ensures Settle(t, rs, any) == if any then Outcome(true, ConcatOfParts(Runs(rs))) else Outcome(false, t)
    ensures Runs([]) == []
  {
    hide Ready, EvalInput;
  }

  /** Two string constants fold into a constant. */
  lemma {:induction false} StringConstants(ts: seq<Term>, pm: Partial, i: nat, child: Term)
    requires AllInputs(ts) && PartialOk(pm) && i < |ts| && ts[i].sort == Str
    ensures var e := Eval(ts[i], pm).term;
            IsConst(child) && Plain(child) && child.sort == Str && IsConst(e) ==>
              IsConst(Fold2(Str, StrConcat, child, e)) && Plain(Fold2(Str, StrConcat, child, e))
              && Fold2(Str, StrConcat, child, e).sort == Str
    ensures var e := Eval(ts[i], pm).term;
            e.sort == Str && Plain(e)
  {
    hide Eval, EvalInput;
    var e := Eval(ts[i], pm).term;
    if IsConst(child) && Plain(child) && child.sort == Str && IsConst(e) {
      FoldedString(child, e, Model((l: Term) => U(0), (k, n, vs) => U(0), map[]));
    }
  }

  lemma {:induction false} NextRun(rs: seq<Term>, i: nat)
    requires i < |rs|
    ensures rs[..i + 1] == rs[..i] + [rs[i]]
    ensures var p := Runs(rs[..i]);
            Runs(rs[..i + 1]) ==
            if p != [] && IsConst(p[|p| - 1]) && IsConst(rs[i]) then p[..|p| - 1] + [Fold2(Str, StrConcat, p[|p| - 1], rs[i])]
            else p + [rs[i]]
  {
    hide IsConst, Fold2;
    assert rs[..i + 1][..i] == rs[..i];
  }

  // ------------------------------------------------------------------
  // What it amounts to
  // ------------------------------------------------------------------

  /** A result reads the same in every total assignment that extends the model
      and misfolds nothing, is the input itself if nothing changed, and is the
      constant value of the input when the model assigns all variables of a
      term without operators over constants alone. */
  method EvaluateTerm(t: Term, pm: Partial) returns (changed: bool, r: Term)
    requires EvalInput(t) && PartialOk(pm)
    ensures forall m: Model {:trigger Extends(pm, m)} ::
              Extends(pm, m) && NeverMisfolded(t, pm, m) ==> Value(r, m) == Value(t, m)
    ensures Regular(t) ==> forall m: Model {:trigger Extends(pm, m)} :: Extends(pm, m) ==> Value(r, m) == Value(t, m)
    ensures r.sort == t.sort && (!changed ==> r == t)
    ensures Lively(t) && AllAssigned(t, pm) ==> IsCanonical(r) && (HasVar(t) ==> changed)
  {
    hide EvalInput, Eval, NeverMisfolded, Regular, Value, Extends;
    changed, r := Evaluate(t, pm);
    UnchangedIsInput(t, pm);
    forall m: Model {:trigger Extends(pm, m)} | Extends(pm, m)
      ensures NeverMisfolded(t, pm, m) ==> Value(r, m) == Value(t, m)
      ensures Regular(t) ==> NeverMisfolded(t, pm, m)
    {
      if Regular(t) {
        RegularNeverMisfolded(t, pm, m);
      }
      if NeverMisfolded(t, pm, m) {
        EvalKeepsValue(t, pm, m);
      }
    }
    if Lively(t) && AllAssigned(t, pm) {
      EvalIsConstant(t, pm);
    }
  }
}
