// The loop around the elimination passes: it ends, and when it leaves no
// connective behind.
module DnfRounds {
  import opened Terms
  import opened Builders
  import opened LetExpansion
  import opened Tseitin
  import opened Implications
  import opened DnfElimination

  // ------------------------------------------------------------------
  // Properties that replacements keep
  // ------------------------------------------------------------------

  type Property = Term -> bool

  /** Leaves have it, and so do and, or and not over terms that have it; a
      negation hands it to its operand. */
  ghost predicate Closed(p: Property) {
    && (forall t: Term :: IsEnd(t) ==> p(t))
    && (forall t: Term :: IsJunction(t.kind) && t.sort == Bool && AllHave(t.children, p) ==> p(t))
    && (forall t: Term :: t.kind.Not? && |t.children| == 1 && p(t) ==> p(t.children[0]))
  }

  predicate AllHave(ts: seq<Term>, p: Property) { forall i | 0 <= i < |ts| :: p(ts[i]) }

  lemma ClosedLeaf(p: Property, t: Term)
    requires Closed(p) && IsEnd(t)
    ensures p(t)
  {
  }

  lemma ClosedJunction(p: Property, t: Term)
    requires Closed(p) && IsJunction(t.kind) && t.sort == Bool && AllHave(t.children, p)
    ensures p(t)
  {
  }

  lemma ClosedNot(p: Property, t: Term)
    requires Closed(p) && t.kind.Not? && |t.children| == 1 && p(t)
    ensures p(t.children[0])
  {
  }

  lemma BuiltHave(ts: seq<Term>, p: Property)
    requires Closed(p) && AllHave(ts, p)
    ensures p(MkAnd(ts)) && p(MkOr(ts))
  {
    hide MkAnd, MkOr, Closed;
    JunctionShape(ts);
    ClosedLeaf(p, TrueTerm);
    ClosedLeaf(p, FalseTerm);
    JunctionHas(MkAnd(ts), ts, p);
    JunctionHas(MkOr(ts), ts, p);
  }

  lemma JunctionHas(t: Term, ts: seq<Term>, p: Property)
    requires Closed(p) && AllHave(ts, p)
    ensures t in ts ==> p(t)
    ensures (t.kind.And? || t.kind.Or?) && t.sort == Bool && (forall c | c in t.children :: c in ts) ==> p(t)
  {
    hide Closed;
    if (t.kind.And? || t.kind.Or?) && t.sort == Bool && (forall c | c in t.children :: c in ts) {
      forall i | 0 <= i < |t.children|
        ensures p(t.children[i])
      {
        assert t.children[i] in ts;
      }
      ClosedJunction(p, t);
    }
  }

  lemma {:induction false} NegationHas(t: Term, p: Property)
    requires Closed(p) && p(t)
    ensures p(MkNot(t))
  {
    hide Closed;
    if t.kind.Not? && |t.children| == 1 {
      ClosedNot(p, t);
    } else if IsTrue(t) || IsFalse(t) {
      ClosedLeaf(p, MkNot(t));
    } else if IsComp(t) {
      SwapIsEnd(t);
      ClosedLeaf(p, MkNot(t));
    } else {
      var n := MkOper(Bool, Not, [t]);
      assert AllHave(n.children, p);
      ClosedJunction(p, n);
    }
  }

  lemma PairHas(a: Term, b: Term, p: Property)
    requires Closed(p) && p(a) && p(b)
    ensures p(MkAnd([a, b])) && p(MkOr([a, b]))
  {
    hide Closed, MkAnd, MkOr;
    BuiltHave([a, b], p);
  }

  lemma PairsHave(a: Term, b: Term, p: Property)
    requires Closed(p) && p(a) && p(b)
    ensures p(XorPair(a, b)) && p(EqPair(a, b))
  {
    hide MkNot, MkAnd, MkOr, Closed;
    NegationHas(a, p);
    NegationHas(b, p);
    PairHas(a, MkNot(b), p);
    PairHas(MkNot(a), b, p);
    PairHas(a, b, p);
    PairHas(MkNot(a), MkNot(b), p);
    PairHas(MkAnd([a, MkNot(b)]), MkAnd([MkNot(a), b]), p);
    PairHas(MkAnd([a, b]), MkAnd([MkNot(a), MkNot(b)]), p);
  }

  lemma {:induction false} EliminateXorHas(ts: seq<Term>, p: Property)
    requires |ts| >= 2 && Closed(p) && AllHave(ts, p)
    ensures p(EliminateXor(ts))
  {
    hide Closed, XorPair;
    var n := |ts| - 1;
    if n == 1 {
      PairsHave(ts[0], ts[1], p);
    } else {
      assert AllHave(ts[..n], p) && p(ts[n]);
      EliminateXorHas(ts[..n], p);
      var r, x := EliminateXor(ts[..n]), ts[n];
      assert EliminateXor(ts) == XorPair(r, x);
      hide EliminateXor;
      PairsHave(r, x, p);
    }
  }

  lemma ComparisonsHave(ts: seq<Term>, p: Property)
    requires Closed(p) && AllHave(ts, p)
    ensures p(EliminateEq(ts)) && p(EliminateDistinct(ts))
  {
    hide Closed, EqPair, XorPair, MkAnd;
    ClosedLeaf(p, TrueTerm);
    ClosedLeaf(p, FalseTerm);
    if |ts| == 2 {
      PairsHave(ts[0], ts[1], p);
    } else if |ts| > 2 {
      var qs := AdjacentEqs(ts);
      forall i | 0 <= i < |qs|
        ensures p(qs[i])
      {
        PairsHave(ts[i], ts[i + 1], p);
      }
      BuiltHave(qs, p);
    }
  }

  /** What replaces a node has what its operands' results have, unless the node
      is kept. */
  lemma ReplacementHas(t: Term, cs: seq<Term>, changed: bool, p: Property)
    requires DnfInput(t, Any()) && !IsEnd(t) && !t.kind.Let? && |cs| == |Looked(t)|
    requires Closed(p) && AllHave(cs, p)
    ensures (t.kind.And? || t.kind.Or? ==> changed) ==> p(Replacement(t, cs, changed))
  {
    hide Closed, MkAnd, MkOr, MkNot, IsEnd, EliminateXor, EliminateEq, EliminateDistinct;
    BuiltHave(cs, p);
    match t.kind
    case Not => NegationHas(cs[0], p);
    case And =>
    case Or =>
    case Implies =>
      NegationHas(cs[0], p);
      PairHas(MkNot(cs[0]), cs[1], p);
    case Ite =>
      NegationHas(cs[0], p);
      PairHas(MkNot(cs[0]), cs[1], p);
      PairHas(cs[0], cs[2], p);
      PairHas(MkOr([MkNot(cs[0]), cs[1]]), MkOr([cs[0], cs[2]]), p);
    case Xor => EliminateXorHas(cs, p);
    case Eq => ComparisonsHave(cs, p);
    case Distinct => ComparisonsHave(cs, p);
  }

  /** A conjunction or disjunction whose flag is clear stays as it is. */
  lemma JunctionKept(t: Term, cs: seq<Term>, changed: bool)
    requires DnfInput(t, Any()) && !IsEnd(t) && !t.kind.Let? && |cs| == |Looked(t)|
    ensures (t.kind.And? || t.kind.Or?) && !changed ==> Replacement(t, cs, changed) == t
    ensures IsJunction(t.kind) ==> t.sort == Bool && Looked(t) == t.children
    ensures t.kind.Not? ==> |t.children| == 1
  {
    hide IsEnd;
  }

  // ------------------------------------------------------------------
  // The table
  // ------------------------------------------------------------------

  /** The nodes a pass looks at. */
  function Reach(t: Term): set<Term>
    decreases Rank(t), t, 1
  {
    if IsEnd(t) then {}
    else if t.kind.Let? then {t} + Reach(ExpandLet(t))
    else
      LookedRank(t);
      {t} + ReachAll(Looked(t))
  }

  function ReachAll(ts: seq<Term>): set<Term>
    decreases RankAll(ts), ts, 0
  {
    if ts == [] then {}
    else
      var n := |ts| - 1;
      assert AnyHasBinder(ts[..n]) || HasBinder(ts[n]) ==> AnyHasBinder(ts);
      ReachAll(ts[..n]) + Reach(ts[n])
  }

  lemma {:induction false} ReachAt(ts: seq<Term>, k: Term) returns (i: nat)
    requires k in ReachAll(ts)
    ensures i < |ts| && k in Reach(ts[i])
    decreases |ts|
  {
    hide Reach;
    var n := |ts| - 1;
    if k in Reach(ts[n]) {
      i := n;
    } else {
      i := ReachAt(ts[..n], k);
    }
  }

  /** Nothing a pass meets below a node is the node again. */
  lemma {:induction false} ReachSmaller(t: Term, k: Term)
    requires k in Reach(t)
    ensures Rank(k) < Rank(t) || (Rank(k) == Rank(t) && (k == t || Size(k) < Size(t)))
    decreases Rank(t), t
  {
    hide HasBinder;
    if k != t {
      if t.kind.Let? {
        LetRankDrops(t);
        ReachSmaller(ExpandLet(t), k);
      } else {
        LookedRank(t);
        var i := ReachAt(Looked(t), k);
        ReachSmaller(Looked(t)[i], k);
        SizeOfChild(t.children, i);
      }
    }
  }

  lemma NotBelowItself(t: Term)
    requires !IsEnd(t)
    ensures if t.kind.Let? then t !in Reach(ExpandLet(t)) else t !in ReachAll(Looked(t))
  {
    hide HasBinder, Reach;
    if t.kind.Let? {
      LetRankDrops(t);
      if t in Reach(ExpandLet(t)) {
        ReachSmaller(ExpandLet(t), t);
      }
    } else if t in ReachAll(Looked(t)) {
      LookedRank(t);
      var i := ReachAt(Looked(t), t);
      ReachSmaller(Looked(t)[i], t);
      SizeOfChild(t.children, i);
    }
  }

  ghost predicate Extends(visited: map<Term, Term>, more: map<Term, Term>) {
    visited.Keys <= more.Keys && forall k | k in visited :: more[k] == visited[k]
  }

  /** A pass adds entries for nodes it reaches and changes none. */
  lemma {:induction false} PassExtends(t: Term, visited: map<Term, Term>, changed: bool)
    requires DnfInput(t, Any())
    ensures var p := Eliminate(t, visited, changed);
            && Extends(visited, p.visited) && p.visited.Keys <= visited.Keys + Reach(t)
            && (IsEnd(t) || (t in p.visited && p.visited[t] == p.term)) && (IsEnd(t) ==> p.term == t)
    decreases Rank(t), t, 1
  {
    hide IsEnd, Replacement, DnfInput, HasBinder;
    if !IsEnd(t) && t !in visited {
      PassUnfolds(t, visited, changed);
      NotBelowItself(t);
      if t.kind.Let? {
        LetRankDrops(t);
        PassExtends(ExpandLet(t), visited, changed);
      } else {
        LookedRank(t);
        PassAllExtends(Looked(t), visited, SharesFlag(t.kind), SharesFlag(t.kind) && changed);
      }
    }
  }

  lemma {:induction false} PassAllExtends(ts: seq<Term>, visited: map<Term, Term>, shared: bool, changed: bool)
    requires AllDnfInput(ts, Any())
    ensures var p := EliminateAll(ts, visited, shared, changed);
            Extends(visited, p.visited) && p.visited.Keys <= visited.Keys + ReachAll(ts)
    decreases RankAll(ts), ts, 0
  {
    hide DnfInput, Eliminate, Reach, HasBinder;
    if ts != [] {
      var n := |ts| - 1;
      assert AnyHasBinder(ts[..n]) || HasBinder(ts[n]) ==> AnyHasBinder(ts);
      PassAllExtends(ts[..n], visited, shared, changed);
      var p := EliminateAll(ts[..n], visited, shared, changed);
      PassExtends(ts[n], p.visited, shared && p.changed);
    }
  }

  ghost predicate TableInput(visited: map<Term, Term>) { forall k | k in visited :: DnfInput(visited[k], Any()) }

  /** The results of a pass are formulas the next pass accepts. */
  lemma {:induction false} PassIsInput(t: Term, visited: map<Term, Term>, changed: bool)
    requires DnfInput(t, Any()) && TableInput(visited)
    ensures var p := Eliminate(t, visited, changed);
            DnfInput(p.term, Any()) && TableInput(p.visited)
    decreases Rank(t), t, 1
  {
    hide IsEnd, Replacement, DnfInput, HasBinder;
    PassExtends(t, visited, changed);
    if !IsEnd(t) && t !in visited {
      PassUnfolds(t, visited, changed);
      if t.kind.Let? {
        LetRankDrops(t);
        PassIsInput(ExpandLet(t), visited, changed);
      } else {
        LookedRank(t);
        var shared := SharesFlag(t.kind);
        var p := EliminateAll(Looked(t), visited, shared, shared && changed);
        PassesAreInputs(Looked(t), visited, shared, shared && changed);
        ReplacementIsInput(t, p.terms, changed || p.changed, Any());
      }
    }
  }

  lemma {:induction false} PassesAreInputs(ts: seq<Term>, visited: map<Term, Term>, shared: bool, changed: bool)
    requires AllDnfInput(ts, Any()) && TableInput(visited)
    ensures var p := EliminateAll(ts, visited, shared, changed);
            AllDnfInput(p.terms, Any()) && TableInput(p.visited)
    decreases RankAll(ts), ts, 0
  {
    hide DnfInput, Eliminate, TableInput, HasBinder;
    if ts != [] {
      var n := |ts| - 1;
      assert AnyHasBinder(ts[..n]) || HasBinder(ts[n]) ==> AnyHasBinder(ts);
      PassesAreInputs(ts[..n], visited, shared, changed);
      var p := EliminateAll(ts[..n], visited, shared, changed);
      PassIsInput(ts[n], p.visited, shared && p.changed);
    }
  }

  // ------------------------------------------------------------------
  // The rounds end
  // ------------------------------------------------------------------

  /** A pass would find nothing to do: every connective it could still
      eliminate is already in the table. */
  predicate Clean(t: Term, seen: set<Term>) {
    || IsEnd(t)
    || t in seen
    || (IsJunction(t.kind) && forall i | 0 <= i < |t.children| :: Clean(t.children[i], seen))
  }

  ghost predicate AllClean(ts: seq<Term>, seen: set<Term>) {
    forall i | 0 <= i < |ts| :: Clean(ts[i], seen)
  }

  ghost predicate TableClean(visited: map<Term, Term>) {
    && (forall k | k in visited :: Clean(visited[k], visited.Keys))
    && (forall k | k in visited && k.kind.Not? && |k.children| == 1 :: Clean(k.children[0], visited.Keys))
  }

  ghost function IsClean(visited: map<Term, Term>): Property { (t: Term) => Clean(t, visited.Keys) }

  lemma CleanClosed(visited: map<Term, Term>)
    requires TableClean(visited)
    ensures Closed(IsClean(visited))
  {
    hide IsEnd;
    var p := IsClean(visited);
    forall t: Term | t.kind.Not? && |t.children| == 1 && p(t)
      ensures p(t.children[0])
    {
      if IsEnd(t) {
        NegatedLeaf(t);
      }
    }
  }

  lemma NegatedLeaf(t: Term)
    requires t.kind.Not? && |t.children| == 1 && IsEnd(t)
    ensures IsEnd(t.children[0])
  {
  }

  lemma {:induction t} CleanGrows(t: Term, seen: set<Term>, more: set<Term>)
    requires Clean(t, seen) && seen <= more
    ensures Clean(t, more)
  {
  }

  lemma LeafIsClean(t: Term, seen: set<Term>)
    requires IsEnd(t) || t in seen
    ensures Clean(t, seen)
  {
  }

  lemma Remembered(t: Term, r: Term, visited: map<Term, Term>)
    requires TableClean(visited) && (r == t || Clean(r, visited.Keys))
    requires t.kind.Not? && |t.children| == 1 ==> Clean(t.children[0], visited.Keys)
    ensures TableClean(visited[t := r]) && Clean(r, visited[t := r].Keys)
  {
    hide IsEnd;
    var v := visited[t := r];
    forall s | Clean(s, visited.Keys)
      ensures Clean(s, v.Keys)
    {
      CleanGrows(s, visited.Keys, v.Keys);
    }
  }

  /** What a pass leaves behind: a clean result and a clean table. */
  lemma {:induction false} EliminateClean(t: Term, visited: map<Term, Term>, changed: bool)
    requires DnfInput(t, Any()) && TableClean(visited)
    ensures var p := Eliminate(t, visited, changed);
            TableClean(p.visited) && Clean(p.term, p.visited.Keys) && visited.Keys <= p.visited.Keys
    decreases Rank(t), t, 1
  {
    hide IsEnd, Replacement, Clean, DnfInput, TableClean, Closed, HasBinder;
    PassExtends(t, visited, changed);
    if IsEnd(t) {
      LeafIsClean(t, visited.Keys);
    } else if t in visited {
      assert TableClean(visited) ==> Clean(visited[t], visited.Keys) by {
        EntryClean(visited, t);
      }
    } else {
      PassUnfolds(t, visited, changed);
      if t.kind.Let? {
        LetRankDrops(t);
        EliminateClean(ExpandLet(t), visited, changed);
        var p := Eliminate(ExpandLet(t), visited, changed);
        Remembered(t, p.term, p.visited);
      } else {
        LookedRank(t);
        var shared := SharesFlag(t.kind);
        var p := EliminateAll(Looked(t), visited, shared, shared && changed);
        EliminateAllClean(Looked(t), visited, shared, shared && changed);
        CleanClosed(p.visited);
        ReplacementHas(t, p.terms, changed || p.changed, IsClean(p.visited));
        JunctionKept(t, p.terms, changed || p.changed);
        Remembered(t, Replacement(t, p.terms, changed || p.changed), p.visited);
      }
    }
  }

  lemma EntryClean(visited: map<Term, Term>, k: Term)
    requires TableClean(visited) && k in visited
    ensures Clean(visited[k], visited.Keys)
  {
  }

  lemma {:induction false} EliminateAllClean(ts: seq<Term>, visited: map<Term, Term>, shared: bool, changed: bool)
    requires AllDnfInput(ts, Any()) && TableClean(visited)
    ensures var p := EliminateAll(ts, visited, shared, changed);
            && TableClean(p.visited) && visited.Keys <= p.visited.Keys
            && AllClean(p.terms, p.visited.Keys) && AllClean(ts, p.visited.Keys)
    decreases RankAll(ts), ts, 0
  {
    hide DnfInput, Eliminate, TableClean, Clean, IsEnd, HasBinder, AllClean;
    if ts != [] {
      var n := |ts| - 1;
      assert AnyHasBinder(ts[..n]) || HasBinder(ts[n]) ==> AnyHasBinder(ts);
      var p := EliminateAll(ts[..n], visited, shared, changed);
      EliminateAllClean(ts[..n], visited, shared, changed);
      var q := Eliminate(ts[n], p.visited, shared && p.changed);
      EliminateClean(ts[n], p.visited, shared && p.changed);
      PassExtends(ts[n], p.visited, shared && p.changed);
      LeafIsClean(ts[n], q.visited.Keys);
      AllCleanAppend(p.terms, q.term, p.visited.Keys, q.visited.Keys);
      AllCleanAppend(ts[..n], ts[n], p.visited.Keys, q.visited.Keys);
      assert ts == ts[..n] + [ts[n]];
    } else {
      NoneClean(visited.Keys);
    }
  }

  lemma NoneClean(seen: set<Term>)
    ensures AllClean([], seen)
  {
  }

  lemma AllCleanAppend(ts: seq<Term>, x: Term, seen: set<Term>, more: set<Term>)
    requires AllClean(ts, seen) && Clean(x, more) && seen <= more
    ensures AllClean(ts + [x], more)
  {
    hide Clean;
    forall i | 0 <= i < |ts|
      ensures Clean(ts[i], more)
    {
      CleanGrows(ts[i], seen, more);
    }
  }

  /** On a clean term a pass sets no flag. */
  lemma {:induction false} CleanUnchanged(t: Term, visited: map<Term, Term>)
    requires DnfInput(t, Any()) && Clean(t, visited.Keys)
    ensures !Eliminate(t, visited, false).changed
    ensures visited.Keys <= Eliminate(t, visited, false).visited.Keys
    decreases t, 1
  {
    hide IsEnd, Replacement, DnfInput;
    PassExtends(t, visited, false);
    if !IsEnd(t) && t !in visited {
      PassUnfolds(t, visited, false);
      CleanAllUnchanged(t.children, visited);
    }
  }

  lemma {:induction false} CleanAllUnchanged(ts: seq<Term>, visited: map<Term, Term>)
    requires AllDnfInput(ts, Any()) && AllClean(ts, visited.Keys)
    ensures !EliminateAll(ts, visited, false, false).changed
    ensures visited.Keys <= EliminateAll(ts, visited, false, false).visited.Keys
    decreases ts, 0
  {
    hide DnfInput, Eliminate, Clean, IsEnd;
    if ts != [] {
      var n := |ts| - 1;
      var p := EliminateAll(ts[..n], visited, false, false);
      CleanAllUnchanged(ts[..n], visited);
      CleanGrows(ts[n], visited.Keys, p.visited.Keys);
      CleanUnchanged(ts[n], p.visited);
    }
  }

  // ------------------------------------------------------------------
  // When nothing is left to eliminate
  // ------------------------------------------------------------------

  /** Nothing but and, or and not above the leaves, lets expanded. */
  predicate Free(t: Term)
    decreases Rank(t), t
  {
    if IsEnd(t) then true
    else if t.kind.Let? then Free(ExpandLet(t))
    else
      LookedRank(t);
      IsJunction(t.kind) && forall i | 0 <= i < |Looked(t)| :: Free(Looked(t)[i])
  }

  function IsFree(): Property { (t: Term) => Free(t) }

  lemma FreeClosed()
    ensures Closed(IsFree())
  {
    hide IsEnd;
    var p := IsFree();
    forall t: Term | t.kind.Not? && |t.children| == 1 && p(t)
      ensures p(t.children[0])
    {
      if IsEnd(t) {
        NegatedLeaf(t);
      } else {
        assert Free(Looked(t)[0]);
      }
    }
  }

  ghost predicate TableFree(visited: map<Term, Term>) { forall k | k in visited :: Free(visited[k]) }

  /** A pass overlooks a connective: some conjunction or disjunction ends with a
      clear flag although an operand contains one. (Then every such operand was
      in the table when it was met.) */
  predicate Overlooks(t: Term, visited: map<Term, Term>, changed: bool)
    requires DnfInput(t, Any())
    decreases Rank(t), t, 1
  {
    if IsEnd(t) || t in visited then false
    else
      InputParts(t, Any());
      if t.kind.Let? then Overlooks(ExpandLet(t), visited, changed)
      else
        LookedRank(t);
        var shared := SharesFlag(t.kind);
        || OverlooksIn(Looked(t), visited, shared, shared && changed)
        || ((t.kind.And? || t.kind.Or?) && !Free(t)
            && !(changed || EliminateAll(Looked(t), visited, shared, shared && changed).changed))
  }

  predicate OverlooksIn(ts: seq<Term>, visited: map<Term, Term>, shared: bool, changed: bool)
    requires AllDnfInput(ts, Any())
    decreases RankAll(ts), ts, 0
  {
    if ts == [] then false
    else
      var n := |ts| - 1;
      assert AnyHasBinder(ts[..n]) || HasBinder(ts[n]) ==> AnyHasBinder(ts);
      var p := EliminateAll(ts[..n], visited, shared, changed);
      OverlooksIn(ts[..n], visited, shared, changed) || Overlooks(ts[n], p.visited, shared && p.changed)
  }

  /** Exactly then the table stays free of connectives, and with it the
      result. */
  lemma {:induction false} FreeExact(t: Term, visited: map<Term, Term>, changed: bool)
    requires DnfInput(t, Any())
    ensures var p := Eliminate(t, visited, changed);
            && (TableFree(p.visited) <==> TableFree(visited) && !Overlooks(t, visited, changed))
            && (TableFree(p.visited) ==> Free(p.term))
    decreases Rank(t), t, 1
  {
    hide IsEnd, Replacement, DnfInput, HasBinder, Free, Closed, Reach;
    PassExtends(t, visited, changed);
    if IsEnd(t) {
      LeafFree(t);
    } else if t !in visited {
      PassUnfolds(t, visited, changed);
      NotBelowItself(t);
      if t.kind.Let? {
        LetRankDrops(t);
        var p := Eliminate(ExpandLet(t), visited, changed);
        FreeExact(ExpandLet(t), visited, changed);
        PassExtends(ExpandLet(t), visited, changed);
        OneMoreEntry(p.visited, t, p.term);
      } else {
        LookedRank(t);
        var shared := SharesFlag(t.kind);
        var p := EliminateAll(Looked(t), visited, shared, shared && changed);
        var r := Replacement(t, p.terms, changed || p.changed);
        FreeAllExact(Looked(t), visited, shared, shared && changed);
        PassAllExtends(Looked(t), visited, shared, shared && changed);
        OneMoreEntry(p.visited, t, r);
        FreeClosed();
        JunctionKept(t, p.terms, changed || p.changed);
        if TableFree(p.visited) {
          ReplacementHas(t, p.terms, changed || p.changed, IsFree());
        }
      }
    }
  }

  lemma LeafFree(t: Term)
    requires IsEnd(t)
    ensures Free(t)
  {
  }

  lemma OneMoreEntry(visited: map<Term, Term>, k: Term, r: Term)
    requires k !in visited
    ensures TableFree(visited[k := r]) <==> TableFree(visited) && Free(r)
  {
    hide Free;
    var v := visited[k := r];
    assert k in v;
    assert forall x | x in visited :: x in v && v[x] == visited[x];
  }

  lemma {:induction false} FreeAllExact(ts: seq<Term>, visited: map<Term, Term>, shared: bool, changed: bool)
    requires AllDnfInput(ts, Any())
    ensures var p := EliminateAll(ts, visited, shared, changed);
            && (TableFree(p.visited) <==> TableFree(visited) && !OverlooksIn(ts, visited, shared, changed))
            && (TableFree(p.visited) ==> AllHave(p.terms, IsFree()))
    decreases RankAll(ts), ts, 0
  {
    hide DnfInput, Eliminate, Overlooks, Free, TableFree, HasBinder;
    if ts != [] {
      var n := |ts| - 1;
      assert AnyHasBinder(ts[..n]) || HasBinder(ts[n]) ==> AnyHasBinder(ts);
      FreeAllExact(ts[..n], visited, shared, changed);
      var p := EliminateAll(ts[..n], visited, shared, changed);
      FreeExact(ts[n], p.visited, shared && p.changed);
    }
  }

  /** A formula without connectives to eliminate: a pass overlooks none. */
  lemma {:induction false} FreeOverlooksNothing(t: Term, visited: map<Term, Term>, changed: bool)
    requires DnfInput(t, Any()) && Free(t)
    ensures !Overlooks(t, visited, changed)
    decreases Rank(t), t, 1
  {
    hide IsEnd, DnfInput, HasBinder, EliminateAll;
    if !IsEnd(t) && t !in visited {
      InputParts(t, Any());
      if t.kind.Let? {
        LetRankDrops(t);
        FreeOverlooksNothing(ExpandLet(t), visited, changed);
      } else {
        LookedRank(t);
        FreesOverlookNothing(Looked(t), visited, SharesFlag(t.kind), SharesFlag(t.kind) && changed);
      }
    }
  }

  lemma {:induction false} FreesOverlookNothing(ts: seq<Term>, visited: map<Term, Term>, shared: bool, changed: bool)
    requires AllDnfInput(ts, Any()) && AllHave(ts, IsFree())
    ensures !OverlooksIn(ts, visited, shared, changed)
    decreases RankAll(ts), ts, 0
  {
    hide DnfInput, Overlooks, Free, HasBinder, Eliminate;
    if ts != [] {
      var n := |ts| - 1;
      assert AnyHasBinder(ts[..n]) || HasBinder(ts[n]) ==> AnyHasBinder(ts);
      FreesOverlookNothing(ts[..n], visited, shared, changed);
      var p := EliminateAll(ts[..n], visited, shared, changed);
      assert IsFree()(ts[n]);
      FreeOverlooksNothing(ts[n], p.visited, shared && p.changed);
    }
  }

  // ------------------------------------------------------------------
  // A condition on the formula alone
  // ------------------------------------------------------------------

  /** The nodes with a connective to eliminate in them. */
  function Dirty(t: Term): set<Term> { set k | k in Reach(t) && !Free(k) }

  /** No subformula with a connective to eliminate in it occurs twice. */
  predicate Unshared(t: Term)
    decreases Rank(t), t
  {
    if IsEnd(t) then true
    else if t.kind.Let? then Unshared(ExpandLet(t))
    else
      LookedRank(t);
      && (forall i | 0 <= i < |Looked(t)| :: Unshared(Looked(t)[i]))
      && Apart(Looked(t))
  }

  predicate Apart(ts: seq<Term>) { forall i, j | 0 <= i < j < |ts| :: Dirty(ts[i]) !! Dirty(ts[j]) }

  /** Such a formula is never overlooked, and a connective in it sets the
      flag. */
  lemma {:induction false} UnsharedComplete(t: Term, visited: map<Term, Term>, changed: bool)
    requires DnfInput(t, Any()) && Unshared(t) && Dirty(t) !! visited.Keys
    ensures !Overlooks(t, visited, changed)
    ensures !Free(t) ==> Eliminate(t, visited, changed).changed
    decreases Rank(t), t, 1
  {
    hide IsEnd, DnfInput, HasBinder, Replacement, Reach, EliminateAll;
    if IsEnd(t) {
      LeafFree(t);
    } else {
      RootDirty(t);
      if t !in visited {
        PassUnfolds(t, visited, changed);
        if t.kind.Let? {
          LetRankDrops(t);
          UnsharedComplete(ExpandLet(t), visited, changed);
        } else {
          LookedRank(t);
          var shared := SharesFlag(t.kind);
          UnsharedAllComplete(Looked(t), visited, shared, shared && changed);
          if !Free(t) && IsJunction(t.kind) {
            var i :| 0 <= i < |Looked(t)| && !Free(Looked(t)[i]);
          }
        }
      }
    }
  }

  lemma {:induction false} RootDirty(t: Term)
    requires !IsEnd(t)
    ensures !Free(t) ==> t in Dirty(t)
    ensures t.kind.Let? ==> Dirty(ExpandLet(t)) <= Dirty(t)
    ensures !t.kind.Let? ==> forall i | 0 <= i < |Looked(t)| :: Dirty(Looked(t)[i]) <= Dirty(t)
  {
    hide Free, HasBinder;
    if !t.kind.Let? {
      forall i | 0 <= i < |Looked(t)|
        ensures Reach(Looked(t)[i]) <= Reach(t)
      {
        ReachOf(Looked(t), i);
      }
    }
  }

  lemma {:induction false} ReachOf(ts: seq<Term>, i: nat)
    requires i < |ts|
    ensures Reach(ts[i]) <= ReachAll(ts)
    decreases |ts|
  {
    hide Reach;
    if i < |ts| - 1 {
      ReachOf(ts[..|ts| - 1], i);
    }
  }

  lemma {:induction false} UnsharedAllComplete(ts: seq<Term>, visited: map<Term, Term>, shared: bool, changed: bool)
    requires AllDnfInput(ts, Any()) && Apart(ts)
    requires forall i | 0 <= i < |ts| :: Unshared(ts[i]) && Dirty(ts[i]) !! visited.Keys
    ensures !OverlooksIn(ts, visited, shared, changed)
    ensures (exists i :: 0 <= i < |ts| && !Free(ts[i])) ==> EliminateAll(ts, visited, shared, changed).changed
    decreases RankAll(ts), ts, 0
  {
    hide DnfInput, Eliminate, Overlooks, Free, HasBinder, Unshared, Dirty;
    if ts != [] {
      var n := |ts| - 1;
      assert AnyHasBinder(ts[..n]) || HasBinder(ts[n]) ==> AnyHasBinder(ts);
      UnsharedAllComplete(ts[..n], visited, shared, changed);
      var p := EliminateAll(ts[..n], visited, shared, changed);
      PassAllExtends(ts[..n], visited, shared, changed);
      StillApart(ts, visited.Keys, p.visited.Keys);
      UnsharedComplete(ts[n], p.visited, shared && p.changed);
      assert forall i | 0 <= i < n :: ts[..n][i] == ts[i];
    }
  }

  /** What the earlier operands added is none of the last one's. */
  lemma {:induction false} StillApart(ts: seq<Term>, seen: set<Term>, more: set<Term>)
    requires ts != [] && Apart(ts) && Dirty(ts[|ts| - 1]) !! seen
    requires more <= seen + ReachAll(ts[..|ts| - 1])
    ensures Dirty(ts[|ts| - 1]) !! more
  {
    hide Reach, Free;
    var n := |ts| - 1;
    forall k | k in Dirty(ts[n])
      ensures k !in more
    {
      if k in ReachAll(ts[..n]) {
        var i := ReachAt(ts[..n], k);
      }
    }
  }

  // ------------------------------------------------------------------
  // Refused nodes
  // ------------------------------------------------------------------

  /** A pass meets a node it refuses, and ends with an error. */
  predicate Raises(t: Term, visited: map<Term, Term>, changed: bool)
    requires DnfInput(t, Any())
    decreases Rank(t), t, 1
  {
    if IsEnd(t) then Refused(t)
    else if t in visited then false
    else if t.kind.Let? then Raises(ExpandLet(t), visited, changed)
    else
      LookedRank(t);
      RaisesIn(Looked(t), visited, SharesFlag(t.kind), SharesFlag(t.kind) && changed)
  }

  predicate RaisesIn(ts: seq<Term>, visited: map<Term, Term>, shared: bool, changed: bool)
    requires AllDnfInput(ts, Any())
    decreases RankAll(ts), ts, 0
  {
    if ts == [] then false
    else
      var n := |ts| - 1;
      assert AnyHasBinder(ts[..n]) || HasBinder(ts[n]) ==> AnyHasBinder(ts);
      var p := EliminateAll(ts[..n], visited, shared, changed);
      RaisesIn(ts[..n], visited, shared, changed) || Raises(ts[n], p.visited, shared && p.changed)
  }

  /** The conversion does: its first pass, or the second one on what the first
      made of the formula. */
  predicate ConversionRaises(t: Term)
    requires DnfInput(t, Any())
  {
    PassIsInput(t, map[], false);
    var p := Eliminate(t, map[], false);
    Raises(t, map[], false) || (p.changed && Raises(p.term, p.visited, false))
  }

  /** No node is refused, and none will be: below a negation, be it one that
      elimination introduces, there is no equality of strings, whose swap is
      refused. Elsewhere there may be (`pos`). */
  predicate Positive(t: Term, pos: bool)
    decreases Rank(t), t, 1
  {
    if IsEnd(t) then !Refused(t) && (IsStrEq(t) ==> pos)
    else if t.kind.Let? then Positive(ExpandLet(t), pos)
    else if t.kind.And? || t.kind.Or? then AllPositive(t.children, pos)
    else if t.kind.Implies? && |t.children| >= 2 then
      assert HasBinder(t.children[0]) || HasBinder(t.children[1]) ==> AnyHasBinder(t.children);
      Positive(t.children[0], false) && Positive(t.children[1], pos)
    else if t.kind.Ite? && |t.children| == 3 then
      assert HasBinder(t.children[0]) || HasBinder(t.children[1]) || HasBinder(t.children[2])
             ==> AnyHasBinder(t.children);
      Positive(t.children[0], false) && Positive(t.children[1], pos) && Positive(t.children[2], pos)
    else IsConnective(t.kind) && AllPositive(t.children, false)
  }

  predicate AllPositive(ts: seq<Term>, pos: bool)
    decreases RankAll(ts), ts, 0
  {
    forall i | 0 <= i < |ts| :: Positive(ts[i], pos)
  }

  /** Where no equality of strings may stand, fewer formulas are positive. */
  lemma {:induction false} PositiveAnywhere(t: Term)
    requires Positive(t, false)
    ensures Positive(t, true)
    decreases Rank(t), t
  {
    hide IsEnd, Refused, IsStrEq;
    if !IsEnd(t) {
      if t.kind.Let? {
        LetRankDrops(t);
        PositiveAnywhere(ExpandLet(t));
      } else {
        forall i | 0 <= i < |t.children| && Positive(t.children[i], false)
          ensures Positive(t.children[i], true)
        {
          assert HasBinder(t.children[i]) ==> AnyHasBinder(t.children);
          PositiveAnywhere(t.children[i]);
        }
      }
    }
  }

  /** The operands a pass looks at are positive, without strings below the
      connectives that negate theirs. */
  lemma {:induction false} OperandsPositive(t: Term, pos: bool)
    requires DnfInput(t, Any()) && !IsEnd(t) && !t.kind.Let? && Positive(t, pos)
    ensures AllPositive(Looked(t), true)
    ensures t.kind.And? || t.kind.Or? ==> AllPositive(Looked(t), pos)
    ensures t.kind.Implies? ==> |Looked(t)| == 2 && Positive(Looked(t)[0], false) && Positive(Looked(t)[1], pos)
    ensures t.kind.Ite? ==>
              |Looked(t)| == 3 && Positive(Looked(t)[0], false) && Positive(Looked(t)[1], pos) && Positive(Looked(t)[2], pos)
    ensures !t.kind.And? && !t.kind.Or? && !t.kind.Implies? && !t.kind.Ite? ==> AllPositive(Looked(t), false)
  {
    hide IsEnd, Refused, IsStrEq, HasBinder, DnfInput;
    NodeShape(t);
    forall i | 0 <= i < |Looked(t)|
      ensures Positive(Looked(t)[i], true)
    {
      assert Positive(Looked(t)[i], pos) || Positive(Looked(t)[i], false);
      if Positive(Looked(t)[i], false) {
        PositiveAnywhere(Looked(t)[i]);
      }
    }
  }

  lemma NodeShape(t: Term)
    requires DnfInput(t, Any()) && !IsEnd(t) && !t.kind.Let?
    ensures t.kind.Implies? ==> |t.children| >= 2 && Looked(t) == t.children[..2]
    ensures !t.kind.Implies? ==> Looked(t) == t.children
    ensures t.kind.Ite? ==> |t.children| == 3
  {
  }

  lemma {:induction false} PositiveRaisesNot(t: Term, visited: map<Term, Term>, changed: bool)
    requires DnfInput(t, Any()) && Positive(t, true)
    ensures !Raises(t, visited, changed)
    decreases Rank(t), t, 1
  {
    hide IsEnd, Refused, IsStrEq, DnfInput, HasBinder, Eliminate;
    if !IsEnd(t) && t !in visited {
      InputParts(t, Any());
      if t.kind.Let? {
        PositiveRaisesNot(ExpandLet(t), visited, changed);
      } else {
        LookedRank(t);
        OperandsPositive(t, true);
        PositivesRaiseNot(Looked(t), visited, SharesFlag(t.kind), SharesFlag(t.kind) && changed);
      }
    }
  }

  lemma {:induction false} PositivesRaiseNot(ts: seq<Term>, visited: map<Term, Term>, shared: bool, changed: bool)
    requires AllDnfInput(ts, Any()) && AllPositive(ts, true)
    ensures !RaisesIn(ts, visited, shared, changed)
    decreases RankAll(ts), ts, 0
  {
    hide DnfInput, Eliminate, Raises, HasBinder, Positive;
    if ts != [] {
      var n := |ts| - 1;
      assert AnyHasBinder(ts[..n]) || HasBinder(ts[n]) ==> AnyHasBinder(ts);
      PositivesRaiseNot(ts[..n], visited, shared, changed);
      var p := EliminateAll(ts[..n], visited, shared, changed);
      PositiveRaisesNot(ts[n], p.visited, shared && p.changed);
    }
  }

  /** A result is as positive as its node. */
  ghost predicate AsPositive(t: Term, r: Term) { forall pos: bool :: Positive(t, pos) ==> Positive(r, pos) }

  ghost predicate TablePositive(visited: map<Term, Term>) { forall k | k in visited :: AsPositive(k, visited[k]) }

  lemma {:induction false} JunctionPositive(ts: seq<Term>, pos: bool)
    requires AllPositive(ts, pos)
    ensures Positive(MkAnd(ts), pos) && Positive(MkOr(ts), pos)
  {
    hide MkAnd, MkOr, Positive;
    JunctionShape(ts);
    forall t: Term | t.sort == Bool && (t.kind.And? || t.kind.Or?) && forall c | c in t.children :: c in ts
      ensures Positive(t, pos)
    {
      assert forall i | 0 <= i < |t.children| :: t.children[i] in ts;
      NodePositive(t, pos);
    }
    ConstantsPositive(pos);
  }

  lemma {:induction false} NodePositive(t: Term, pos: bool)
    requires t.kind.And? || t.kind.Or?
    requires AllPositive(t.children, pos)
    ensures Positive(t, pos)
  {
    hide IsArithTerm, IsStrTerm;
  }

  lemma ConstantsPositive(pos: bool)
    ensures Positive(TrueTerm, pos) && Positive(FalseTerm, pos)
  {
  }

  lemma {:induction false} NegationPositive(t: Term)
    requires Positive(t, false)
    ensures forall pos: bool :: Positive(MkNot(t), pos)
  {
    hide IsArithTerm, IsStrTerm, NegateComp;
    if t.kind.Not? && |t.children| == 1 {
      if IsEnd(t) {
        assert IsEnd(t.children[0]);
      } else {
        assert Positive(t.children[0], false);
        PositiveAnywhere(t.children[0]);
      }
    } else if IsTrue(t) || IsFalse(t) {
      ConstantsPositive(true);
      ConstantsPositive(false);
    } else if IsComp(t) {
      SwapPositive(t);
    } else {
      var n := MkOper(Bool, Not, [t]);
      assert AllPositive(n.children, false);
    }
  }

  lemma {:induction false} SwapPositive(t: Term)
    requires IsComp(t) && Positive(t, false)
    ensures forall pos: bool :: Positive(NegateComp(t), pos)
  {
    hide IsArithTerm, IsStrTerm;
    SwapIsEnd(t);
    var n := NegateComp(t);
    if IsStrEq(n) {
      TermsApart(n.children[0]);
    }
  }

  lemma PairPositive(a: Term, b: Term, pos: bool)
    requires Positive(a, pos) && Positive(b, pos)
    ensures Positive(MkAnd([a, b]), pos) && Positive(MkOr([a, b]), pos)
  {
    hide Positive, MkAnd, MkOr;
    JunctionPositive([a, b], pos);
  }

  lemma PairsPositive(a: Term, b: Term)
    requires Positive(a, false) && Positive(b, false)
    ensures Positive(XorPair(a, b), false) && Positive(EqPair(a, b), false)
  {
    hide Positive, MkAnd, MkOr, MkNot;
    NegationPositive(a);
    NegationPositive(b);
    PairPositive(a, MkNot(b), false);
    PairPositive(MkNot(a), b, false);
    PairPositive(a, b, false);
    PairPositive(MkNot(a), MkNot(b), false);
    PairPositive(MkAnd([a, MkNot(b)]), MkAnd([MkNot(a), b]), false);
    PairPositive(MkAnd([a, b]), MkAnd([MkNot(a), MkNot(b)]), false);
  }

  lemma {:induction false} EliminateXorPositive(ts: seq<Term>)
    requires |ts| >= 2 && AllPositive(ts, false)
    ensures Positive(EliminateXor(ts), false)
    decreases |ts|
  {
    hide Positive, XorPair;
    var n := |ts| - 1;
    if n == 1 {
      PairsPositive(ts[0], ts[1]);
    } else {
      assert AllPositive(ts[..n], false) && Positive(ts[n], false);
      EliminateXorPositive(ts[..n]);
      var r, x := EliminateXor(ts[..n]), ts[n];
      assert EliminateXor(ts) == XorPair(r, x);
      hide EliminateXor;
      PairsPositive(r, x);
    }
  }

  lemma {:induction false} ComparisonsPositive(ts: seq<Term>)
    requires AllPositive(ts, false)
    ensures Positive(EliminateEq(ts), false) && Positive(EliminateDistinct(ts), false)
  {
    hide Positive, EqPair, XorPair, MkAnd;
    ConstantsPositive(false);
    if |ts| == 2 {
      PairsPositive(ts[0], ts[1]);
    } else if |ts| > 2 {
      var qs := AdjacentEqs(ts);
      forall i | 0 <= i < |qs|
        ensures Positive(qs[i], false)
      {
        PairsPositive(ts[i], ts[i + 1]);
      }
      JunctionPositive(qs, false);
    }
  }

  lemma {:induction false} ImplicationPositive(a: Term, b: Term, pos: bool)
    requires Positive(a, false) && Positive(b, pos)
    ensures Positive(MkOr([MkNot(a), b]), pos)
  {
    hide Positive, MkOr, MkNot;
    NegationPositive(a);
    PairPositive(MkNot(a), b, pos);
  }

  lemma {:induction false} ReplacementPositive(t: Term, cs: seq<Term>, changed: bool, pos: bool)
    requires DnfInput(t, Any()) && !IsEnd(t) && !t.kind.Let? && |cs| == |Looked(t)| && Positive(t, pos)
    requires forall i | 0 <= i < |cs| :: AsPositive(Looked(t)[i], cs[i])
    ensures Positive(Replacement(t, cs, changed), pos)
  {
    hide Positive, MkAnd, MkOr, MkNot, IsEnd, EliminateXor, EliminateEq, EliminateDistinct, DnfInput;
    OperandsPositive(t, pos);
    NodeShape(t);
    OneOperand(t);
    match t.kind
    case Not =>
      NegationPositive(cs[0]);
    case And => JunctionPositive(cs, pos);
    case Or => JunctionPositive(cs, pos);
    case Implies => ImplicationPositive(cs[0], cs[1], pos);
    case Ite =>
      FalseIsPositive(cs[0], pos);
      ImplicationPositive(cs[0], cs[1], pos);
      PairPositive(cs[0], cs[2], pos);
      PairPositive(MkOr([MkNot(cs[0]), cs[1]]), MkOr([cs[0], cs[2]]), pos);
    case Xor =>
      EliminateXorPositive(cs);
      FalseIsPositive(EliminateXor(cs), pos);
    case Eq =>
      ComparisonsPositive(cs);
      FalseIsPositive(EliminateEq(cs), pos);
    case Distinct =>
      ComparisonsPositive(cs);
      FalseIsPositive(EliminateDistinct(cs), pos);
  }

  lemma FalseIsPositive(t: Term, pos: bool)
    requires Positive(t, false)
    ensures Positive(t, pos)
  {
    hide Positive;
    if pos {
      PositiveAnywhere(t);
    }
  }

  lemma OneOperand(t: Term)
    requires DnfInput(t, Any()) && !IsEnd(t)
    ensures !t.kind.Let? ==> IsConnective(t.kind)
    ensures t.kind.Not? ==> |Looked(t)| == 1
    ensures t.kind.Xor? ==> |Looked(t)| >= 2
  {
  }

  /** A pass leaves nothing behind that the next one refuses. */
  lemma {:induction false} PassPositive(t: Term, visited: map<Term, Term>, changed: bool)
    requires DnfInput(t, Any()) && TablePositive(visited)
    ensures var p := Eliminate(t, visited, changed);
            AsPositive(t, p.term) && TablePositive(p.visited)
    decreases Rank(t), t, 1
  {
    hide IsEnd, Replacement, DnfInput, HasBinder, Positive;
    if !IsEnd(t) && t !in visited {
      InputParts(t, Any());
      PassUnfolds(t, visited, changed);
      if t.kind.Let? {
        PassPositive(ExpandLet(t), visited, changed);
        LetPositive(t);
      } else {
        LookedRank(t);
        var shared := SharesFlag(t.kind);
        PassesPositive(Looked(t), visited, shared, shared && changed);
        var p := EliminateAll(Looked(t), visited, shared, shared && changed);
        forall pos: bool | Positive(t, pos)
          ensures Positive(Replacement(t, p.terms, changed || p.changed), pos)
        {
          ReplacementPositive(t, p.terms, changed || p.changed, pos);
        }
      }
    }
  }

  lemma {:induction false} LetPositive(t: Term)
    requires t.kind.Let? && !IsEnd(t)
    ensures AsPositive(t, ExpandLet(t))
  {
    hide IsEnd;
  }

  lemma {:induction false} PassesPositive(ts: seq<Term>, visited: map<Term, Term>, shared: bool, changed: bool)
    requires AllDnfInput(ts, Any()) && TablePositive(visited)
    ensures var p := EliminateAll(ts, visited, shared, changed);
            && TablePositive(p.visited) && forall i | 0 <= i < |ts| :: AsPositive(ts[i], p.terms[i])
    decreases RankAll(ts), ts, 0
  {
    hide DnfInput, Eliminate, HasBinder, Positive, TablePositive, AsPositive;
    if ts != [] {
      var n := |ts| - 1;
      assert AnyHasBinder(ts[..n]) || HasBinder(ts[n]) ==> AnyHasBinder(ts);
      PassesPositive(ts[..n], visited, shared, changed);
      var p := EliminateAll(ts[..n], visited, shared, changed);
      PassPositive(ts[n], p.visited, shared && p.changed);
    }
  }

  /** On positive formulas no error is raised. */
  lemma PositiveConverts(t: Term)
    requires DnfInput(t, Any()) && Positive(t, true)
    ensures !ConversionRaises(t) && Positive(Eliminate(t, map[], false).term, true)
  {
    hide DnfInput, Eliminate, Raises, Positive;
    PassIsInput(t, map[], false);
    PassPositive(t, map[], false);
    var p := Eliminate(t, map[], false);
    PositiveRaisesNot(t, map[], false);
    PositiveRaisesNot(p.term, p.visited, false);
  }

  // ------------------------------------------------------------------
  // The conversion as it runs
  // ------------------------------------------------------------------

  class Eliminator {
    var visited: map<Term, Term>

    constructor ()
      ensures visited == map[]
    {
      visited := map[];
    }

    /** Ends early when it meets a node it refuses; `raised` says so. */
    method Pass1(t: Term, changedIn: bool) returns (r: Term, changed: bool, raised: bool)
      requires DnfInput(t, Any())
      modifies this
      ensures raised <==> Raises(t, old(visited), changedIn)
      ensures !raised ==> Pass(r, visited, changed) == Eliminate(t, old(visited), changedIn)
      decreases Rank(t), t, 1
    {
      hide DnfInput, IsEnd, Replacement, HasBinder;
      changed, raised := changedIn, false;
      if IsEnd(t) {
        return t, changed, Refused(t);
      }
      if t in visited {
        return visited[t], changed, false;
      }
      PassUnfolds(t, visited, changedIn);
      if t.kind.Let? {
        LetRankDrops(t);
        r, changed, raised := Pass1(ExpandLet(t), changed);
        if !raised {
          visited := visited[t := r];
        }
        return;
      }
      var shared := SharesFlag(t.kind);
      LookedRank(t);
      var cs, any;
      cs, any, raised := PassOperands(Looked(t), shared, shared && changed);
      if raised {
        return t, changed, true;
      }
      changed := changed || any;
      r := Replacement(t, cs, changed);
      if !IsJunction(t.kind) {
        changed := true;
      }
      visited := visited[t := r];
    }

    method PassOperands(ts: seq<Term>, shared: bool, changedIn: bool)
      returns (cs: seq<Term>, changed: bool, raised: bool)
      requires AllDnfInput(ts, Any())
      modifies this
      ensures raised <==> RaisesIn(ts, old(visited), shared, changedIn)
      ensures !raised ==> PassAll(cs, visited, changed) == EliminateAll(ts, old(visited), shared, changedIn)
      decreases RankAll(ts), ts, 0
    {
      hide DnfInput, Eliminate, HasBinder, Raises;
      cs, changed, raised := [], changedIn, false;
      for i := 0 to |ts|
        invariant AllDnfInput(ts[..i], Any())
        invariant !raised && !RaisesIn(ts[..i], old(visited), shared, changedIn)
        invariant PassAll(cs, visited, changed) == EliminateAll(ts[..i], old(visited), shared, changedIn)
      {
        assert ts[..i + 1][..i] == ts[..i];
        assert HasBinder(ts[i]) ==> AnyHasBinder(ts);
        var c, set1, stop := Pass1(ts[i], shared && changed);
        if stop {
          RaisesEarly(ts, i + 1, old(visited), shared, changedIn);
          return cs, changed, true;
        }
        cs := cs + [c];
        changed := changed || set1;
      }
      assert ts[..|ts|] == ts;
    }

    /** Passes until the flag stays clear: at most two. Unless a node is refused,
        which does not happen to positive formulas, the truth value is kept
        in every model that reads the implications and negates the comparisons
        right. The table, and with it the result, is free of connectives exactly
        if the first pass overlooks none; a formula that shares none is such a
        one. */
    method ToDnfEliminateAll(t: Term) returns (r: Term, raised: bool, ghost rounds: nat)
      requires DnfInput(t, Any()) && visited == map[]
      modifies this
      ensures raised <==> ConversionRaises(t)
      ensures rounds <= 2 && (!raised ==> DnfInput(r, Any()))
      ensures !raised ==> forall m: Model :: DnfInput(t, ReadIn(m)) ==> DnfInput(r, ReadIn(m)) && Holds(r, m) == Holds(t, m)
      ensures !raised ==> (TableFree(visited) <==> !Overlooks(t, map[], false))
      ensures !raised && TableFree(visited) ==> Free(r)
      ensures !raised && Unshared(t) ==> TableFree(visited)
      ensures Positive(t, true) ==> !raised && Positive(r, true)
    {
      hide DnfInput, Clean, Holds, Eliminate, TableFree, Overlooks, Unshared, Free, TableClean, TableInput, Raises, Positive;
      hide TablePositive;
      r, raised, rounds := t, false, 0;
      var changed := true;
      StartTable(t);
      PassIsInput(t, map[], false);
      ghost var first := Eliminate(t, map[], false);
      while changed
        invariant DnfInput(r, Any()) && TableClean(visited) && TableInput(visited) && !raised
        invariant forall m: Model :: DnfInput(t, ReadIn(m)) ==> Kept(t, r, visited, m)
        invariant rounds + Measure(r, visited, changed) <= 2
        invariant rounds == 0 ==> r == t && visited == map[] && changed
        invariant rounds == 1 ==> Pass(r, visited, changed) == first
        invariant rounds >= 1 ==> !Raises(t, map[], false)
        invariant rounds == 2 ==> !changed && !ConversionRaises(t)
        invariant rounds > 0 ==> (TableFree(visited) <==> !Overlooks(t, map[], false))
        invariant rounds > 0 && TableFree(visited) ==> Free(r)
        invariant TablePositive(visited) && (Positive(t, true) ==> Positive(r, true))
        decreases Measure(r, visited, changed)
      {
        RoundStep(t, r, visited);
        FreeExact(r, visited, false);
        PassPositive(r, visited, false);
        if rounds > 0 && TableFree(visited) {
          FreeOverlooksNothing(r, visited, false);
        }
        r, changed, raised := Pass1(r, false);
        rounds := rounds + 1;
        if raised {
          break;
        }
      }
      if Unshared(t) {
        UnsharedComplete(t, map[], false);
      }
      if Positive(t, true) {
        PositiveConverts(t);
      }
    }
  }

  /** An error in a prefix of the operands is an error in all of them. */
  lemma {:induction false} RaisesEarly(ts: seq<Term>, n: nat, visited: map<Term, Term>, shared: bool, changed: bool)
    requires n <= |ts| && AllDnfInput(ts, Any()) && AllDnfInput(ts[..n], Any())
    requires RaisesIn(ts[..n], visited, shared, changed)
    ensures RaisesIn(ts, visited, shared, changed)
    decreases |ts|
  {
    hide DnfInput, Eliminate, Raises, HasBinder;
    if n == |ts| {
      assert ts[..n] == ts;
    } else {
      var k := |ts| - 1;
      assert ts[..k][..n] == ts[..n];
      RaisesEarly(ts[..k], n, visited, shared, changed);
    }
  }

  lemma StartTable(t: Term)
    ensures TableClean(map[]) && TableInput(map[]) && TableFree(map[]) && Measure(t, map[], true) <= 2
    ensures TablePositive(map[])
    ensures forall m: Model :: DnfInput(t, ReadIn(m)) ==> Kept(t, t, map[], m)
  {
  }

  ghost predicate Kept(t: Term, r: Term, visited: map<Term, Term>, m: Model) {
    DnfInput(r, ReadIn(m)) && Holds(r, m) == Holds(t, m) && TableHolds(visited, m)
  }

  ghost function Measure(t: Term, visited: map<Term, Term>, changed: bool): nat {
    if !changed then 0 else if Clean(t, visited.Keys) then 1 else 2
  }

  lemma RoundStep(t: Term, r: Term, visited: map<Term, Term>)
    requires DnfInput(r, Any()) && TableClean(visited) && TableInput(visited)
    requires forall m: Model :: DnfInput(t, ReadIn(m)) ==> Kept(t, r, visited, m)
    ensures var p := Eliminate(r, visited, false);
            && DnfInput(p.term, Any()) && TableClean(p.visited) && TableInput(p.visited)
            && (forall m: Model :: DnfInput(t, ReadIn(m)) ==> Kept(t, p.term, p.visited, m))
            && Measure(p.term, p.visited, p.changed) < Measure(r, visited, true)
  {
    hide DnfInput, Clean, Holds, Eliminate, TableHolds, TableClean, TableInput;
    var p := Eliminate(r, visited, false);
    forall m: Model | DnfInput(t, ReadIn(m))
      ensures Kept(t, p.term, p.visited, m)
    {
      EliminateHolds(r, visited, false, m);
    }
    PassIsInput(r, visited, false);
    EliminateClean(r, visited, false);
    if Clean(r, visited.Keys) {
      CleanUnchanged(r, visited);
    }
  }

  // ------------------------------------------------------------------
  // A shared operand
  // ------------------------------------------------------------------

  lemma EliminatePair(a: Term, b: Term, visited: map<Term, Term>, shared: bool, changed: bool)
    requires DnfInput(a, Any()) && DnfInput(b, Any())
    ensures AllDnfInput([a, b], Any())
    ensures var p := Eliminate(a, visited, shared && changed);
            var q := Eliminate(b, p.visited, shared && (changed || p.changed));
            EliminateAll([a, b], visited, shared, changed) == PassAll([p.term, q.term], q.visited, changed || p.changed || q.changed)
  {
    hide DnfInput, Eliminate;
    var one, two := [a], [a, b];
    assert one[..0] == [] && two[..1] == one;
    assert EliminateAll(one[..0], visited, shared, changed) == PassAll([], visited, changed);
    var p := Eliminate(a, visited, shared && changed);
    assert EliminateAll(one, visited, shared, changed) == PassAll([p.term], p.visited, changed || p.changed);
  }

  lemma JunctionIsNode(k: Kind, a: Term, b: Term)
    requires (k.And? || k.Or? || k.Xor?) && DnfInput(a, Any()) && DnfInput(b, Any())
    ensures var t := MkOper(Bool, k, [a, b]);
            DnfInput(t, Any()) && !IsEnd(t) && Looked(t) == [a, b]
  {
    var t := MkOper(Bool, k, [a, b]);
    assert Looked(t)[0] == a && Looked(t)[1] == b;
  }

  /** A conjunction of a node in the table and a leaf is kept as it stands: a
      table hit is not a change. */
  lemma SharedOperandStays(x: Term, c: Term, visited: map<Term, Term>)
    requires DnfInput(x, Any()) && !IsEnd(x) && x in visited && DnfInput(c, Any()) && IsEnd(c)
    requires MkOper(Bool, And, [x, c]) !in visited
    ensures var t := MkOper(Bool, And, [x, c]);
            DnfInput(t, Any()) && Eliminate(t, visited, false) == Pass(t, visited[t := t], false)
  {
    hide DnfInput, IsEnd;
    var t := MkOper(Bool, And, [x, c]);
    JunctionIsNode(And, x, c);
    EliminatePair(x, c, visited, false, false);
    PassUnfolds(t, visited, false);
  }

  /** `(or x (and x c))` for any x above the leaves that is not itself kept, and
      a leaf c: the first pass replaces x where it meets it first, and keeps
      `(and x c)`, x and all. */
  lemma FirstPassOverlooks(x: Term, c: Term)
    requires DnfInput(x, Any()) && !IsEnd(x) && !Free(x) && DnfInput(c, Any()) && IsEnd(c)
    requires Eliminate(x, map[], false).changed
    ensures var kept := MkOper(Bool, And, [x, c]);
            var t := MkOper(Bool, Or, [x, kept]);
            && DnfInput(t, Any()) && Overlooks(t, map[], false)
            && Eliminate(t, map[], false).term == MkOr([Eliminate(x, map[], false).term, kept])
            && kept in Eliminate(t, map[], false).visited && Eliminate(t, map[], false).visited[kept] == kept
            && !Free(kept)
  {
    hide DnfInput, IsEnd, Eliminate, Reach, MkOr, HasBinder;
    var kept := MkOper(Bool, And, [x, c]);
    var t := MkOper(Bool, Or, [x, kept]);
    JunctionIsNode(And, x, c);
    JunctionIsNode(Or, x, kept);
    var p := Eliminate(x, map[], false);
    PassExtends(x, map[], false);
    NotBelowItself(kept);
    ReachOf(Looked(kept), 0);
    SharedOperandStays(x, c, p.visited);
    EliminatePair(x, kept, map[], false, false);
    PassUnfolds(t, map[], false);
    NotBelowItself(t);
    ReachOf(Looked(t), 1);
    assert t != kept;
    assert !Free(Looked(kept)[0]);
    EliminatePair(x, c, p.visited, false, false);
    KeptIsOverlooked(kept, p.visited);
    OverlookedSecond(x, kept, p.visited);
  }

  lemma KeptIsOverlooked(kept: Term, visited: map<Term, Term>)
    requires DnfInput(kept, Any()) && kept.kind.And? && !IsEnd(kept) && kept !in visited && !Free(kept)
    requires !Eliminate(kept, visited, false).changed
    ensures Overlooks(kept, visited, false)
  {
    hide DnfInput, IsEnd, Free, EliminateAll, Replacement;
    PassUnfolds(kept, visited, false);
  }

  lemma OverlookedSecond(x: Term, kept: Term, visited: map<Term, Term>)
    requires DnfInput(x, Any()) && DnfInput(kept, Any()) && visited == Eliminate(x, map[], false).visited
    requires Overlooks(kept, visited, false)
    ensures var t := MkOper(Bool, Or, [x, kept]);
            DnfInput(t, Any()) && Overlooks(t, map[], false)
  {
    hide DnfInput, IsEnd, Free, Eliminate;
    var t := MkOper(Bool, Or, [x, kept]);
    JunctionIsNode(Or, x, kept);
    var one := [x];
    assert [x, kept][..1] == one && one[..0] == [];
    assert EliminateAll(one[..0], map[], false, false) == PassAll([], map[], false);
    assert EliminateAll(one, map[], false, false).visited == visited;
    assert OverlooksIn([x, kept], map[], false, false);
    OrOverlooks(t);
  }

  lemma OrOverlooks(t: Term)
    requires DnfInput(t, Any()) && t.kind.Or? && !IsEnd(t) && AllDnfInput(Looked(t), Any())
    requires OverlooksIn(Looked(t), map[], false, false)
    ensures Overlooks(t, map[], false)
  {
    hide DnfInput, IsEnd, Free, EliminateAll, OverlooksIn;
  }

  const XorXY := MkOper(Bool, Xor, [BoolX, BoolY])
  const XorAndZ := MkOper(Bool, And, [XorXY, BoolZ])

  /** `(or (xor x y) (and (xor x y) z))` from an empty table: the first pass
      leaves the second exclusive or in place, the second finds nothing to do,
      and the loop ends there. */
  lemma SharedXorStays() returns (t: Term, r: Term)
    ensures t == MkOper(Bool, Or, [XorXY, XorAndZ]) && r == MkOper(Bool, Or, [XorPair(BoolX, BoolY), XorAndZ])
    ensures DnfInput(t, Any()) && DnfInput(r, Any()) && !Free(r)
    ensures var p := Eliminate(t, map[], false);
            p.term == r && p.changed && Eliminate(r, p.visited, false).term == r && !Eliminate(r, p.visited, false).changed
  {
    hide DnfInput, IsEnd, Eliminate, Free, Overlooks, Clean, TableClean, TableInput, Reach, MkOr, XorPair;
    t, r := MkOper(Bool, Or, [XorXY, XorAndZ]), MkOper(Bool, Or, [XorPair(BoolX, BoolY), XorAndZ]);
    XorIsInput();
    XorChanges(XorXY);
    FirstPassOverlooks(XorXY, BoolZ);
    XorPassed();
    NodeOfTwo(XorPair(BoolX, BoolY), XorAndZ);
    EmptyTable();
    PassIsInput(t, map[], false);
    EliminateClean(t, map[], false);
    PassExtends(t, map[], false);
    NotReached(t, r);
    FixedPoint(r, Eliminate(t, map[], false).visited);
    StillThere(r);
    if !Eliminate(t, map[], false).changed {
      NotKept(t, r);
    }
  }

  lemma XorIsInput()
    ensures DnfInput(XorXY, Any()) && !IsEnd(XorXY) && DnfInput(BoolZ, Any()) && IsEnd(BoolZ)
    ensures DnfInput(BoolX, Any()) && DnfInput(BoolY, Any())
    ensures XorPair(BoolX, BoolY).kind.Or? && DnfInput(XorPair(BoolX, BoolY), Any())
  {
    hide XorPair, DnfInput, IsEnd;
    VarIsInput(BoolX);
    VarIsInput(BoolY);
    VarIsInput(BoolZ);
    JunctionIsNode(Xor, BoolX, BoolY);
    PairsAreInputs(BoolX, BoolY, Any());
    XorPairNode();
  }

  lemma VarIsInput(v: Term)
    requires v.kind.Var? && v.sort == Bool
    ensures DnfInput(v, Any()) && IsEnd(v)
  {
  }

  lemma XorPairNode()
    ensures XorPair(BoolX, BoolY).kind.Or?
  {
    hide MkAnd, MkOr;
    var nx, ny := MkNot(BoolX), MkNot(BoolY);
    NodeOfTwo(BoolX, ny);
    NodeOfTwo(nx, BoolY);
    NodeOfTwo(MkOper(Bool, And, [BoolX, ny]), MkOper(Bool, And, [nx, BoolY]));
  }

  /** Different operands that are no constants are joined as they are. */
  lemma NodeOfTwo(a: Term, b: Term)
    requires a != b && !IsConst(a) && !IsConst(b)
    ensures MkAnd([a, b]) == MkOper(Bool, And, [a, b]) && MkOr([a, b]) == MkOper(Bool, Or, [a, b])
  {
    hide Dedup, Without;
    WithoutNone([a, b], ConstFalse);
    WithoutNone([a, b], ConstTrue);
    DedupPair(a, b);
  }

  lemma DedupPair(a: Term, b: Term)
    requires a != b
    ensures Dedup([a, b]) == [a, b]
  {
    var one, two := [a], [a, b];
    assert two[..1] == one && one[..0] == [];
    assert Dedup(one) == [a];
  }

  lemma XorPassed()
    ensures DnfInput(XorXY, Any()) && Eliminate(XorXY, map[], false).term == XorPair(BoolX, BoolY)
  {
    hide XorPair, EliminateAll;
    XorIsInput();
    assert IsEnd(BoolX) && IsEnd(BoolY);
    EliminatePair(BoolX, BoolY, map[], true, false);
    PassUnfolds(XorXY, map[], false);
  }

  lemma NotReached(t: Term, r: Term)
    requires t == MkOper(Bool, Or, [XorXY, XorAndZ]) && r == MkOper(Bool, Or, [XorPair(BoolX, BoolY), XorAndZ])
    requires XorPair(BoolX, BoolY).kind.Or?
    ensures r !in Reach(t)
  {
    hide XorPair, Reach;
    if r in Reach(t) {
      ReachUnfolds(t);
      ReachUnfolds(XorXY);
      ReachUnfolds(XorAndZ);
      assert IsEnd(BoolX) && IsEnd(BoolY) && IsEnd(BoolZ);
      ReachUnfolds(BoolX);
      ReachUnfolds(BoolY);
      ReachUnfolds(BoolZ);
    }
  }

  /** What a node over two operands reaches. */
  lemma ReachUnfolds(t: Term)
    requires !t.kind.Let?
    ensures IsEnd(t) ==> Reach(t) == {}
    ensures !IsEnd(t) && |Looked(t)| == 2 ==> Reach(t) == {t} + Reach(Looked(t)[0]) + Reach(Looked(t)[1])
  {
    if !IsEnd(t) && |Looked(t)| == 2 {
      var ts := Looked(t);
      assert ts[..1] == [ts[0]] && ts[..1][..0] == [];
      assert ReachAll(ts[..1]) == Reach(ts[0]);
    }
  }

  lemma StillThere(r: Term)
    requires r == MkOper(Bool, Or, [XorPair(BoolX, BoolY), XorAndZ])
    ensures !Free(r)
  {
    hide XorPair;
    assert Looked(r)[1] == XorAndZ && Looked(XorAndZ)[0] == XorXY && !Free(XorXY);
  }

  lemma NotKept(t: Term, r: Term)
    requires DnfInput(t, Any()) && t.kind.Or? && !IsEnd(t) && Eliminate(t, map[], false).term == r
    ensures !Eliminate(t, map[], false).changed ==> r == t
  {
    hide DnfInput, IsEnd, EliminateAll;
    PassUnfolds(t, map[], false);
  }

  lemma EmptyTable()
    ensures TableInput(map[]) && TableClean(map[])
  {
  }

  lemma XorChanges(x: Term)
    requires DnfInput(x, Any()) && x.kind.Xor? && !IsEnd(x)
    ensures Eliminate(x, map[], false).changed && !Free(x)
  {
    hide DnfInput, IsEnd, Replacement;
    PassUnfolds(x, map[], false);
  }

  /** A clean disjunction that is not in the table is returned as it is. */
  lemma FixedPoint(r: Term, visited: map<Term, Term>)
    requires DnfInput(r, Any()) && Clean(r, visited.Keys) && r.kind.Or?
    ensures !Eliminate(r, visited, false).changed
    ensures r !in visited ==> Eliminate(r, visited, false).term == r
  {
    hide DnfInput, IsEnd, Clean, EliminateAll;
    CleanUnchanged(r, visited);
    if !IsEnd(r) && r !in visited {
      PassUnfolds(r, visited, false);
    }
  }

  // ------------------------------------------------------------------
  // A negated equality of strings
  // ------------------------------------------------------------------

  /** `(=> a p)` for every equality a of string terms and every variable p: the
      first pass turns a into `distinct`, which the second refuses. */
  lemma {:induction false} NegatedStringRaises(a: Term, p: Term)
    requires IsStrEq(a) && a.sort == Bool && p.kind.Var? && p.sort == Bool
    ensures var t := MkOper(Bool, Implies, [a, p]);
            DnfInput(t, Any()) && ConversionRaises(t)
  {
    hide IsStrTerm, IsArithTerm, ConversionRaises, MkOr;
    var t := MkOper(Bool, Implies, [a, p]);
    var d := MkNot(a);
    ImpliesNode(a, p);
    EliminatePair(a, p, map[], true, false);
    SwapIsEnd(a);
    TermsApart(a.children[0]);
    assert Eliminate(t, map[], false).term == MkOr([d, p]) && Eliminate(t, map[], false).changed;
    NodeOfTwo(d, p);
    RefusedOperand(d, p, Eliminate(t, map[], false).visited);
    SecondRaises(t, MkOper(Bool, Or, [d, p]));
  }

  lemma {:induction false} ImpliesNode(a: Term, p: Term)
    requires IsStrEq(a) && a.sort == Bool && p.kind.Var? && p.sort == Bool
    ensures var t := MkOper(Bool, Implies, [a, p]);
            && DnfInput(t, Any()) && !IsEnd(t) && Looked(t) == [a, p]
            && DnfInput(a, Any()) && IsEnd(a) && DnfInput(p, Any()) && IsEnd(p)
  {
    hide IsStrTerm, IsArithTerm;
    var t := MkOper(Bool, Implies, [a, p]);
    assert Looked(t)[0] == a && Looked(t)[1] == p;
  }

  lemma {:induction false} RefusedOperand(d: Term, p: Term, visited: map<Term, Term>)
    requires DnfInput(d, Any()) && Refused(d) && DnfInput(p, Any())
    requires MkOper(Bool, Or, [d, p]) !in visited
    ensures var t := MkOper(Bool, Or, [d, p]);
            DnfInput(t, Any()) && Raises(t, visited, false)
  {
    hide DnfInput, Refused;
    JunctionIsNode(Or, d, p);
    var one, two := [d], [d, p];
    assert one[..0] == [] && two[..1] == one;
    assert EliminateAll(one[..0], visited, false, false).visited == visited;
    assert AllDnfInput(one, Any()) && AllDnfInput(two, Any());
    assert RaisesIn(one, visited, false, false);
    assert RaisesIn(two, visited, false, false);
  }

  lemma SecondRaises(t: Term, r: Term)
    requires DnfInput(t, Any()) && DnfInput(r, Any())
    requires var p := Eliminate(t, map[], false);
             p.term == r && p.changed && Raises(r, p.visited, false)
    ensures ConversionRaises(t)
  {
    hide DnfInput, Eliminate, Raises;
  }
}
