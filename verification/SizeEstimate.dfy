// dump_size_estimate: the size of the printed tree of a shared term, cut off
// at a cap, without walking the tree.
module SizeEstimate {
  import opened Terms
  import opened PostOrder

  function Min(a: nat, b: nat): nat { if a < b then a else b }

  /** Size of the fully expanded tree: the name and four characters for every
      node, one more for every child. */
  function FullSize(t: Term): nat
    decreases t, 1
  {
    |t.name| + 4 + FullSizes(t.children)
  }

  function FullSizes(ts: seq<Term>): nat
    decreases ts, 0
  {
    if ts == [] then 0 else FullSizes(ts[..|ts| - 1]) + FullSize(ts[|ts| - 1]) + 1
  }

  /** The children's sizes, each cut off first. */
  function CappedSizes(ts: seq<Term>, cap: nat): nat
    decreases ts
  {
    if ts == [] then 0 else CappedSizes(ts[..|ts| - 1], cap) + Min(cap, FullSize(ts[|ts| - 1])) + 1
  }

  /** Cutting off the parts does not change the cut-off sum. */
  lemma {:induction false} CappedSum(ts: seq<Term>, cap: nat)
    ensures CappedSizes(ts, cap) <= FullSizes(ts)
    ensures CappedSizes(ts, cap) < FullSizes(ts) ==> cap < CappedSizes(ts, cap)
  {
    hide FullSize;
    if ts != [] {
      CappedSum(ts[..|ts| - 1], cap);
    }
  }

  lemma CapOfParts(t: Term, cap: nat)
    ensures Min(cap, |t.name| + 4 + CappedSizes(t.children, cap)) == Min(cap, FullSize(t))
  {
    CappedSum(t.children, cap);
  }

  lemma {:induction false} SizeAllAppend(ts: seq<Term>, i: nat)
    requires i < |ts|
    ensures SizeAll(ts[..i + 1]) == SizeAll(ts[..i]) + Size(ts[i])
  {
    hide Size;
    if i == 0 {
      assert ts[..1] == [ts[0]] && ts[..1][1..] == [];
    } else {
      SizeAllAppend(ts[1..], i - 1);
      assert ts[..i + 1][1..] == ts[1..][..i] && ts[..i][1..] == ts[1..][..i - 1];
    }
  }

  /** Covering one more operand. */
  lemma CoverNext(cs: seq<Term>, k: nat, done: set<Term>, pushed: seq<Visit>, next: seq<Visit>)
    requires k < |cs| && AllCovered(cs[..k], done, pushed, 0)
    requires pushed <= next && (cs[k] in done || (|next| > 0 && next[|next| - 1].node == cs[k]))
    ensures AllCovered(cs[..k + 1], done, next, 0)
  {
    var upTo := cs[..k + 1];
    forall i | 0 <= i < |upTo|
      ensures Covered(upTo[i], done, next, 0)
    {
      if i < k {
        assert upTo[i] == cs[..k][i];
        assert Covered(cs[..k][i], done, pushed, 0);
        if cs[i] !in done {
          var j :| 0 <= j < |pushed| && pushed[j].node == cs[i];
          assert next[j].node == cs[i];
        }
      }
    }
  }

  ghost predicate MemoOk(memo: map<Term, nat>, cap: nat) {
    forall t | t in memo :: memo[t] == Min(cap, FullSize(t))
  }

  ghost function Nodes(visits: seq<Visit>): seq<Term> {
    seq(|visits|, i requires 0 <= i < |visits| => visits[i].node)
  }

  /** One look at the children of `t`: adds up those that are known and lists
      the others. */
  method ScanChildren(t: Term, memo: map<Term, nat>, cap: nat)
    returns (total: nat, missing: seq<Term>, ghost pushed: seq<Visit>)
    requires MemoOk(memo, cap)
    ensures Nodes(pushed) == missing && (forall j | 0 <= j < |pushed| :: !pushed[j].ready)
    ensures AllCovered(t.children, memo.Keys, pushed, 0) && Weight(pushed) <= 2 * SizeAll(t.children)
    ensures missing == [] ==> total == |t.name| + 4 + CappedSizes(t.children, cap)
    ensures AllDone(t.children, memo.Keys) ==> missing == []
  {
    hide AllCovered, Size, FullSize;
    total, missing, pushed := |t.name| + 4, [], [];
    var cs := t.children;
    assert AllCovered(cs[..0], memo.Keys, pushed, 0) by { NoneToCover(memo.Keys, pushed); }
    for i := 0 to |cs|
      invariant |pushed| == |missing| && Nodes(pushed) == missing && forall j | 0 <= j < |pushed| :: !pushed[j].ready
      invariant AllCovered(cs[..i], memo.Keys, pushed, 0) && Weight(pushed) <= 2 * SizeAll(cs[..i])
      invariant missing == [] ==> total == |t.name| + 4 + CappedSizes(cs[..i], cap)
      invariant AllDone(cs, memo.Keys) ==> missing == []
    {
      assert cs[..i + 1][..i] == cs[..i];
      SizeAllAppend(cs, i);
      ghost var before := pushed;
      if cs[i] !in memo {
        missing := missing + [cs[i]];
        pushed := pushed + [Visit(cs[i], false)];
        assert pushed[..|pushed| - 1] == before;
      } else {
        total := total + memo[cs[i]] + 1;
      }
      CoverNext(cs, i, memo.Keys, before, pushed);
    }
    assert cs[..|cs|] == cs;
  }

  /** The estimate is the true size, cut off at the cap. */
  method DumpSizeEstimate(root: Term, cap: nat) returns (r: nat)
    ensures r == Min(cap, FullSize(root))
  {
    hide Waiting, Covered, AllCovered, Size, FullSize;
    var memo: map<Term, nat> := map[];
    var stack := [root];
    ghost var visits := [Visit(root, false)];
    StartState(root, memo.Keys, Kids());
    while stack != []
      invariant MemoOk(memo, cap) && stack == Nodes(visits)
      invariant Waiting(visits, memo.Keys, Kids()) && Covered(root, memo.Keys, visits, 0)
      decreases Weight(visits)
    {
      var cur := stack[|stack| - 1];
      ghost var done := memo.Keys;
      ghost var top := visits[|visits| - 1];
      if cur in memo {
        Pop(visits, done, done, Kids(), root);
        stack, visits := stack[..|stack| - 1], visits[..|visits| - 1];
      } else {
        var total, missing, pushed := ScanChildren(cur, memo, cap);
        if missing == [] {
          CapOfParts(cur, cap);
          memo := memo[cur := if total > cap then cap else total];
          Pop(visits, done, memo.Keys, Kids(), root);
          stack, visits := stack[..|stack| - 1], visits[..|visits| - 1];
        } else {
          SecondVisit(visits, done);
          SizeOfNode(cur);
          Schedule(visits, done, Kids(), pushed, root);
          stack := stack + missing;
          visits := visits[..|visits| - 1] + [Visit(cur, true)] + pushed;
        }
      }
    }
    NothingLeft(root, memo.Keys);
    r := memo[root];
  }

  /** A node met again has no unknown child left. */
  lemma SecondVisit(visits: seq<Visit>, done: set<Term>)
    requires visits != [] && Waiting(visits, done, Kids())
    ensures visits[|visits| - 1].ready ==> AllDone(visits[|visits| - 1].node.children, done)
  {
    if visits[|visits| - 1].ready {
      TopIsReady(visits, done, Kids());
    }
  }
}
