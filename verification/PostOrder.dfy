// Worklists of (node, ready) pairs: what replaces post-order recursion.
module PostOrder {
  import opened Terms

  /** A node is met first to schedule its operands and again, `ready`, when
      they are done. */
  datatype Visit = Visit(node: Term, ready: bool)

  function Cost(v: Visit): nat { if v.ready then 1 else 2 * Size(v.node) }

  /** Work left on a stack; falls with every iteration. */
  function Weight(stack: seq<Visit>): nat {
    if stack == [] then 0 else Weight(stack[..|stack| - 1]) + Cost(stack[|stack| - 1])
  }

  /** The node is done or still scheduled at `from` or above. */
  ghost predicate Covered(c: Term, done: set<Term>, stack: seq<Visit>, from: nat) {
    c in done || exists j :: from <= j < |stack| && stack[j].node == c
  }

  ghost predicate AllCovered(cs: seq<Term>, done: set<Term>, stack: seq<Visit>, from: nat) {
    forall i | 0 <= i < |cs| :: Covered(cs[i], done, stack, from)
  }

  /** Every operand of a ready node is done or above that node. */
  ghost predicate Waiting(stack: seq<Visit>, done: set<Term>, operands: Term -> seq<Term>) {
    forall i {:trigger stack[i]} | 0 <= i < |stack| ::
      stack[i].ready ==> AllCovered(operands(stack[i].node), done, stack, i + 1)
  }

  ghost predicate AllDone(cs: seq<Term>, done: set<Term>) { forall i | 0 <= i < |cs| :: cs[i] in done }

  /** The top of the stack has its operands done. */
  lemma TopIsReady(stack: seq<Visit>, done: set<Term>, operands: Term -> seq<Term>)
    requires stack != [] && Waiting(stack, done, operands) && stack[|stack| - 1].ready
    ensures AllDone(operands(stack[|stack| - 1].node), done)
  {
    var cs := operands(stack[|stack| - 1].node);
    assert AllCovered(cs, done, stack, |stack|);
    forall i | 0 <= i < |cs|
      ensures cs[i] in done
    {
      assert Covered(cs[i], done, stack, |stack|);
    }
  }

  lemma CoveredAfterPop(c: Term, done: set<Term>, more: set<Term>, stack: seq<Visit>, from: nat)
    requires stack != [] && Covered(c, done, stack, from)
    requires done <= more && stack[|stack| - 1].node in more
    ensures Covered(c, more, stack[..|stack| - 1], from)
  {
    if c !in more {
      var j :| from <= j < |stack| && stack[j].node == c;
      assert stack[..|stack| - 1][j].node == c;
    }
  }

  /** Popping a node that is done by now. */
  lemma Pop(stack: seq<Visit>, done: set<Term>, more: set<Term>, operands: Term -> seq<Term>, root: Term)
    requires stack != [] && Waiting(stack, done, operands) && Covered(root, done, stack, 0)
    requires done <= more && stack[|stack| - 1].node in more
    ensures var below := stack[..|stack| - 1];
            && Waiting(below, more, operands) && Covered(root, more, below, 0)
            && Weight(below) < Weight(stack)
  {
    hide Covered, AllCovered;
    var below := stack[..|stack| - 1];
    forall i {:trigger below[i]} | 0 <= i < |below| && below[i].ready
      ensures AllCovered(operands(below[i].node), more, below, i + 1)
    {
      AllCoveredAfterPop(operands(stack[i].node), done, more, stack, i + 1);
    }
    CoveredAfterPop(root, done, more, stack, 0);
    CostIsPositive(stack[|stack| - 1]);
  }

  lemma AllCoveredAfterPop(cs: seq<Term>, done: set<Term>, more: set<Term>, stack: seq<Visit>, from: nat)
    requires stack != [] && AllCovered(cs, done, stack, from)
    requires done <= more && stack[|stack| - 1].node in more
    ensures AllCovered(cs, more, stack[..|stack| - 1], from)
  {
    hide Covered;
    forall i | 0 <= i < |cs|
      ensures Covered(cs[i], more, stack[..|stack| - 1], from)
    {
      CoveredAfterPop(cs[i], done, more, stack, from);
    }
  }

  lemma CostIsPositive(v: Visit)
    ensures Cost(v) > 0
  {
  }

  /** Replacing a first visit by a second one below the visits of those
      operands that are not done. */
  lemma Schedule(stack: seq<Visit>, done: set<Term>, operands: Term -> seq<Term>, pushed: seq<Visit>, root: Term)
    requires stack != [] && Waiting(stack, done, operands) && Covered(root, done, stack, 0)
    requires !stack[|stack| - 1].ready
    requires forall j | 0 <= j < |pushed| :: !pushed[j].ready
    requires AllCovered(operands(stack[|stack| - 1].node), done, pushed, 0)
    requires 1 + Weight(pushed) < 2 * Size(stack[|stack| - 1].node)
    ensures var next := stack[..|stack| - 1] + [Visit(stack[|stack| - 1].node, true)] + pushed;
            && Waiting(next, done, operands) && Covered(root, done, next, 0)
            && Weight(next) < Weight(stack)
  {
    hide Covered, AllCovered;
    var n := |stack| - 1;
    var top := stack[n].node;
    var base := stack[..n] + [Visit(top, true)];
    var next := base + pushed;
    forall i {:trigger next[i]} | 0 <= i < |next| && next[i].ready
      ensures AllCovered(operands(next[i].node), done, next, i + 1)
    {
      if i < n {
        assert next[i] == stack[i];
        AllCoveredAfterPush(operands(stack[i].node), done, stack, next, i + 1);
      } else {
        assert i == n;
        AllCoveredAbove(operands(top), done, pushed, base);
      }
    }
    CoveredAfterPush(root, done, stack, next, 0);
    WeightOfConcat(base, pushed);
    assert base[..n] == stack[..n];
  }

  lemma CoveredAfterPush(c: Term, done: set<Term>, stack: seq<Visit>, next: seq<Visit>, from: nat)
    requires Covered(c, done, stack, from) && |stack| <= |next|
    requires forall j | 0 <= j < |stack| :: next[j].node == stack[j].node
    ensures Covered(c, done, next, from)
  {
    if c !in done {
      var j :| from <= j < |stack| && stack[j].node == c;
      assert next[j].node == c;
    }
  }

  lemma AllCoveredAfterPush(cs: seq<Term>, done: set<Term>, stack: seq<Visit>, next: seq<Visit>, from: nat)
    requires AllCovered(cs, done, stack, from) && |stack| <= |next|
    requires forall j | 0 <= j < |stack| :: next[j].node == stack[j].node
    ensures AllCovered(cs, done, next, from)
  {
    hide Covered;
    forall i | 0 <= i < |cs|
      ensures Covered(cs[i], done, next, from)
    {
      CoveredAfterPush(cs[i], done, stack, next, from);
    }
  }

  lemma AllCoveredAbove(cs: seq<Term>, done: set<Term>, pushed: seq<Visit>, base: seq<Visit>)
    requires AllCovered(cs, done, pushed, 0)
    ensures AllCovered(cs, done, base + pushed, |base|)
  {
    forall i | 0 <= i < |cs|
      ensures Covered(cs[i], done, base + pushed, |base|)
    {
      assert Covered(cs[i], done, pushed, 0);
      if cs[i] !in done {
        var j :| 0 <= j < |pushed| && pushed[j].node == cs[i];
        assert (base + pushed)[|base| + j].node == cs[i];
      }
    }
  }

  lemma {:induction false} WeightOfConcat(a: seq<Visit>, b: seq<Visit>)
    ensures Weight(a + b) == Weight(a) + Weight(b)
  {
    hide Cost;
    if b == [] {
      assert a + b == a;
    } else {
      var n := |b| - 1;
      WeightOfConcat(a, b[..n]);
      assert (a + b)[..|a + b| - 1] == a + b[..n];
    }
  }

  /** Adding one visit to what is scheduled. */
  lemma PushOne(cs: seq<Term>, k: nat, done: set<Term>, pushed: seq<Visit>, next: seq<Visit>)
    requires k < |cs| && AllCovered(cs[k + 1..], done, pushed, 0)
    requires pushed <= next && (cs[k] in done || (|next| > 0 && next[|next| - 1].node == cs[k]))
    ensures AllCovered(cs[k..], done, next, 0)
  {
    forall i | 0 <= i < |cs[k..]|
      ensures Covered(cs[k..][i], done, next, 0)
    {
      if i > 0 {
        assert cs[k..][i] == cs[k + 1..][i - 1];
        assert Covered(cs[k + 1..][i - 1], done, pushed, 0);
        if cs[k..][i] !in done {
          var j :| 0 <= j < |pushed| && pushed[j].node == cs[k..][i];
          assert next[j].node == cs[k..][i];
        }
      }
    }
  }

  /** First visits for the operands that are not done, the first on top. */
  method PushOperands(cs: seq<Term>, done: set<Term>) returns (pushed: seq<Visit>)
    ensures forall j | 0 <= j < |pushed| :: !pushed[j].ready && pushed[j].node in cs
    ensures AllCovered(cs, done, pushed, 0)
    ensures Weight(pushed) <= 2 * SizeAll(cs)
  {
    hide AllCovered, Size;
    pushed := [];
    var k := |cs|;
    assert AllCovered(cs[k..], done, pushed, 0) by { NoneToCover(done, pushed); }
    while k > 0
      invariant k <= |cs|
      invariant forall j | 0 <= j < |pushed| :: !pushed[j].ready && pushed[j].node in cs
      invariant AllCovered(cs[k..], done, pushed, 0)
      invariant Weight(pushed) <= 2 * SizeAll(cs[k..])
    {
      k := k - 1;
      ghost var before := pushed;
      assert cs[k..][1..] == cs[k + 1..];
      if cs[k] !in done {
        pushed := pushed + [Visit(cs[k], false)];
        assert pushed[..|pushed| - 1] == before;
      }
      PushOne(cs, k, done, before, pushed);
    }
    assert cs[0..] == cs;
  }

  lemma NoneToCover(done: set<Term>, pushed: seq<Visit>)
    ensures AllCovered([], done, pushed, 0)
  {
  }

  /** The operands of passes that visit every child. */
  ghost function Kids(): Term -> seq<Term> { (t: Term) => t.children }

  lemma StartState(root: Term, done: set<Term>, operands: Term -> seq<Term>)
    ensures Waiting([Visit(root, false)], done, operands) && Covered(root, done, [Visit(root, false)], 0)
  {
    assert [Visit(root, false)][0].node == root;
  }

  /** When the stack is empty the root is done. */
  lemma NothingLeft(root: Term, done: set<Term>)
    requires Covered(root, done, [], 0)
    ensures root in done
  {
  }

  lemma SizeOfNode(t: Term)
    ensures Size(t) == 1 + SizeAll(t.children)
  {
  }
}
