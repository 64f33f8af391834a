// Directed graphs over names: paths, reachability, closed sets.
module Digraph {

  type Graph = map<string, set<string>>

  function Succ(g: Graph, v: string): set<string> {
    if v in g then g[v] else {}
  }

  ghost predicate IsPath(g: Graph, p: seq<string>) {
    && |p| > 0
    && forall i | 0 <= i < |p| - 1 :: p[i + 1] in Succ(g, p[i])
  }

  ghost predicate PathFromTo(g: Graph, p: seq<string>, a: string, b: string) {
    IsPath(g, p) && p[0] == a && p[|p| - 1] == b
  }

  /** Reachability by zero or more edges. */
  ghost predicate Reaches(g: Graph, a: string, b: string) {
    exists p :: PathFromTo(g, p, a, b)
  }

  /** Reachability by one or more edges. */
  ghost predicate ReachesByEdge(g: Graph, a: string, b: string) {
    exists c :: c in Succ(g, a) && Reaches(g, c, b)
  }

  ghost predicate ClosedUnderSucc(g: Graph, vs: set<string>) {
    forall x, z | x in vs && z in Succ(g, x) :: z in vs
  }

  lemma ReachesSelf(g: Graph, a: string)
    ensures Reaches(g, a, a)
  {
    assert PathFromTo(g, [a], a, a);
  }

  lemma ReachesEdge(g: Graph, a: string, b: string)
    requires b in Succ(g, a)
    ensures Reaches(g, a, b)
  {
    assert PathFromTo(g, [a, b], a, b);
  }

  lemma ReachesTransitive(g: Graph, a: string, b: string, c: string)
    requires Reaches(g, a, b) && Reaches(g, b, c)
    ensures Reaches(g, a, c)
  {
    var p :| PathFromTo(g, p, a, b);
    var q :| PathFromTo(g, q, b, c);
    var r := p + q[1..];
    forall i | 0 <= i < |r| - 1
      ensures r[i + 1] in Succ(g, r[i])
    {
      if i >= |p| - 1 {
        assert r[i] == q[i - |p| + 1] && r[i + 1] == q[i - |p| + 2];
      }
    }
    assert PathFromTo(g, r, a, c);
  }

  /** A set closed under successors is closed under reachability. */
  lemma ClosedReaches(g: Graph, vs: set<string>, a: string, b: string)
    requires forall x, z | x in vs && z in Succ(g, x) :: z in vs
    requires a in vs && Reaches(g, a, b)
    ensures b in vs
  {
    var p :| PathFromTo(g, p, a, b);
    ClosedPath(g, vs, p, |p| - 1);
  }

  lemma {:induction false} ClosedPath(g: Graph, vs: set<string>, p: seq<string>, i: nat)
    requires forall x, z | x in vs && z in Succ(g, x) :: z in vs
    requires IsPath(g, p) && p[0] in vs && i < |p|
    ensures p[i] in vs
  {
    if i > 0 {
      ClosedPath(g, vs, p, i - 1);
      assert p[i - 1 + 1] in Succ(g, p[i - 1]);
    }
  }
}
