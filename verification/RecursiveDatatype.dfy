// isRecursiveDatatype: does a datatype contain itself through its selectors?
module RecursiveDatatype {
  import opened Digraph

  /** The sort of a selector, as far as the search looks at it. */
  datatype SelectorSort = Datatype(name: string) | OtherSort

  /** Constructors of every declared datatype, each a list of selector sorts. */
  type Declarations = map<string, seq<seq<SelectorSort>>>

  function Constructors(decls: Declarations, name: string): seq<seq<SelectorSort>> {
    if name in decls then decls[name] else []
  }

  function SelectorNames(ctors: seq<seq<SelectorSort>>): set<string> {
    set i, j | 0 <= i < |ctors| && 0 <= j < |ctors[i]| && ctors[i][j].Datatype? :: ctors[i][j].name
  }

  /** An edge for every selector of a datatype sort. */
  function SelectorGraph(decls: Declarations): Graph {
    map n | n in decls :: SelectorNames(decls[n])
  }

  lemma SelectorEdges(decls: Declarations, name: string)
    ensures Succ(SelectorGraph(decls), name) == SelectorNames(Constructors(decls, name))
  {
  }

  /** Everything added since `before` has all its successors in `now`, none of
      them the target. */
  ghost predicate Explored(g: Graph, target: string, before: set<string>, now: set<string>) {
    && before <= now
    && forall x, z | x in now && x !in before && z in Succ(g, x) :: z in now && z != target
  }

  lemma ExploredSteps(g: Graph, target: string, a: set<string>, b: set<string>, c: set<string>)
    requires Explored(g, target, a, b) && Explored(g, target, b, c)
    ensures Explored(g, target, a, c)
  {
  }

  class Search {
    const decls: Declarations
    const target: string
    var visited: set<string>

    constructor (decls: Declarations, target: string)
      ensures this.decls == decls && this.target == target && visited == {}
    {
      this.decls := decls;
      this.target := target;
      visited := {};
    }

    ghost function Edges(): Graph { SelectorGraph(decls) }

    /** The depth-first step. Each descent takes one declared datatype out of
        the unexplored ones. */
    method Check(s: SelectorSort) returns (found: bool)
      modifies this
      ensures found ==> s.Datatype? && Reaches(Edges(), s.name, target)
      ensures Explored(Edges(), target, old(visited), visited) || found
      ensures !found && s.Datatype? ==> s.name in visited && s.name != target
      ensures old(visited) <= visited
      decreases decls.Keys - visited, 0
    {
      if !s.Datatype? {
        return false;
      }
      if s.name == target {
        ReachesSelf(Edges(), target);
        return true;
      }
      if s.name in visited {
        return false;
      }
      visited := visited + {s.name};
      SelectorEdges(decls, s.name);
      if s.name !in decls {
        return false;
      }
      found := CheckSelectors(Constructors(decls, s.name));
      if found {
        ghost var z :| z in Succ(Edges(), s.name) && Reaches(Edges(), z, target);
        ReachesEdge(Edges(), s.name, z);
        ReachesTransitive(Edges(), s.name, z, target);
      }
    }

    /** The two loops over constructors and selectors. */
    method CheckSelectors(ctors: seq<seq<SelectorSort>>) returns (found: bool)
      modifies this
      ensures found ==> exists z :: z in SelectorNames(ctors) && Reaches(Edges(), z, target)
      ensures !found ==> Explored(Edges(), target, old(visited), visited)
      ensures !found ==> forall z | z in SelectorNames(ctors) :: z in visited && z != target
      ensures old(visited) <= visited
      decreases decls.Keys - visited, 1
    {
      for i := 0 to |ctors|
        invariant Explored(Edges(), target, old(visited), visited)
        invariant forall k, j | 0 <= k < i && 0 <= j < |ctors[k]| && ctors[k][j].Datatype? ::
                    ctors[k][j].name in visited && ctors[k][j].name != target
      {
        for l := 0 to |ctors[i]|
          invariant Explored(Edges(), target, old(visited), visited)
          invariant forall k, j | 0 <= k < i && 0 <= j < |ctors[k]| && ctors[k][j].Datatype? ::
                      ctors[k][j].name in visited && ctors[k][j].name != target
          invariant forall j | 0 <= j < l && ctors[i][j].Datatype? ::
                      ctors[i][j].name in visited && ctors[i][j].name != target
        {
          ghost var before := visited;
          var hit := Check(ctors[i][l]);
          if hit {
            assert ctors[i][l].name in SelectorNames(ctors);
            return true;
          }
          ExploredSteps(Edges(), target, old(visited), before, visited);
        }
      }
      found := false;
    }
  }

  /** True exactly when the datatype reaches itself by one or more selector
      edges. */
  method IsRecursiveDatatype(decls: Declarations, target: string) returns (recursive: bool)
    ensures recursive <==> ReachesByEdge(SelectorGraph(decls), target, target)
  {
    var search := new Search(decls, target);
    var g := SelectorGraph(decls);
    SelectorEdges(decls, target);
    recursive := search.CheckSelectors(Constructors(decls, target));
    if !recursive {
      NotReached(g, target, search.visited);
    }
  }

  lemma NotReached(g: Graph, target: string, visited: set<string>)
    requires Explored(g, target, {}, visited)
    requires forall z | z in Succ(g, target) :: z in visited && z != target
    ensures !ReachesByEdge(g, target, target)
  {
    if ReachesByEdge(g, target, target) {
      var c :| c in Succ(g, target) && Reaches(g, c, target);
      var p :| PathFromTo(g, p, c, target);
      AvoidsTarget(g, target, visited, p, |p| - 1);
    }
  }

  /** A path that starts in the explored set stays off the target. */
  lemma {:induction false} AvoidsTarget(g: Graph, target: string, visited: set<string>, p: seq<string>, i: nat)
    requires Explored(g, target, {}, visited) && IsPath(g, p) && i < |p|
    requires p[0] in visited && p[0] != target
    ensures p[i] in visited && p[i] != target
  {
    if i > 0 {
      AvoidsTarget(g, target, visited, p, i - 1);
      assert p[i - 1 + 1] in Succ(g, p[i - 1]);
    }
  }
}
