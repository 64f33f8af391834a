// Grouping of mutually recursive datatypes for (declare-datatypes ...):
// Tarjan's algorithm as `dumpSMT2` runs it over the "mentions" graph.
module DatatypeGroups {
  import opened Digraph

  /** Reachability as a set of pairs, so that the invariants below do not
      speak of paths. */
  type Relation = set<(string, string)>

  ghost function ReachRelation(g: Graph, vs: set<string>): Relation {
    set a, b | a in vs && b in vs && Reaches(g, a, b) :: (a, b)
  }

  /** What the recursion shares: discovery numbers, low links, the stack and
      the groups finished so far. */
  datatype State = State(
    index: map<string, nat>,
    low: map<string, nat>,
    onStack: set<string>,
    stack: seq<string>,
    groups: seq<seq<string>>,
    nextIndex: nat)

  ghost predicate InGroups(groups: seq<seq<string>>, n: nat, x: string)
    requires n <= |groups|
  {
    exists k :: 0 <= k < n && x in groups[k]
  }

  /** The stack lists the stacked names by increasing number. */
  ghost predicate StackOk(s: State) {
    && (forall x | x in s.index :: s.index[x] < s.nextIndex)
    && s.low.Keys == s.index.Keys
    && s.onStack <= s.index.Keys
    && (forall x :: x in s.onStack <==> x in s.stack)
    && (forall i, j | 0 <= i < j < |s.stack| && s.stack[i] in s.index && s.stack[j] in s.index ::
          s.index[s.stack[i]] < s.index[s.stack[j]])
  }

  ghost predicate NoDuplicates(s: seq<string>) {
    forall a, b | 0 <= a < b < |s| :: s[a] != s[b]
  }

  /** No name is in two groups, or twice in one. */
  ghost predicate GroupsDisjoint(groups: seq<seq<string>>) {
    && (forall j, k, x | 0 <= j < k < |groups| && x in groups[j] :: x !in groups[k])
    && (forall k | 0 <= k < |groups| :: NoDuplicates(groups[k]))
  }

  /** What a member mentions is in its own group or an earlier one. */
  ghost predicate GroupsOrdered(g: Graph, groups: seq<seq<string>>) {
    forall k, x, z | 0 <= k < |groups| && x in groups[k] && z in Succ(g, x) :: InGroups(groups, k + 1, z)
  }

  ghost predicate GroupsConnected(r: Relation, groups: seq<seq<string>>) {
    && (forall k | 0 <= k < |groups| :: groups[k] != [])
    && (forall k, x, y | 0 <= k < |groups| && x in groups[k] && y in groups[k] :: (x, y) in r)
  }

  ghost predicate GroupsOk(g: Graph, r: Relation, s: State) {
    && (forall x {:trigger InGroups(s.groups, |s.groups|, x)} ::
          InGroups(s.groups, |s.groups|, x) <==> x in s.index && x !in s.onStack)
    && GroupsDisjoint(s.groups)
    && GroupsOrdered(g, s.groups)
    && GroupsConnected(r, s.groups)
  }

  /** A stacked name reaches one whose call is still active and that was
      discovered no later. */
  ghost predicate HasActive(r: Relation, index: map<string, nat>, active: set<string>, y: string)
    requires y in index
  {
    exists a :: a in active && a in index && index[a] <= index[y] && (y, a) in r
  }

  /** Earlier stacked names reach later ones, every stacked name reaches an
      active one, and a name whose call has returned has no undiscovered
      successor. */
  ghost predicate ReachOk(g: Graph, r: Relation, index: map<string, nat>, onStack: set<string>, active: set<string>)
    requires onStack <= index.Keys
  {
    && active <= onStack
    && (forall x, y | x in onStack && y in onStack && index[x] <= index[y] :: (x, y) in r)
    && (forall y {:trigger HasActive(r, index, active, y)} | y in onStack :: HasActive(r, index, active, y))
    && (forall x, z | x in index && x !in active && z in Succ(g, x) :: z in index)
  }

  ghost predicate Inv(g: Graph, r: Relation, s: State, active: set<string>) {
    StackOk(s) && GroupsOk(g, r, s) && ReachOk(g, r, s.index, s.onStack, active)
  }

  /** `t` is later than `s` in one run, at the same depth or deeper. */
  ghost predicate Extends(s: State, t: State) {
    && s.nextIndex <= t.nextIndex
    && (forall x | x in s.index :: x in t.index && t.index[x] == s.index[x])
    && (forall x | x in t.index && x !in s.index :: s.nextIndex <= t.index[x])
    && (forall x | x in s.low :: x in t.low && t.low[x] == s.low[x])
    && s.onStack <= t.onStack
    && (forall x | x in t.onStack && x in s.index :: x in s.onStack)
    && s.stack <= t.stack
    && s.groups <= t.groups
  }

  /** The state of a call for `v` extends the one it was entered in. */
  ghost predicate ExtendsBelow(s: State, t: State, v: string) {
    Extends(s, t) && s.stack + [v] <= t.stack
  }

  /** Edges from stacked names numbered `from` or more to stacked names
      numbered below `base` end at `bound` or above. */
  ghost predicate EdgesBounded(g: Graph, index: map<string, nat>, onStack: set<string>, from: nat, base: nat, bound: nat)
    requires onStack <= index.Keys
  {
    forall x, z | x in onStack && from <= index[x] && z in Succ(g, x) && z in onStack && index[z] < base ::
      bound <= index[z]
  }

  /** `n` is the number of a stacked name below `base` that `v` reaches. */
  ghost predicate LowWitness(r: Relation, index: map<string, nat>, onStack: set<string>, base: nat, v: string, n: nat)
    requires onStack <= index.Keys
  {
    exists z :: z in onStack && index[z] == n && n < base && (v, z) in r
  }

  ghost predicate Transitive(r: Relation) {
    forall a, b, c {:trigger (a, b) in r, (b, c) in r} :: (a, b) in r && (b, c) in r ==> (a, c) in r
  }

  lemma Compose(r: Relation, a: string, b: string, c: string)
    requires Transitive(r) && (a, b) in r && (b, c) in r
    ensures (a, c) in r
  {
  }

  function Entered(s: State, v: string): State {
    State(s.index[v := s.nextIndex], s.low[v := s.nextIndex], s.onStack + {v},
          s.stack + [v], s.groups, s.nextIndex + 1)
  }

  lemma EnterReach(g: Graph, r: Relation, index: map<string, nat>, onStack: set<string>, active: set<string>,
                   v: string, n: nat)
    requires onStack <= index.Keys && ReachOk(g, r, index, onStack, active)
    requires v !in index && (forall x | x in index :: index[x] < n)
    requires Transitive(r) && (v, v) in r && (forall a | a in active :: (a, v) in r)
    ensures ReachOk(g, r, index[v := n], onStack + {v}, active + {v})
  {
    var index' := index[v := n];
    forall y | y in onStack
      ensures (y, v) in r && HasActive(r, index', active + {v}, y)
    {
      assert HasActive(r, index, active, y);
      var a :| a in active && a in index && index[a] <= index[y] && (y, a) in r;
      Compose(r, y, a, v);
      assert a in active + {v} && index'[a] <= index'[y];
    }
    assert v in active + {v} && HasActive(r, index', active + {v}, v);
  }

  lemma EnterKeepsInv(g: Graph, r: Relation, s: State, active: set<string>, v: string)
    requires Inv(g, r, s, active) && v !in s.index
    requires Transitive(r) && (v, v) in r && (forall a | a in active :: (a, v) in r)
    ensures Inv(g, r, Entered(s, v), active + {v})
  {
    EnterReach(g, r, s.index, s.onStack, active, v, s.nextIndex);
    assert StackOk(Entered(s, v));
  }

  /** `v` is done and its low link points below it: it stays on the stack. */
  lemma KeepOnStack(g: Graph, r: Relation, index: map<string, nat>, onStack: set<string>, active: set<string>,
                    v: string, n: nat)
    requires onStack <= index.Keys && ReachOk(g, r, index, onStack, active + {v})
    requires Transitive(r) && v !in active && v in index
    requires forall z | z in Succ(g, v) :: z in index
    requires LowWitness(r, index, onStack, index[v], v, n)
    ensures ReachOk(g, r, index, onStack, active)
  {
    var b := LowerActive(g, r, index, onStack, active, v, n);
    forall y | y in onStack
      ensures HasActive(r, index, active, y)
    {
      HandOver(r, index, active, v, b, y);
    }
  }

  lemma LowerActive(g: Graph, r: Relation, index: map<string, nat>, onStack: set<string>, active: set<string>,
                    v: string, n: nat)
    returns (b: string)
    requires onStack <= index.Keys && ReachOk(g, r, index, onStack, active + {v})
    requires Transitive(r) && v in index && LowWitness(r, index, onStack, index[v], v, n)
    ensures b in active && b in index && index[b] < index[v] && (v, b) in r
  {
    var z :| z in onStack && index[z] == n && n < index[v] && (v, z) in r;
    assert HasActive(r, index, active + {v}, z);
    b :| b in active + {v} && b in index && index[b] <= index[z] && (z, b) in r;
    Compose(r, v, z, b);
  }

  lemma HandOver(r: Relation, index: map<string, nat>, active: set<string>, v: string, b: string, y: string)
    requires Transitive(r) && v in index && y in index && HasActive(r, index, active + {v}, y)
    requires b in active && b in index && index[b] < index[v] && (v, b) in r
    ensures HasActive(r, index, active, y)
  {
    var a :| a in active + {v} && a in index && index[a] <= index[y] && (y, a) in r;
    if a == v {
      Compose(r, y, v, b);
    }
  }

  /** `v` is the root of its component: everything from `v` up leaves the
      stack as one group. */
  lemma PopReach(g: Graph, r: Relation, index: map<string, nat>, onStack: set<string>, active: set<string>,
                 v: string, rest: set<string>)
    requires onStack <= index.Keys && ReachOk(g, r, index, onStack, active + {v})
    requires v !in active && v in onStack
    requires forall z | z in Succ(g, v) :: z in index
    requires forall a | a in active :: index[a] < index[v]
    requires rest == set x | x in onStack && index[x] < index[v]
    ensures ReachOk(g, r, index, rest, active)
  {
    forall y | y in rest
      ensures HasActive(r, index, active, y)
    {
      assert HasActive(r, index, active + {v}, y);
      var a :| a in active + {v} && a in index && index[a] <= index[y] && (y, a) in r;
      assert a in active;
    }
  }

  lemma RootConnected(g: Graph, r: Relation, index: map<string, nat>, onStack: set<string>, active: set<string>,
                      v: string, x: string, y: string)
    requires onStack <= index.Keys && ReachOk(g, r, index, onStack, active + {v})
    requires Transitive(r) && v in onStack
    requires forall a | a in active :: index[a] < index[v]
    requires x in onStack && index[v] <= index[x] && y in onStack && index[v] <= index[y]
    ensures (x, y) in r
  {
    assert HasActive(r, index, active + {v}, x);
    var a :| a in active + {v} && a in index && index[a] <= index[x] && (x, a) in r;
    Compose(r, x, a, v);
    Compose(r, x, v, y);
  }

  /** Appending one closed, connected group keeps the groups in order. */
  lemma AddGroup(g: Graph, r: Relation, groups: seq<seq<string>>, group: seq<string>)
    requires GroupsDisjoint(groups) && GroupsOrdered(g, groups) && GroupsConnected(r, groups)
    requires group != [] && NoDuplicates(group)
    requires forall x | x in group :: !InGroups(groups, |groups|, x)
    requires forall x, y | x in group && y in group :: (x, y) in r
    requires forall x, z | x in group && z in Succ(g, x) :: z in group || InGroups(groups, |groups|, z)
    ensures GroupsDisjoint(groups + [group]) && GroupsOrdered(g, groups + [group])
    ensures GroupsConnected(r, groups + [group])
    ensures forall x :: InGroups(groups + [group], |groups| + 1, x) <==> InGroups(groups, |groups|, x) || x in group
  {
    var gs := groups + [group];
    forall x
      ensures InGroups(gs, |gs|, x) <==> InGroups(groups, |groups|, x) || x in group
    {
      if x in group {
        assert x in gs[|groups|];
      } else if InGroups(groups, |groups|, x) {
        var k :| 0 <= k < |groups| && x in groups[k];
        assert x in gs[k];
      }
    }
    forall k, x, z | 0 <= k < |gs| && x in gs[k] && z in Succ(g, x)
      ensures InGroups(gs, k + 1, z)
    {
      if k < |groups| {
        assert InGroups(groups, k + 1, z);
        var j :| 0 <= j < k + 1 && z in groups[j];
        assert z in gs[j];
      }
    }
  }

  ghost predicate RootReady(g: Graph, r: Relation, s: State, active: set<string>, v: string)
  {
    && Inv(g, r, s, active + {v}) && v !in active
    && v in s.onStack
    && (forall z | z in Succ(g, v) :: z in s.index)
    && (forall a | a in active :: a in s.index && s.index[a] < s.index[v])
    && EdgesBounded(g, s.index, s.onStack, s.index[v], s.index[v], s.index[v])
  }

  lemma PopGroups(g: Graph, r: Relation, s: State, active: set<string>, v: string, group: seq<string>)
    requires RootReady(g, r, s, active, v) && Transitive(r)
    requires NoDuplicates(group)
    requires forall x :: x in group <==> x in s.onStack && s.index[v] <= s.index[x]
    ensures var gs := s.groups + [group];
            GroupsDisjoint(gs) && GroupsOrdered(g, gs) && GroupsConnected(r, gs)
    ensures forall x :: InGroups(s.groups + [group], |s.groups| + 1, x) <==>
              InGroups(s.groups, |s.groups|, x) || x in group
  {
    assert v in group;
    forall x, y | x in group && y in group
      ensures (x, y) in r
    {
      RootConnected(g, r, s.index, s.onStack, active, v, x, y);
    }
    forall x, z | x in group && z in Succ(g, x)
      ensures z in group || InGroups(s.groups, |s.groups|, z)
    {
      if x != v {
        assert x !in active + {v};
      }
      assert z in s.index;
    }
    AddGroup(g, r, s.groups, group);
  }

  /** What the low link of `v`, number `num`, means while its successors are
      being looked at; those outside `todo` have been. */
  ghost predicate LinksOk(g: Graph, r: Relation, s: State, v: string, num: nat, todo: set<string>)
    requires s.onStack <= s.index.Keys
  {
    && v in s.low && s.low[v] <= num
    && (s.low[v] == num || LowWitness(r, s.index, s.onStack, num, v, s.low[v]))
    && EdgesBounded(g, s.index, s.onStack, num + 1, num, s.low[v])
    && (forall w | w in Succ(g, v) && w !in todo :: w in s.index)
    && (forall w | w in Succ(g, v) && w !in todo && w in s.onStack && s.index[w] < num :: s.low[v] <= s.index[w])
  }

  ghost predicate Visiting(g: Graph, r: Relation, s: State, active: set<string>, v: string, num: nat, todo: set<string>)
  {
    && Inv(g, r, s, active + {v}) && v !in active
    && v in s.onStack && s.index[v] == num
    && (forall a | a in active :: a in s.index && s.index[a] < num)
    && LinksOk(g, r, s, v, num, todo)
  }

  /** What the low link of `w` means once its call has returned. */
  ghost predicate LinkDone(g: Graph, r: Relation, t: State, w: string, num: nat)
    requires t.onStack <= t.index.Keys
  {
    && w in t.index && t.index[w] == num
    && w in t.low && t.low[w] <= num
    && (t.low[w] < num ==> LowWitness(r, t.index, t.onStack, num, w, t.low[w]))
    && EdgesBounded(g, t.index, t.onStack, num, num, t.low[w])
  }

  function Lowered(s: State, v: string, n: nat): State
    requires v in s.low
  {
    s.(low := s.low[v := if n < s.low[v] then n else s.low[v]])
  }

  lemma VisitingFacts(g: Graph, r: Relation, s: State, active: set<string>, v: string, num: nat, todo: set<string>)
    requires Visiting(g, r, s, active, v, num, todo)
    ensures v in s.low && v in s.index && s.onStack <= s.index.Keys && s.low.Keys == s.index.Keys
    ensures Inv(g, r, s, active + {v})
  {
  }

  lemma LoweredExtends(before: State, s: State, t: State, v: string, n: nat)
    requires ExtendsBelow(before, s, v) && v !in before.index && before.low.Keys == before.index.Keys
    requires Extends(s, t) && v in t.low
    ensures ExtendsBelow(before, Lowered(t, v, n), v)
  {
  }

  /** The step for an unvisited successor, once its call has returned. */
  lemma Descended(g: Graph, r: Relation, before: State, s: State, t: State, active: set<string>, v: string,
                  todo: set<string>, w: string)
    requires Visiting(g, r, s, active, v, before.nextIndex, todo)
    requires ExtendsBelow(before, s, v) && v !in before.index && before.low.Keys == before.index.Keys
    requires Inv(g, r, t, active + {v}) && Extends(s, t) && LinkDone(g, r, t, w, s.nextIndex)
    requires w in Succ(g, v)
    requires forall z {:trigger (w, z) in r} | (w, z) in r :: (v, z) in r
    ensures v in t.low && w in t.low && s.index.Keys <= t.index.Keys
    ensures Visiting(g, r, Lowered(t, v, t.low[w]), active, v, before.nextIndex, todo - {w})
    ensures ExtendsBelow(before, Lowered(t, v, t.low[w]), v)
  {
    hide ExtendsBelow;
    AfterDescent(g, r, s, t, v, before.nextIndex, todo, w);
    LoweredKeepsInv(g, r, t, active + {v}, v, t.low[w]);
    LoweredExtends(before, s, t, v, t.low[w]);
  }

  lemma BackEdge(g: Graph, r: Relation, before: State, s: State, active: set<string>, v: string,
                 todo: set<string>, w: string)
    requires Visiting(g, r, s, active, v, before.nextIndex, todo)
    requires ExtendsBelow(before, s, v) && v !in before.index && before.low.Keys == before.index.Keys
    requires w in Succ(g, v) && (v, w) in r && w in s.onStack
    ensures Visiting(g, r, Lowered(s, v, s.index[w]), active, v, before.nextIndex, todo - {w})
    ensures ExtendsBelow(before, Lowered(s, v, s.index[w]), v)
  {
    AfterBackEdge(g, r, s, v, before.nextIndex, todo, w);
    LoweredKeepsInv(g, r, s, active + {v}, v, s.index[w]);
  }

  lemma Skipped(g: Graph, r: Relation, s: State, active: set<string>, v: string, num: nat,
                todo: set<string>, w: string)
    requires Visiting(g, r, s, active, v, num, todo) && w in s.index && w !in s.onStack
    ensures Visiting(g, r, s, active, v, num, todo - {w})
  {
  }

  lemma LoweredKeepsInv(g: Graph, r: Relation, s: State, active: set<string>, v: string, n: nat)
    requires Inv(g, r, s, active) && v in s.low
    ensures Inv(g, r, Lowered(s, v, n), active)
  {
  }

  lemma AfterDescent(g: Graph, r: Relation, s: State, t: State, v: string, num: nat, todo: set<string>, w: string)
    requires s.onStack <= s.index.Keys && t.onStack <= t.index.Keys && Extends(s, t)
    requires LinksOk(g, r, s, v, num, todo) && LinkDone(g, r, t, w, s.nextIndex) && num < s.nextIndex
    requires w in Succ(g, v)
    requires forall z {:trigger (w, z) in r} | (w, z) in r :: (v, z) in r
    ensures v in t.low && LinksOk(g, r, Lowered(t, v, t.low[w]), v, num, todo - {w})
  {
    var u := Lowered(t, v, t.low[w]);
    if t.low[w] < s.low[v] {
      var z :| z in t.onStack && t.index[z] == t.low[w] && t.low[w] < s.nextIndex && (w, z) in r;
      assert z in u.onStack && u.index[z] == u.low[v] && (v, z) in r;
    } else if s.low[v] != num {
      var z :| z in s.onStack && s.index[z] == s.low[v] && s.low[v] < num && (v, z) in r;
      assert z in u.onStack && u.index[z] == u.low[v];
    }
    DescentEdges(g, s, t, num, s.low[v], t.low[w]);
  }

  lemma DescentEdges(g: Graph, s: State, t: State, num: nat, low: nat, lowChild: nat)
    requires s.onStack <= s.index.Keys && t.onStack <= t.index.Keys && Extends(s, t) && num < s.nextIndex
    requires EdgesBounded(g, s.index, s.onStack, num + 1, num, low)
    requires EdgesBounded(g, t.index, t.onStack, s.nextIndex, s.nextIndex, lowChild)
    ensures EdgesBounded(g, t.index, t.onStack, num + 1, num, if lowChild < low then lowChild else low)
  {
    forall x, z | x in t.onStack && num + 1 <= t.index[x] && z in Succ(g, x) && z in t.onStack && t.index[z] < num
      ensures low <= t.index[z] || lowChild <= t.index[z]
    {
      assert z in s.index && z in s.onStack;
      if x in s.index {
        assert x in s.onStack;
      }
    }
  }

  lemma AfterBackEdge(g: Graph, r: Relation, s: State, v: string, num: nat, todo: set<string>, w: string)
    requires s.onStack <= s.index.Keys && LinksOk(g, r, s, v, num, todo)
    requires w in Succ(g, v) && (v, w) in r && w in s.onStack
    ensures LinksOk(g, r, Lowered(s, v, s.index[w]), v, num, todo - {w})
  {
    var u := Lowered(s, v, s.index[w]);
    if s.index[w] < s.low[v] {
      assert w in u.onStack && u.index[w] == u.low[v];
    } else if s.low[v] != num {
      var z :| z in s.onStack && s.index[z] == s.low[v] && s.low[v] < num && (v, z) in r;
      assert z in u.onStack && u.index[z] == u.low[v];
    }
  }

  /** `r` is reachability on a closed set of vertices. */
  ghost predicate IsReachOf(g: Graph, vs: set<string>, r: Relation) {
    && (forall v | v in vs :: (v, v) in r)
    && (forall v, w | v in vs && w in Succ(g, v) :: (v, w) in r)
    && Transitive(r)
  }

  lemma ReachRelationIsReach(g: Graph, vs: set<string>)
    requires ClosedUnderSucc(g, vs)
    ensures IsReachOf(g, vs, ReachRelation(g, vs))
  {
    forall v | v in vs
      ensures Reaches(g, v, v)
    {
      ReachesSelf(g, v);
    }
    forall v, w | v in vs && w in Succ(g, v)
      ensures Reaches(g, v, w)
    {
      ReachesEdge(g, v, w);
    }
    forall a, b, c | Reaches(g, a, b) && Reaches(g, b, c)
      ensures Reaches(g, a, c)
    {
      ReachesTransitive(g, a, b, c);
    }
  }

  lemma StartVisiting(g: Graph, vs: set<string>, r: Relation, before: State, active: set<string>, v: string)
    requires Inv(g, r, before, active) && v !in before.index && v in vs && IsReachOf(g, vs, r)
    requires forall a | a in active :: (a, v) in r
    ensures Visiting(g, r, Entered(before, v), active, v, before.nextIndex, Succ(g, v))
    ensures ExtendsBelow(before, Entered(before, v), v)
    ensures before.low.Keys == before.index.Keys
  {
    EnterKeepsInv(g, r, before, active, v);
  }

  lemma RootOnStack(g: Graph, r: Relation, before: State, s: State, active: set<string>, v: string)
    requires Visiting(g, r, s, active, v, before.nextIndex, {}) && ExtendsBelow(before, s, v)
    ensures NoDuplicates(s.stack) && (forall x :: x in s.onStack <==> x in s.stack)
    ensures |before.stack| < |s.stack| && s.stack[|before.stack|] == v
  {
    StackDistinct(s);
    assert s.stack[|before.stack|] == (before.stack + [v])[|before.stack|];
  }

  lemma SameNumber(s: State, x: string, y: string)
    requires StackOk(s) && x in s.onStack && y in s.onStack && s.index[x] == s.index[y]
    ensures x == y
  {
    var i :| 0 <= i < |s.stack| && s.stack[i] == x;
    var j :| 0 <= j < |s.stack| && s.stack[j] == y;
  }

  /** Once every successor has been looked at, the bound covers `v` too. */
  lemma AllLookedAt(g: Graph, r: Relation, s: State, active: set<string>, v: string, num: nat)
    requires Visiting(g, r, s, active, v, num, {})
    ensures EdgesBounded(g, s.index, s.onStack, num, num, s.low[v])
  {
    forall x, z | x in s.onStack && num <= s.index[x] && z in Succ(g, x) && z in s.onStack && s.index[z] < num
      ensures s.low[v] <= s.index[z]
    {
      if s.index[x] == num {
        SameNumber(s, x, v);
      }
    }
  }

  /** The grouping run: the variables the recursive lambda of `dumpSMT2`
      captures by reference. */
  class Grouping {
    const deps: Graph
    ghost const vertices: set<string>
    ghost const r: Relation

    var index: map<string, nat>
    var low: map<string, nat>
    var onStack: set<string>
    var stack: seq<string>
    var groups: seq<seq<string>>
    var nextIndex: nat

    constructor (deps: Graph, ghost vertices: set<string>)
      ensures this.deps == deps && this.vertices == vertices && r == ReachRelation(deps, vertices)
      ensures View() == State(map[], map[], {}, [], [], 0)
    {
      this.deps := deps;
      this.vertices := vertices;
      this.r := ReachRelation(deps, vertices);
      index, low, onStack, stack, groups, nextIndex := map[], map[], {}, [], [], 0;
    }

    ghost function View(): State
      reads this
    {
      State(index, low, onStack, stack, groups, nextIndex)
    }

    ghost predicate Valid()
      reads this
    {
      && (forall x, z | x in vertices && z in Succ(deps, x) :: z in vertices)
      && IsReachOf(deps, vertices, r)
      && index.Keys <= vertices
    }

    /** Pops the stack down to `v`, at position `base`, into a group. */
    method PopGroup(v: string, ghost base: nat) returns (group: seq<string>)
      requires base < |stack| && stack[base] == v && NoDuplicates(stack)
      requires forall x :: x in onStack <==> x in stack
      modifies this`stack, this`onStack
      ensures stack == old(stack)[..base]
      ensures forall x :: x in onStack <==> x in stack
      ensures |group| == |old(stack)| - base
      ensures forall i | 0 <= i < |group| :: group[i] == old(stack)[|old(stack)| - 1 - i]
    {
      group := [];
      var done := false;
      while !done
        invariant base <= |stack| <= |old(stack)| && stack == old(stack)[..|stack|]
        invariant done <==> |stack| == base
        invariant |group| == |old(stack)| - |stack|
        invariant forall i | 0 <= i < |group| :: group[i] == old(stack)[|old(stack)| - 1 - i]
        invariant forall x :: x in onStack <==> x in stack
        decreases |stack|
      {
        var w := stack[|stack| - 1];
        PopMembers(stack);
        stack := stack[..|stack| - 1];
        onStack := onStack - {w};
        group := group + [w];
        done := w == v;
      }
    }

    /** Looks at the successors of `v` and lowers its link. */
    method VisitSuccessors(v: string, ghost active: set<string>, ghost before: State)
      requires Valid() && Visiting(deps, r, View(), active, v, before.nextIndex, Succ(deps, v))
      requires v in vertices && v !in before.index && before.low.Keys == before.index.Keys
      requires ExtendsBelow(before, View(), v)
      requires forall a | a in active :: (a, v) in r
      modifies this
      ensures Valid() && Visiting(deps, r, View(), active, v, before.nextIndex, {})
      ensures ExtendsBelow(before, View(), v)
      decreases vertices - index.Keys, 1
    {
      hide Inv, Visiting, LinkDone, IsReachOf, Extends, ExtendsBelow;
      var todo := if v in deps then deps[v] else {};
      while todo != {}
        invariant Valid() && todo <= Succ(deps, v)
        invariant Visiting(deps, r, View(), active, v, before.nextIndex, todo)
        invariant ExtendsBelow(before, View(), v)
        invariant old(index.Keys) <= index.Keys
        decreases todo
      {
        var w :| w in todo;
        ghost var s := View();
        VisitingFacts(deps, r, s, active, v, before.nextIndex, todo);
        CallersReach(deps, vertices, r, active, v, w);
        if w !in index {
          StrongConnect(w, active + {v});
          Descended(deps, r, before, s, View(), active, v, todo, w);
          low := low[v := if low[w] < low[v] then low[w] else low[v]];
        } else if w in onStack {
          BackEdge(deps, r, before, s, active, v, todo, w);
          low := low[v := if index[w] < low[v] then index[w] else low[v]];
        } else {
          Skipped(deps, r, s, active, v, before.nextIndex, todo, w);
        }
        todo := todo - {w};
      }
    }

    /** Visits `v`, its unvisited successors and so on. `active` are the calls
        below this one. */
    method StrongConnect(v: string, ghost active: set<string>)
      requires Valid() && Inv(deps, r, View(), active)
      requires v in vertices && v !in index
      requires forall a | a in active :: (a, v) in r
      modifies this
      ensures Valid() && Inv(deps, r, View(), active)
      ensures Extends(old(View()), View()) && LinkDone(deps, r, View(), v, old(nextIndex))
      decreases vertices - index.Keys, 0
    {
      hide Inv, Visiting, LinkDone, IsReachOf;
      ghost var num, before := nextIndex, View();
      ghost var base := |stack|;
      index := index[v := nextIndex];
      low := low[v := nextIndex];
      nextIndex := nextIndex + 1;
      stack := stack + [v];
      onStack := onStack + {v};
      StartVisiting(deps, vertices, r, before, active, v);
      VisitSuccessors(v, active, before);
      ghost var s := View();
      VisitingFacts(deps, r, s, active, v, num, {});
      if low[v] == index[v] {
        RootOnStack(deps, r, before, s, active, v);
        var group := PopGroup(v, base);
        groups := groups + [group];
        RootPopped(deps, vertices, r, before, s, View(), active, v, base, group);
      } else {
        StaysStacked(deps, vertices, r, before, s, active, v);
      }
    }
  }

  lemma PopMembers(s: seq<string>)
    requires s != [] && NoDuplicates(s)
    ensures NoDuplicates(s[..|s| - 1])
    ensures forall x :: x in s[..|s| - 1] <==> x in s && x != s[|s| - 1]
  {
    assert s == s[..|s| - 1] + [s[|s| - 1]];
  }

  lemma CallersReach(g: Graph, vs: set<string>, r: Relation, active: set<string>, v: string, w: string)
    requires IsReachOf(g, vs, r) && v in vs && w in Succ(g, v) && (forall a | a in active :: (a, v) in r)
    ensures (v, w) in r
    ensures forall a | a in active + {v} :: (a, w) in r
    ensures forall z {:trigger (w, z) in r} | (w, z) in r :: (v, z) in r
  {
    forall a | a in active
      ensures (a, w) in r
    {
      Compose(r, a, v, w);
    }
  }

  lemma RootPopped(g: Graph, vs: set<string>, r: Relation, before: State, s: State, t: State, active: set<string>,
                   v: string, base: nat, group: seq<string>)
    requires Visiting(g, r, s, active, v, before.nextIndex, {}) && s.low[v] == s.index[v] && IsReachOf(g, vs, r)
    requires Inv(g, r, before, active) && ExtendsBelow(before, s, v) && base == |before.stack|
    requires |group| == |s.stack| - base
    requires forall i | 0 <= i < |group| :: group[i] == s.stack[|s.stack| - 1 - i]
    requires forall x :: x in t.onStack <==> x in s.stack[..base]
    requires t == State(s.index, s.low, t.onStack, s.stack[..base], s.groups + [group], s.nextIndex)
    ensures Inv(g, r, t, active) && Extends(before, t) && LinkDone(g, r, t, v, before.nextIndex)
  {
    RootStack(before, s, t, v, base);
    StackDistinct(s);
    forall x
      ensures x in group <==> x in s.onStack && s.index[v] <= s.index[x]
      ensures x in t.onStack <==> x in s.onStack && s.index[x] < s.index[v]
    {
      PopSplit(s, base, x, group);
    }
    AllLookedAt(g, r, s, active, v, before.nextIndex);
    RootGroups(g, r, s, t, active, v, group);
    PopReach(g, r, s.index, s.onStack, active, v, t.onStack);
  }

  lemma RootStack(before: State, s: State, t: State, v: string, base: nat)
    requires StackOk(before) && StackOk(s) && ExtendsBelow(before, s, v) && base == |before.stack|
    requires forall x :: x in t.onStack <==> x in s.stack[..base]
    requires s.groups <= t.groups
    requires t == State(s.index, s.low, t.onStack, s.stack[..base], t.groups, s.nextIndex)
    ensures s.stack[base] == v && t.stack == before.stack
    ensures StackOk(t) && Extends(before, t)
  {
    var upTo := before.stack + [v];
    assert s.stack[base] == upTo[base];
    assert t.stack == upTo[..base] == before.stack;
    TruncatedStack(before, s, t, base);
  }

  lemma TruncatedStack(before: State, s: State, t: State, base: nat)
    requires StackOk(s) && base <= |s.stack| && Extends(before, s) && before.stack == s.stack[..base] && StackOk(before)
    requires forall x :: x in t.onStack <==> x in s.stack[..base]
    requires s.groups <= t.groups
    requires t == State(s.index, s.low, t.onStack, s.stack[..base], t.groups, s.nextIndex)
    ensures StackOk(t) && Extends(before, t)
  {
    forall x | x in t.onStack
      ensures x in s.index && x in before.onStack
    {
      assert x in s.stack && x in before.stack;
    }
    assert forall i | 0 <= i < |t.stack| :: t.stack[i] == s.stack[i];
  }

  lemma RootGroups(g: Graph, r: Relation, s: State, t: State, active: set<string>, v: string, group: seq<string>)
    requires RootReady(g, r, s, active, v) && Transitive(r) && NoDuplicates(group)
    requires forall x :: x in group <==> x in s.onStack && s.index[v] <= s.index[x]
    requires forall x :: x in t.onStack <==> x in s.onStack && s.index[x] < s.index[v]
    requires t.index == s.index && t.groups == s.groups + [group]
    ensures GroupsOk(g, r, t)
  {
    PopGroups(g, r, s, active, v, group);
  }

  lemma StaysStacked(g: Graph, vs: set<string>, r: Relation, before: State, s: State, active: set<string>, v: string)
    requires Visiting(g, r, s, active, v, before.nextIndex, {}) && s.low[v] != s.index[v] && IsReachOf(g, vs, r)
    requires ExtendsBelow(before, s, v)
    ensures Inv(g, r, s, active) && Extends(before, s) && LinkDone(g, r, s, v, before.nextIndex)
  {
    AllLookedAt(g, r, s, active, v, before.nextIndex);
    KeepOnStack(g, r, s.index, s.onStack, active, v, s.low[v]);
  }

  lemma StackDistinct(s: State)
    requires StackOk(s)
    ensures NoDuplicates(s.stack)
  {
    forall i, j | 0 <= i < j < |s.stack|
      ensures s.stack[i] != s.stack[j]
    {
      assert s.stack[i] in s.onStack && s.stack[j] in s.onStack;
    }
  }

  lemma PopSplit(s: State, base: nat, x: string, group: seq<string>)
    requires StackOk(s) && base < |s.stack| && s.stack[base] in s.onStack
    requires |group| == |s.stack| - base
    requires forall i | 0 <= i < |group| :: group[i] == s.stack[|s.stack| - 1 - i]
    ensures x in group <==> x in s.onStack && s.index[s.stack[base]] <= s.index[x]
    ensures x in s.stack[..base] <==> x in s.onStack && s.index[x] < s.index[s.stack[base]]
  {
    if x in s.onStack {
      var i :| 0 <= i < |s.stack| && s.stack[i] == x;
      if i < base {
        assert s.stack[..base][i] == x;
      } else {
        assert group[|s.stack| - 1 - i] == x;
      }
    }
  }

  // ------------------------------------------------------------------
  // The mentions graph and the whole grouping
  // ------------------------------------------------------------------

  /** A sort and the sorts it is built from, as in `(Array Int TL)`. */
  datatype SortTree = SortNode(name: string, children: seq<SortTree>)

  /** The constructors of a datatype; each is the list of its selector sorts. */
  type Constructors = seq<seq<SortTree>>

  ghost predicate Occurs(s: SortTree, w: string) {
    s.name == w || exists i :: 0 <= i < |s.children| && Occurs(s.children[i], w)
  }

  ghost predicate OccursInAny(ss: seq<SortTree>, w: string) {
    exists i :: 0 <= i < |ss| && Occurs(ss[i], w)
  }

  ghost predicate MentionedIn(cs: Constructors, w: string) {
    exists c :: 0 <= c < |cs| && OccursInAny(cs[c], w)
  }

  /** The other datatypes named anywhere in a selector sort. */
  method Mentions(s: SortTree, owner: string, isDt: set<string>, found: set<string>) returns (found': set<string>)
    ensures forall w :: w in found' <==> w in found || (w in isDt && w != owner && Occurs(s, w))
  {
    found' := found;
    if s.name != owner && s.name in isDt {
      found' := found' + {s.name};
    }
    var i := 0;
    while i < |s.children|
      invariant i <= |s.children|
      invariant forall w :: w in found' <==>
          w in found || (w in isDt && w != owner && (s.name == w || OccursInAny(s.children[..i], w)))
    {
      ghost var was := found';
      found' := Mentions(s.children[i], owner, isDt, found');
      SplitLast(s.children, i);
      i := i + 1;
    }
    assert s.children[..i] == s.children;
  }

  lemma SplitLast(ss: seq<SortTree>, i: nat)
    requires i < |ss|
    ensures forall w :: OccursInAny(ss[..i + 1], w) <==> OccursInAny(ss[..i], w) || Occurs(ss[i], w)
  {
    forall w | OccursInAny(ss[..i], w)
      ensures OccursInAny(ss[..i + 1], w)
    {
      var k :| 0 <= k < i && Occurs(ss[..i][k], w);
      assert Occurs(ss[..i + 1][k], w);
    }
    forall w | Occurs(ss[i], w)
      ensures OccursInAny(ss[..i + 1], w)
    {
      assert ss[..i + 1][i] == ss[i];
    }
  }

  method MentionsOfDatatype(cs: Constructors, owner: string, isDt: set<string>) returns (found: set<string>)
    ensures forall w :: w in found <==> w in isDt && w != owner && MentionedIn(cs, w)
  {
    found := {};
    for c := 0 to |cs|
      invariant forall w :: w in found <==>
          w in isDt && w != owner && exists k :: 0 <= k < c && OccursInAny(cs[k], w)
    {
      ghost var was := found;
      for i := 0 to |cs[c]|
        invariant forall w :: w in found <==>
            w in was || (w in isDt && w != owner && OccursInAny(cs[c][..i], w))
      {
        found := Mentions(cs[c][i], owner, isDt, found);
        SplitLast(cs[c], i);
      }
      assert cs[c][..|cs[c]|] == cs[c];
    }
  }

  ghost predicate MentionEdge(order: seq<string>, decls: map<string, Constructors>, a: string, b: string) {
    a in order && a in decls && b in order && b != a && MentionedIn(decls[a], b)
  }

  /** The edges of the grouping: `a -> b` when a selector of `a` mentions `b`. */
  ghost predicate IsMentionsGraph(order: seq<string>, decls: map<string, Constructors>, deps: Graph) {
    forall a, b :: b in Succ(deps, a) <==> MentionEdge(order, decls, a, b)
  }

  method CollectDeps(order: seq<string>, decls: map<string, Constructors>) returns (deps: Graph)
    ensures IsMentionsGraph(order, decls, deps)
  {
    var isDt := set n | n in order;
    deps := map[];
    for k := 0 to |order|
      invariant forall a | a in deps :: a in order[..k] && a in decls
      invariant forall a | a in order[..k] && a in decls :: a in deps
      invariant forall a, b | a in deps :: b in deps[a] <==> MentionEdge(order, decls, a, b)
    {
      var n := order[k];
      assert order[..k + 1] == order[..k] + [n];
      if n in decls {
        var found := MentionsOfDatatype(decls[n], n, isDt);
        deps := deps[n := found];
      }
    }
    assert order[..|order|] == order;
  }

  /** The groups are the strongly connected components of the graph, each
      listed after everything its members mention. */
  ghost predicate IsGrouping(g: Graph, vs: set<string>, groups: seq<seq<string>>) {
    && (forall x :: x in vs <==> InGroups(groups, |groups|, x))
    && GroupsDisjoint(groups)
    && (forall k, x, y | 0 <= k < |groups| && x in groups[k] ::
          y in groups[k] <==> Reaches(g, x, y) && Reaches(g, y, x))
    && GroupsOrdered(g, groups)
  }

  /** Groups in dependency order that are connected are whole components:
      mutual reachability never crosses two of them. */
  lemma OrderedGroupsAreComponents(g: Graph, vs: set<string>, groups: seq<seq<string>>, k: nat, x: string, y: string)
    requires GroupsDisjoint(groups) && GroupsOrdered(g, groups) && k < |groups| && x in groups[k]
    requires forall z :: z in vs <==> InGroups(groups, |groups|, z)
    requires Reaches(g, x, y) && Reaches(g, y, x)
    ensures y in groups[k]
  {
    var j := ReachesBackwards(g, vs, groups, k, x, y);
    var i := ReachesBackwards(g, vs, groups, j, y, x);
  }

  lemma ReachesBackwards(g: Graph, vs: set<string>, groups: seq<seq<string>>, k: nat, x: string, y: string)
    returns (j: nat)
    requires GroupsOrdered(g, groups) && k < |groups| && x in groups[k] && Reaches(g, x, y)
    requires forall z :: z in vs <==> InGroups(groups, |groups|, z)
    ensures j <= k && y in groups[j]
  {
    var upTo := set z | z in vs && InGroups(groups, k + 1, z);
    forall a, z | a in upTo && z in Succ(g, a)
      ensures z in upTo
    {
      var i :| 0 <= i < k + 1 && a in groups[i];
      assert InGroups(groups, i + 1, z);
    }
    assert InGroups(groups, k + 1, x) && InGroups(groups, |groups|, x);
    ClosedReaches(g, upTo, x, y);
    j :| 0 <= j < k + 1 && y in groups[j];
  }

  lemma IdleStackEmpty(g: Graph, r: Relation, index: map<string, nat>, onStack: set<string>, active: set<string>)
    requires onStack <= index.Keys && ReachOk(g, r, index, onStack, active)
    ensures active == {} ==> onStack == {}
  {
    if onStack != {} {
      var y :| y in onStack;
      assert HasActive(r, index, active, y);
    }
  }

  lemma RunIsGrouping(g: Graph, vs: set<string>, s: State)
    requires ClosedUnderSucc(g, vs) && s.index.Keys == vs
    requires Inv(g, ReachRelation(g, vs), s, {})
    ensures IsGrouping(g, vs, s.groups)
  {
    var r := ReachRelation(g, vs);
    IdleStackEmpty(g, r, s.index, s.onStack, {});
    forall k, x, y | 0 <= k < |s.groups| && x in s.groups[k]
      ensures y in s.groups[k] <==> Reaches(g, x, y) && Reaches(g, y, x)
    {
      if y in s.groups[k] {
        assert (x, y) in r && (y, x) in r;
      } else if Reaches(g, x, y) && Reaches(g, y, x) {
        OrderedGroupsAreComponents(g, vs, s.groups, k, x, y);
      }
    }
  }

  /** The dependency groups `dumpSMT2` emits, one declare-datatypes each. */
  method GroupDatatypes(order: seq<string>, decls: map<string, Constructors>)
    returns (deps: Graph, groups: seq<seq<string>>)
    ensures IsMentionsGraph(order, decls, deps)
    ensures IsGrouping(deps, (set n | n in order), groups)
  {
    deps := CollectDeps(order, decls);
    ghost var vs := set n | n in order;
    var run := new Grouping(deps, vs);
    ReachRelationIsReach(deps, vs);
    assert Inv(deps, run.r, run.View(), {});
    for k := 0 to |order|
      invariant run.Valid() && run.vertices == vs && run.deps == deps && run.r == ReachRelation(deps, vs)
      invariant Inv(deps, run.r, run.View(), {})
      invariant forall i | 0 <= i < k :: order[i] in run.index
    {
      if order[k] !in run.index {
        ghost var s := run.View();
        run.StrongConnect(order[k], {});
        assert Extends(s, run.View());
      }
    }
    RunIsGrouping(deps, vs, run.View());
    groups := run.groups;
  }
}
