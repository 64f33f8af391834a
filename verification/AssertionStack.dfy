// The assertion stack: push and pop scopes over the assertion vectors, the
// groups, and the two-way table of assertion names.
module AssertionStack {
  import opened Terms

  type Groups = map<string, set<nat>>

  /** What a scope truncates: the vectors and the groups of indices. */
  datatype Store = Store(
    assertions: seq<Term>,
    assumptions: seq<seq<Term>>,
    soft: seq<Term>,
    weights: seq<Term>,
    lemmas: seq<Term>,
    groups: Groups,
    softGroups: Groups)

  /** Names of assertions and assertions of names. */
  datatype Names = Names(named: map<string, Term>, nameOf: map<Term, string>)

  datatype Binding = Binding(name: string, node: Term)

  datatype Frame = Frame(
    assertions: nat,
    assumptions: nat,
    soft: nat,
    weights: nat,
    lemmas: nat,
    addedNames: seq<string>,
    replaced: seq<Binding>,
    addedGroups: seq<string>,
    addedSoftGroups: seq<string>)

  datatype Context = Context(store: Store, names: Names, frames: seq<Frame>)

  // ------------------------------------------------------------------
  // Groups
  // ------------------------------------------------------------------

  function Members(g: Groups, key: string): set<nat> { if key in g then g[key] else {} }

  function Below(s: set<nat>, size: nat): set<nat> { set i | i in s && i < size }

  function AddMember(g: Groups, key: string, index: nat): Groups {
    g[key := Members(g, key) + {index}]
  }

  function TrimOne(g: Groups, key: string, size: nat): Groups {
    if key !in g then g
    else if Below(g[key], size) == {} then g - {key}
    else g[key := Below(g[key], size)]
  }

  function Trim(g: Groups, keys: seq<string>, size: nat): Groups {
    if keys == [] then g else TrimOne(Trim(g, keys[..|keys| - 1], size), keys[|keys| - 1], size)
  }

  ghost predicate NoEmptyGroup(g: Groups) { forall k | k in g :: g[k] != {} }

  lemma {:induction false} TrimMembers(g: Groups, keys: seq<string>, size: nat)
    requires NoEmptyGroup(g)
    ensures NoEmptyGroup(Trim(g, keys, size))
    ensures forall k :: Members(Trim(g, keys, size), k) == if k in keys then Below(Members(g, k), size) else Members(g, k)
  {
    if keys != [] {
      var n := |keys| - 1;
      TrimMembers(g, keys[..n], size);
      assert keys == keys[..n] + [keys[n]];
      var h := Trim(g, keys[..n], size);
      forall k
        ensures Members(Trim(g, keys, size), k) == if k in keys then Below(Members(g, k), size) else Members(g, k)
      {
        assert Below(Below(Members(g, k), size), size) == Below(Members(g, k), size);
      }
    }
  }

  /** Since the scope was opened, groups only gained indices beyond the
      recorded size, and every group that did is on the list. */
  ghost predicate GroupsTrack(before: Groups, keys: seq<string>, size: nat, now: Groups) {
    && NoEmptyGroup(before) && NoEmptyGroup(now)
    && (forall k :: Below(Members(now, k), size) == Members(before, k))
    && (forall k, i | i in Members(now, k) && i >= size :: k in keys)
  }

  lemma TrimRestores(before: Groups, keys: seq<string>, size: nat, now: Groups)
    requires GroupsTrack(before, keys, size, now)
    ensures Trim(now, keys, size) == before
  {
    TrimMembers(now, keys, size);
    var t := Trim(now, keys, size);
    forall k
      ensures Members(t, k) == Members(before, k)
    {
      if k !in keys {
        assert Below(Members(now, k), size) == Members(now, k);
      }
    }
    SameMembers(t, before);
  }

  lemma SameMembers(a: Groups, b: Groups)
    requires NoEmptyGroup(a) && NoEmptyGroup(b) && forall k :: Members(a, k) == Members(b, k)
    ensures a == b
  {
    forall k
      ensures (k in a <==> k in b) && (k in a ==> a[k] == b[k])
    {
      assert Members(a, k) == Members(b, k);
    }
  }

  lemma AddMemberTracks(before: Groups, keys: seq<string>, size: nat, now: Groups, key: string, index: nat)
    requires GroupsTrack(before, keys, size, now) && index >= size
    ensures GroupsTrack(before, keys + [key], size, AddMember(now, key, index))
  {
    var next := AddMember(now, key, index);
    forall k
      ensures Below(Members(next, k), size) == Members(before, k)
    {
      assert Below(Members(next, k), size) == Below(Members(now, k), size);
    }
  }

  // ------------------------------------------------------------------
  // Vectors
  // ------------------------------------------------------------------

  const NullTerm := Node(Named("NULL"), Error, "NULL", [])

  /** std::vector::resize: shrinks, or grows with null entries. */
  function Resize<T>(v: seq<T>, n: nat, filler: T): seq<T> {
    if n <= |v| then v[..n] else v + seq(n - |v|, i => filler)
  }

  function PopStore(s: Store, f: Frame): Store {
    Store(
      Resize(s.assertions, f.assertions, NullTerm),
      Resize(s.assumptions, f.assumptions, []),
      Resize(s.soft, f.soft, NullTerm),
      Resize(s.weights, f.weights, NullTerm),
      Resize(s.lemmas, f.lemmas, NullTerm),
      Trim(s.groups, f.addedGroups, f.assertions),
      Trim(s.softGroups, f.addedSoftGroups, f.soft))
  }

  /** The store has only grown since the frame was pushed. */
  ghost predicate StoreTracks(before: Store, f: Frame, now: Store) {
    && f.assertions == |before.assertions| && before.assertions <= now.assertions
    && f.assumptions == |before.assumptions| && before.assumptions <= now.assumptions
    && f.soft == |before.soft| && before.soft <= now.soft
    && f.weights == |before.weights| && before.weights <= now.weights
    && f.lemmas == |before.lemmas| && before.lemmas <= now.lemmas
    && GroupsTrack(before.groups, f.addedGroups, f.assertions, now.groups)
    && GroupsTrack(before.softGroups, f.addedSoftGroups, f.soft, now.softGroups)
  }

  lemma PopStoreRestores(before: Store, f: Frame, now: Store)
    requires StoreTracks(before, f, now)
    ensures PopStore(now, f) == before
  {
    hide GroupsTrack;
    TrimRestores(before.groups, f.addedGroups, f.assertions, now.groups);
    TrimRestores(before.softGroups, f.addedSoftGroups, f.soft, now.softGroups);
  }

  // ------------------------------------------------------------------
  // Names
  // ------------------------------------------------------------------

  /** The two tables are each other's inverse. */
  ghost predicate Bijective(ns: Names) {
    && (forall n | n in ns.named :: ns.named[n] in ns.nameOf && ns.nameOf[ns.named[n]] == n)
    && (forall x | x in ns.nameOf :: ns.nameOf[x] in ns.named && ns.named[ns.nameOf[x]] == x)
  }

  /** Dropping a binding. */
  function Displace(ns: Names, b: Binding): Names {
    Names(ns.named - {b.name}, ns.nameOf - {b.node})
  }

  function Bind(ns: Names, b: Binding): Names {
    Names(ns.named[b.name := b.node], ns.nameOf[b.node := b.name])
  }

  /** What naming an assertion displaces: the name it had, then the assertion
      that had the name. */
  function DisplacedBy(ns: Names, name: string, node: Term): seq<Binding> {
    (if node in ns.nameOf && ns.nameOf[node] != name then [Binding(ns.nameOf[node], node)] else [])
    + (if name in ns.named && ns.named[name] != node then [Binding(name, ns.named[name])] else [])
  }

  predicate AlreadyNamed(ns: Names, name: string, node: Term) { name in ns.named && ns.named[name] == node }

  function DisplaceAll(ns: Names, bs: seq<Binding>): Names {
    if bs == [] then ns else Displace(DisplaceAll(ns, bs[..|bs| - 1]), bs[|bs| - 1])
  }

  function NameInTables(ns: Names, name: string, node: Term): Names {
    if AlreadyNamed(ns, name, node) then ns
    else Bind(DisplaceAll(ns, DisplacedBy(ns, name, node)), Binding(name, node))
  }

  /** Removing the names a scope introduced. */
  function EraseOne(ns: Names, name: string): Names {
    if name in ns.named then Names(ns.named - {name}, ns.nameOf - {ns.named[name]}) else ns
  }

  function EraseNames(ns: Names, names: seq<string>): Names {
    if names == [] then ns else EraseOne(EraseNames(ns, names[..|names| - 1]), names[|names| - 1])
  }

  /** Putting back what was displaced, the first record last. */
  function Reinstate(ns: Names, bs: seq<Binding>): Names {
    if bs == [] then ns else Bind(Reinstate(ns, bs[1..]), bs[0])
  }

  function PopNames(ns: Names, f: Frame): Names {
    Reinstate(EraseNames(ns, f.addedNames), f.replaced)
  }

  predicate HasName(bs: seq<Binding>, n: string) { exists i :: 0 <= i < |bs| && bs[i].name == n }

  predicate HasNode(bs: seq<Binding>, x: Term) { exists i :: 0 <= i < |bs| && bs[i].node == x }

  /** The first record of a name, and of a node. */
  function FirstNode(bs: seq<Binding>, n: string): Term
    requires HasName(bs, n)
  {
    if bs[0].name == n then bs[0].node
    else
      assert exists i :: 0 <= i < |bs[1..]| && bs[1..][i].name == n by {
        var i :| 0 <= i < |bs| && bs[i].name == n;
        assert bs[1..][i - 1].name == n;
      }
      FirstNode(bs[1..], n)
  }

  function FirstName(bs: seq<Binding>, x: Term): string
    requires HasNode(bs, x)
  {
    if bs[0].node == x then bs[0].name
    else
      assert exists i :: 0 <= i < |bs[1..]| && bs[1..][i].node == x by {
        var i :| 0 <= i < |bs| && bs[i].node == x;
        assert bs[1..][i - 1].node == x;
      }
      FirstName(bs[1..], x)
  }

  /** The names now, in terms of the names when the scope was opened: a name
      not introduced by the scope is still bound as it was, and a binding that
      is gone is the first record of its name and of its node. */
  ghost predicate NamesTrack(before: Names, added: seq<string>, replaced: seq<Binding>, now: Names) {
    && Bijective(before) && Bijective(now)
    && (forall n | n in now.named && n !in added :: n in before.named && before.named[n] == now.named[n])
    && (forall n | n in before.named ::
          if HasName(replaced, n) then FirstNode(replaced, n) == before.named[n]
          else n in now.named && now.named[n] == before.named[n] && n !in added)
    && (forall x | x in before.nameOf ::
          if HasNode(replaced, x) then FirstName(replaced, x) == before.nameOf[x]
          else x in now.nameOf && now.nameOf[x] == before.nameOf[x] && now.nameOf[x] !in added)
  }

  lemma AppendName(bs: seq<Binding>, b: Binding, n: string)
    ensures HasName(bs + [b], n) <==> HasName(bs, n) || b.name == n
    ensures HasName(bs, n) ==> FirstNode(bs + [b], n) == FirstNode(bs, n)
    ensures !HasName(bs, n) && b.name == n ==> FirstNode(bs + [b], n) == b.node
    decreases |bs|
  {
    if HasName(bs, n) {
      var i :| 0 <= i < |bs| && bs[i].name == n;
      assert (bs + [b])[i].name == n;
    }
    if b.name == n {
      assert (bs + [b])[|bs|].name == n;
    }
    if bs != [] {
      assert (bs + [b])[1..] == bs[1..] + [b];
      AppendName(bs[1..], b, n);
    }
  }

  lemma AppendNode(bs: seq<Binding>, b: Binding, x: Term)
    ensures HasNode(bs + [b], x) <==> HasNode(bs, x) || b.node == x
    ensures HasNode(bs, x) ==> FirstName(bs + [b], x) == FirstName(bs, x)
    ensures !HasNode(bs, x) && b.node == x ==> FirstName(bs + [b], x) == b.name
    decreases |bs|
  {
    if HasNode(bs, x) {
      var i :| 0 <= i < |bs| && bs[i].node == x;
      assert (bs + [b])[i].node == x;
    }
    if b.node == x {
      assert (bs + [b])[|bs|].node == x;
    }
    if bs != [] {
      assert (bs + [b])[1..] == bs[1..] + [b];
      AppendNode(bs[1..], b, x);
    }
  }

  lemma DisplaceTracks(before: Names, added: seq<string>, replaced: seq<Binding>, now: Names, b: Binding)
    requires NamesTrack(before, added, replaced, now) && b.name in now.named && now.named[b.name] == b.node
    ensures NamesTrack(before, added, replaced + [b], Displace(now, b))
  {
    hide FirstNode, FirstName, HasName, HasNode;
    forall n | n in before.named
      ensures if HasName(replaced + [b], n) then FirstNode(replaced + [b], n) == before.named[n]
              else n in Displace(now, b).named && now.named[n] == before.named[n] && n !in added
    {
      AppendName(replaced, b, n);
    }
    forall x | x in before.nameOf
      ensures if HasNode(replaced + [b], x) then FirstName(replaced + [b], x) == before.nameOf[x]
              else x in Displace(now, b).nameOf && now.nameOf[x] == before.nameOf[x] && now.nameOf[x] !in added
    {
      AppendNode(replaced, b, x);
    }
  }

  lemma BindTracks(before: Names, added: seq<string>, replaced: seq<Binding>, now: Names, b: Binding)
    requires NamesTrack(before, added, replaced, now) && b.name !in now.named && b.node !in now.nameOf
    ensures NamesTrack(before, added + [b.name], replaced, Bind(now, b))
  {
    hide FirstNode, FirstName, HasName, HasNode;
  }

  /** Naming an assertion keeps the record of the scope exact. */
  lemma NamingTracks(before: Names, added: seq<string>, replaced: seq<Binding>, now: Names, name: string, node: Term)
    requires NamesTrack(before, added, replaced, now) && !AlreadyNamed(now, name, node)
    ensures NamesTrack(before, added + [name], replaced + DisplacedBy(now, name, node), NameInTables(now, name, node))
  {
    hide NamesTrack;
    TrackedBijective(before, added, replaced, now);
    var bs := DisplacedBy(now, name, node);
    var r, s := replaced, now;
    if node in now.nameOf {
      var b := Binding(now.nameOf[node], node);
      DisplaceTracks(before, added, r, s, b);
      r, s := r + [b], Displace(s, b);
    }
    if name in s.named {
      var b := Binding(name, s.named[name]);
      TrackedBijective(before, added, r, s);
      DisplaceTracks(before, added, r, s, b);
      r, s := r + [b], Displace(s, b);
    }
    BindTracks(before, added, r, s, Binding(name, node));
    assert r == replaced + bs;
    DisplaceFew(now, bs);
  }

  lemma DisplaceFew(ns: Names, bs: seq<Binding>)
    ensures |bs| == 1 ==> DisplaceAll(ns, bs) == Displace(ns, bs[0])
    ensures |bs| == 2 ==> DisplaceAll(ns, bs) == Displace(Displace(ns, bs[0]), bs[1])
  {
    if |bs| == 1 {
      assert bs[..0] == [];
    } else if |bs| == 2 {
      assert bs[..1][..0] == [] && bs[..1][0] == bs[0];
      assert DisplaceAll(ns, bs[..1]) == Displace(ns, bs[0]);
    }
  }

  lemma TrackedBijective(before: Names, added: seq<string>, replaced: seq<Binding>, now: Names)
    requires NamesTrack(before, added, replaced, now)
    ensures Bijective(now) && Bijective(before)
  {
  }

  lemma {:induction false} EraseKeepsRest(ns: Names, names: seq<string>)
    requires Bijective(ns)
    ensures EraseNames(ns, names).named == map n | n in ns.named && n !in names :: ns.named[n]
    ensures EraseNames(ns, names).nameOf == map x | x in ns.nameOf && ns.nameOf[x] !in names :: ns.nameOf[x]
  {
    if names != [] {
      var k := |names| - 1;
      EraseKeepsRest(ns, names[..k]);
      assert names == names[..k] + [names[k]];
    }
  }

  lemma {:induction false} ReinstateFirst(ns: Names, bs: seq<Binding>)
    ensures var r := Reinstate(ns, bs);
            && (forall n :: n in r.named <==> n in ns.named || HasName(bs, n))
            && (forall n | n in r.named :: r.named[n] == if HasName(bs, n) then FirstNode(bs, n) else ns.named[n])
            && (forall x :: x in r.nameOf <==> x in ns.nameOf || HasNode(bs, x))
            && (forall x | x in r.nameOf :: r.nameOf[x] == if HasNode(bs, x) then FirstName(bs, x) else ns.nameOf[x])
  {
    if bs != [] {
      ReinstateFirst(ns, bs[1..]);
      forall n
        ensures HasName(bs, n) <==> bs[0].name == n || HasName(bs[1..], n)
      {
        NameInTail(bs, n);
      }
      forall x
        ensures HasNode(bs, x) <==> bs[0].node == x || HasNode(bs[1..], x)
      {
        NodeInTail(bs, x);
      }
    }
  }

  lemma NameInTail(bs: seq<Binding>, n: string)
    requires bs != []
    ensures HasName(bs, n) <==> bs[0].name == n || HasName(bs[1..], n)
  {
    if HasName(bs[1..], n) {
      var i :| 0 <= i < |bs[1..]| && bs[1..][i].name == n;
      assert bs[i + 1].name == n;
    }
    if HasName(bs, n) && bs[0].name != n {
      var i :| 0 <= i < |bs| && bs[i].name == n;
      assert bs[1..][i - 1].name == n;
    }
  }

  lemma NodeInTail(bs: seq<Binding>, x: Term)
    requires bs != []
    ensures HasNode(bs, x) <==> bs[0].node == x || HasNode(bs[1..], x)
  {
    if HasNode(bs[1..], x) {
      var i :| 0 <= i < |bs[1..]| && bs[1..][i].node == x;
      assert bs[i + 1].node == x;
    }
    if HasNode(bs, x) && bs[0].node != x {
      var i :| 0 <= i < |bs| && bs[i].node == x;
      assert bs[1..][i - 1].node == x;
    }
  }

  /** Every displaced binding is made of a name and a node that were both bound
      when the scope was opened. */
  ghost predicate Restorable(before: Names, replaced: seq<Binding>) {
    forall i | 0 <= i < |replaced| :: replaced[i].name in before.named && replaced[i].node in before.nameOf
  }

  /** What a pop leaves in the tables. */
  ghost predicate Popped(now: Names, added: seq<string>, bs: seq<Binding>, p: Names) {
    && (forall n :: n in p.named <==> HasName(bs, n) || (n in now.named && n !in added))
    && (forall n | n in p.named :: p.named[n] == if HasName(bs, n) then FirstNode(bs, n) else now.named[n])
    && (forall x :: x in p.nameOf <==> HasNode(bs, x) || (x in now.nameOf && now.nameOf[x] !in added))
    && (forall x | x in p.nameOf :: p.nameOf[x] == if HasNode(bs, x) then FirstName(bs, x) else now.nameOf[x])
  }

  lemma PopTables(now: Names, f: Frame)
    requires Bijective(now)
    ensures Popped(now, f.addedNames, f.replaced, PopNames(now, f))
  {
    hide Reinstate, EraseNames, FirstNode, FirstName, HasName, HasNode, Bijective;
    EraseKeepsRest(now, f.addedNames);
    ReinstateFirst(EraseNames(now, f.addedNames), f.replaced);
  }

  lemma NamesComeBack(before: Names, added: seq<string>, bs: seq<Binding>, now: Names, p: Names)
    requires NamesTrack(before, added, bs, now) && Popped(now, added, bs, p)
    requires forall n | HasName(bs, n) :: n in before.named
    ensures p.named == before.named
  {
    hide FirstNode, FirstName, HasName, HasNode, Bijective;
    forall n
      ensures (n in p.named <==> n in before.named) && (n in p.named ==> p.named[n] == before.named[n])
    {
    }
  }

  lemma NodesComeBack(before: Names, added: seq<string>, bs: seq<Binding>, now: Names, p: Names)
    requires NamesTrack(before, added, bs, now) && Popped(now, added, bs, p)
    requires forall x | HasNode(bs, x) :: x in before.nameOf
    ensures p.nameOf == before.nameOf
  {
    hide FirstNode, FirstName, HasName, HasNode;
    forall x
      ensures (x in p.nameOf <==> x in before.nameOf) && (x in p.nameOf ==> p.nameOf[x] == before.nameOf[x])
    {
      if !HasNode(bs, x) {
        NodeSurvives(before, added, bs, now, x);
      }
    }
  }

  /** A node without a record is named as before, unless its name is new. */
  lemma NodeSurvives(before: Names, added: seq<string>, bs: seq<Binding>, now: Names, x: Term)
    requires NamesTrack(before, added, bs, now) && !HasNode(bs, x)
    ensures x in now.nameOf && now.nameOf[x] !in added ==> x in before.nameOf && before.nameOf[x] == now.nameOf[x]
    ensures x in before.nameOf ==> x in now.nameOf && now.nameOf[x] == before.nameOf[x] && before.nameOf[x] !in added
  {
  }

  /** Exactly then a pop restores the names. */
  lemma PopRestoresNames(before: Names, f: Frame, now: Names)
    requires NamesTrack(before, f.addedNames, f.replaced, now)
    ensures PopNames(now, f) == before <==> Restorable(before, f.replaced)
  {
    hide PopNames, FirstNode, FirstName, NamesTrack;
    var p := PopNames(now, f);
    TrackedBijective(before, f.addedNames, f.replaced, now);
    PopTables(now, f);
    if Restorable(before, f.replaced) {
      NamesComeBack(before, f.addedNames, f.replaced, now, p);
      NodesComeBack(before, f.addedNames, f.replaced, now, p);
    } else {
      var i :| 0 <= i < |f.replaced| && !(f.replaced[i].name in before.named && f.replaced[i].node in before.nameOf);
      assert HasName(f.replaced, f.replaced[i].name) && HasNode(f.replaced, f.replaced[i].node);
    }
  }

  // ------------------------------------------------------------------
  // Pops that do not restore
  // ------------------------------------------------------------------

  function ScopeFrame(added: seq<string>, replaced: seq<Binding>): Frame {
    Frame(0, 0, 0, 0, 0, added, replaced, [], [])
  }

  /** In a scope opened without names, x is named and renamed. The first
      binding was introduced and displaced in the scope; the pop brings it
      back. */
  lemma RenamedInScope(first: string, second: string, x: Term)
    requires first != second
    ensures var one := NameInTables(Names(map[], map[]), first, x);
            var two := NameInTables(one, second, x);
            var f := ScopeFrame([first, second], DisplacedBy(one, second, x));
            PopNames(two, f) == Names(map[first := x], map[x := first]) != Names(map[], map[])
  {
    hide EraseNames;
    var b := Binding(first, x);
    var one := Names(map[first := x], map[x := first]);
    var two := Names(map[second := x], map[x := second]);
    assert NameInTables(Names(map[], map[]), first, x) == one;
    assert DisplacedBy(one, second, x) == [b];
    DisplaceFew(one, [b]);
    assert Displace(one, b) == Names(map[], map[]);
    assert NameInTables(one, second, x) == two;
    EraseKeepsRest(two, [first, second]);
    assert EraseNames(two, [first, second]) == Names(map[], map[]);
    assert [b][1..] == [];
    assert Reinstate(Names(map[], map[]), [b]) == Bind(Names(map[], map[]), b);
    assert first in map[first := x];
  }

  /** With x named outside, the scope gives the name to y and then another name
      to y. After the pop both x and y claim the name: the tables are no longer
      inverse. */
  lemma InverseLost(name: string, other: string, x: Term, y: Term)
    requires name != other && x != y
    ensures var outer := Names(map[name := x], map[x := name]);
            var one := NameInTables(outer, name, y);
            var two := NameInTables(one, other, y);
            var f := ScopeFrame([name, other], DisplacedBy(outer, name, y) + DisplacedBy(one, other, y));
            && PopNames(two, f) == Names(map[name := x], map[y := name, x := name])
            && !Bijective(PopNames(two, f))
  {
    hide EraseNames;
    var outer := Names(map[name := x], map[x := name]);
    var one, two := Names(map[name := y], map[y := name]), Names(map[other := y], map[y := other]);
    var b, d := Binding(name, x), Binding(name, y);
    assert DisplacedBy(outer, name, y) == [b];
    DisplaceFew(outer, [b]);
    assert Displace(outer, b) == Names(map[], map[]);
    assert NameInTables(outer, name, y) == one;
    assert DisplacedBy(one, other, y) == [d];
    DisplaceFew(one, [d]);
    assert Displace(one, d) == Names(map[], map[]);
    assert NameInTables(one, other, y) == two;
    EraseKeepsRest(two, [name, other]);
    assert EraseNames(two, [name, other]) == Names(map[], map[]);
    assert [b] + [d] == [b, d] && [b, d][1..] == [d] && [d][1..] == [];
    var e := Names(map[], map[]);
    assert Reinstate(e, [d]) == Bind(e, d);
    assert Reinstate(e, [b, d]) == Bind(Bind(e, d), b);
    var p := Names(map[name := x], map[y := name, x := name]);
    assert p.nameOf[y] == name && p.named[name] != y;
  }
}
