// The parser context that the commands update in place.
module ParserContext {
  import opened Terms
  import opened AssertionStack
  import opened AssertionRuns

  datatype Outcome = Outcome(assertionWasNamed: bool, previousName: string, nameWasReused: bool)

  class ParserState {
    var assertions: seq<Term>
    var assumptions: seq<seq<Term>>
    var softAssertions: seq<Term>
    var softWeights: seq<Term>
    var splitLemmas: seq<Term>
    var groups: Groups
    var softGroups: Groups
    var named: map<string, Term>
    var nameOf: map<Term, string>
    var scopeStack: seq<Frame>

    ghost function StoreNow(): Store
      reads this
    {
      Store(assertions, assumptions, softAssertions, softWeights, splitLemmas, groups, softGroups)
    }

    ghost function NamesNow(): Names
      reads this
    {
      Names(named, nameOf)
    }

    ghost function State(): Context
      reads this
    {
      Context(StoreNow(), NamesNow(), scopeStack)
    }

    constructor ()
      ensures State() == EmptyContext
    {
      assertions, assumptions, softAssertions, softWeights, splitLemmas := [], [], [], [], [];
      groups, softGroups, named, nameOf, scopeStack := map[], map[], map[], map[], [];
    }

    method PushScope(n: nat)
      modifies `scopeStack
      ensures State() == PushScopes(old(State()), n)
    {
      for i := 0 to n
        invariant State() == PushScopes(old(State()), i)
      {
        var frame := Frame(|assertions|, |assumptions|, |softAssertions|, |softWeights|, |splitLemmas|, [], [], [], []);
        scopeStack := scopeStack + [frame];
      }
    }

    method ResetAssertions()
      modifies this
      ensures State() == AssertionRuns.ResetAssertions(old(State()))
    {
      assertions, assumptions, softAssertions, softWeights, splitLemmas := [], [], [], [], [];
      groups, softGroups, named, nameOf := map[], map[], map[], map[];
    }

    method PopScope(n: nat)
      modifies this
      ensures State() == PopScopes(old(State()), n)
    {
      var levels := if n > |scopeStack| then |scopeStack| else n;
      PopAtMost(State(), n);
      for i := 0 to levels
        invariant |scopeStack| == |old(scopeStack)| - i
        invariant PopScopes(old(State()), levels) == PopScopes(State(), levels - i)
      {
        PopFrame();
      }
    }

    /** One round of the pop loop. */
    method PopFrame()
      requires scopeStack != []
      modifies this
      ensures State() == PopOne(old(State()))
    {
      hide Resize, Trim, Reinstate, EraseNames;
      var frame := scopeStack[|scopeStack| - 1];
      assertions := Resize(assertions, frame.assertions, NullTerm);
      assumptions := Resize(assumptions, frame.assumptions, []);
      softAssertions := Resize(softAssertions, frame.soft, NullTerm);
      softWeights := Resize(softWeights, frame.weights, NullTerm);
      splitLemmas := Resize(splitLemmas, frame.lemmas, NullTerm);
      EraseAdded(frame.addedNames);
      ReinstateReplaced(frame.replaced);
      groups := TrimGroups(groups, frame.addedGroups, frame.assertions);
      softGroups := TrimGroups(softGroups, frame.addedSoftGroups, frame.soft);
      scopeStack := scopeStack[..|scopeStack| - 1];
    }

    method EraseAdded(keys: seq<string>)
      modifies `named, `nameOf
      ensures NamesNow() == EraseNames(old(NamesNow()), keys)
    {
      for i := 0 to |keys|
        invariant NamesNow() == EraseNames(old(NamesNow()), keys[..i])
      {
        assert keys[..i + 1][..i] == keys[..i];
        if keys[i] in named {
          nameOf := nameOf - {named[keys[i]]};
          named := named - {keys[i]};
        }
      }
      assert keys[..|keys|] == keys;
    }

    method ReinstateReplaced(replaced: seq<Binding>)
      modifies `named, `nameOf
      ensures NamesNow() == Reinstate(old(NamesNow()), replaced)
    {
      var i := |replaced|;
      assert replaced[i..] == [];
      while i > 0
        invariant i <= |replaced|
        invariant NamesNow() == Reinstate(old(NamesNow()), replaced[i..])
      {
        i := i - 1;
        assert replaced[i..][1..] == replaced[i + 1..];
        named := named[replaced[i].name := replaced[i].node];
        nameOf := nameOf[replaced[i].node := replaced[i].name];
      }
      assert replaced[0..] == replaced;
    }

    static method TrimGroups(g: Groups, keys: seq<string>, size: nat) returns (r: Groups)
      ensures r == Trim(g, keys, size)
    {
      r := g;
      for i := 0 to |keys|
        invariant r == Trim(g, keys[..i], size)
      {
        assert keys[..i + 1][..i] == keys[..i];
        if keys[i] in r {
          var kept := Below(r[keys[i]], size);
          if kept == {} {
            r := r - {keys[i]};
          } else {
            r := r[keys[i] := kept];
          }
        }
      }
      assert keys[..|keys|] == keys;
    }

    /** nameAssertion: the new name wins over the assertion's old name and over
        the name's old assertion, and the scope records what was displaced. */
    method NameAssertion(name: string, node: Term) returns (out: Outcome)
      modifies `named, `nameOf, `scopeStack
      ensures State() == AssertionRuns.NameAssertion(old(State()), name, node)
      ensures old(Bijective(NamesNow())) ==> Bijective(NamesNow()) && AlreadyNamed(NamesNow(), name, node)
      ensures old(Bijective(NamesNow())) ==> SameBesides(old(NamesNow()), NamesNow(), name, node)
      ensures out.assertionWasNamed <==> !old(AlreadyNamed(NamesNow(), name, node)) && node in old(nameOf) && old(nameOf)[node] != name
      ensures out.assertionWasNamed ==> out.previousName == old(nameOf)[node]
      ensures out.nameWasReused <==> name in old(named) && old(named)[name] != node
    {
      hide Record, Bijective, NameInTables, SameBesides;
      out := Outcome(false, "", false);
      OthersStayNamed(NamesNow(), name, node);
      if name in named && named[name] == node {
        return;
      }
      ghost var before, frames := NamesNow(), scopeStack;
      var first := DropOldName(name, node);
      var second := TakeName(name, node);
      assert first + second == DisplacedBy(before, name, node);
      if first != [] {
        out := out.(assertionWasNamed := true, previousName := first[0].name);
      }
      out := out.(nameWasReused := second != []);
      RecordInTurn(frames, first, second, name);
      NamedInTurn(before, name, node, first, second);
      named := named[name := node];
      nameOf := nameOf[node := name];
      RecordAdded(name);
      assert NamesNow() == NameInTables(before, name, node);
      NamingIsBijective(before, name, node);
    }

    /** The assertion loses the name it had. */
    method DropOldName(name: string, node: Term) returns (dropped: seq<Binding>)
      modifies `named, `nameOf, `scopeStack
      ensures dropped == if node in old(nameOf) && old(nameOf)[node] != name then [Binding(old(nameOf)[node], node)] else []
      ensures NamesNow() == if dropped == [] then old(NamesNow()) else Displace(old(NamesNow()), dropped[0])
      ensures scopeStack == Record(old(scopeStack), [], dropped, [], [])
    {
      hide Record;
      RecordNothing(scopeStack);
      dropped := [];
      if node in nameOf && nameOf[node] != name {
        var b := Binding(nameOf[node], node);
        RecordReplaced(b);
        named := named - {b.name};
        nameOf := nameOf - {node};
        dropped := [b];
      }
    }

    /** The name loses the assertion it had; its own entry is about to be
        overwritten. */
    method TakeName(name: string, node: Term) returns (dropped: seq<Binding>)
      modifies `nameOf, `scopeStack
      ensures dropped == if name in named && named[name] != node then [Binding(name, named[name])] else []
      ensures nameOf == if dropped == [] then old(nameOf) else old(nameOf) - {named[name]}
      ensures scopeStack == Record(old(scopeStack), [], dropped, [], [])
    {
      hide Record;
      RecordNothing(scopeStack);
      dropped := [];
      if name in named && named[name] != node {
        var b := Binding(name, named[name]);
        RecordReplaced(b);
        nameOf := nameOf - {b.node};
        dropped := [b];
      }
    }

    method RecordReplaced(b: Binding)
      modifies `scopeStack
      ensures scopeStack == Record(old(scopeStack), [], [b], [], [])
    {
      if scopeStack != [] {
        var n := |scopeStack| - 1;
        var f := scopeStack[n];
        NothingMore(f);
        scopeStack := scopeStack[..n] + [f.(replaced := f.replaced + [b])];
      }
    }

    method RecordAdded(name: string)
      modifies `scopeStack
      ensures scopeStack == Record(old(scopeStack), [name], [], [], [])
    {
      if scopeStack != [] {
        var n := |scopeStack| - 1;
        var f := scopeStack[n];
        NothingMore(f);
        scopeStack := scopeStack[..n] + [f.(addedNames := f.addedNames + [name])];
      }
    }

    method RecordGroup(group: string)
      modifies `scopeStack
      ensures scopeStack == Record(old(scopeStack), [], [], [group], [])
    {
      if scopeStack != [] {
        var n := |scopeStack| - 1;
        var f := scopeStack[n];
        NothingMore(f);
        scopeStack := scopeStack[..n] + [f.(addedGroups := f.addedGroups + [group])];
      }
    }

    method RecordSoftGroup(group: string)
      modifies `scopeStack
      ensures scopeStack == Record(old(scopeStack), [], [], [], [group])
    {
      if scopeStack != [] {
        var n := |scopeStack| - 1;
        var f := scopeStack[n];
        NothingMore(f);
        scopeStack := scopeStack[..n] + [f.(addedSoftGroups := f.addedSoftGroups + [group])];
      }
    }

    /** The assert command once parsed: assertion and group, then the name, and
        the group's registration last. */
    method Assert(node: Term, group: string, name: string)
      modifies this
      ensures State() == DoAssert(old(State()), node, group, name)
      ensures assertions == old(assertions) + [node]
      ensures forall g :: Members(groups, g) == Members(old(groups), g) + if g == group && g != "" then {|old(assertions)|} else {}
      ensures name != "" && old(Bijective(NamesNow())) ==> AlreadyNamed(NamesNow(), name, node) && Bijective(NamesNow())
      ensures name == "" ==> NamesNow() == old(NamesNow())
      ensures unchanged(`softAssertions, `softWeights, `softGroups, `assumptions, `splitLemmas)
    {
      hide NameInTables, DisplacedBy, Record, Bijective;
      var index := |assertions|;
      assertions := assertions + [node];
      if group != "" {
        groups := groups[group := (if group in groups then groups[group] else {}) + {index}];
      }
      ghost var frames, bs := scopeStack, DisplacedBy(NamesNow(), name, node);
      if name != "" {
        var out := NameAssertion(name, node);
      }
      if group != "" {
        RecordGroup(group);
        RecordTwice(frames, [name], bs, [], [], [], [], [group], []);
        RecordTwice(frames, [], [], [group], [], [name], bs, [], []);
        assert [name] + [] == [] + [name] && bs + [] == [] + bs && [] + [group] == [group] + [];
      }
    }

    /** The assert-soft command once parsed; `weight` is empty when the weight
        was refused. */
    method AssertSoft(node: Term, weight: seq<Term>, group: string)
      modifies this
      ensures State() == DoAssertSoft(old(State()), node, weight, group)
      ensures softAssertions == old(softAssertions) + [node] && softWeights == old(softWeights) + weight
      ensures forall g ::
                Members(softGroups, g) == Members(old(softGroups), g) + if g == group && g != "" then {|old(softAssertions)|} else {}
      ensures unchanged(`assertions, `groups, `named, `nameOf, `assumptions, `splitLemmas)
    {
      hide Record;
      var index := |softAssertions|;
      softAssertions := softAssertions + [node];
      softWeights := softWeights + weight;
      if group != "" {
        softGroups := softGroups[group := (if group in softGroups then softGroups[group] else {}) + {index}];
        RecordSoftGroup(group);
      }
    }
  }

  /** Names of other assertions, and assertions with other names. */
  ghost predicate SameBesides(before: Names, now: Names, name: string, node: Term) {
    && (forall k | k != name && !AlreadyNamed(before, k, node) ::
          (k in now.named <==> k in before.named) && (k in before.named ==> now.named[k] == before.named[k]))
    && (forall x | x != node && !AlreadyNamed(before, name, x) ::
          (x in now.nameOf <==> x in before.nameOf) && (x in before.nameOf ==> now.nameOf[x] == before.nameOf[x]))
  }

  lemma OthersStayNamed(ns: Names, name: string, node: Term)
    ensures Bijective(ns) ==> SameBesides(ns, NameInTables(ns, name, node), name, node)
    ensures AlreadyNamed(ns, name, node) ==> NameInTables(ns, name, node) == ns
  {
    DisplaceFew(ns, DisplacedBy(ns, name, node));
    NothingDisplaced(ns);
  }

  /** Naming, displacement by displacement. */
  lemma NamedInTurn(ns: Names, name: string, node: Term, first: seq<Binding>, second: seq<Binding>)
    requires !AlreadyNamed(ns, name, node)
    requires first == if node in ns.nameOf && ns.nameOf[node] != name then [Binding(ns.nameOf[node], node)] else []
    requires second == if name in ns.named && ns.named[name] != node then [Binding(name, ns.named[name])] else []
    ensures var a := if first == [] then ns else Displace(ns, first[0]);
            var nameOf := if second == [] then a.nameOf else a.nameOf - {second[0].node};
            NameInTables(ns, name, node) == Names(a.named[name := node], nameOf[node := name])
  {
    hide DisplaceAll;
    var bs := first + second;
    assert bs == DisplacedBy(ns, name, node);
    DisplaceFew(ns, bs);
    NothingDisplaced(ns);
    var d := DisplaceAll(ns, bs);
    var a := if first == [] then ns else Displace(ns, first[0]);
    assert d == (if second == [] then a else Displace(a, second[0])) by {
      if second != [] && first != [] {
        assert |bs| == 2 && bs[0] == first[0] && bs[1] == second[0];
      }
    }
    Rebind(a.named, name, node);
  }

  lemma NothingDisplaced(ns: Names)
    ensures DisplaceAll(ns, []) == ns
  {
  }

  /** Removing a key before binding it changes nothing. */
  lemma Rebind(m: map<string, Term>, key: string, value: Term)
    ensures (m - {key})[key := value] == m[key := value]
  {
  }

  lemma NothingMore(f: Frame)
    ensures f.addedNames + [] == f.addedNames && f.replaced + [] == f.replaced
    ensures f.addedGroups + [] == f.addedGroups && f.addedSoftGroups + [] == f.addedSoftGroups
  {
  }

  /** Recording twice is recording both. */
  lemma RecordTwice(frames: seq<Frame>,
                    n1: seq<string>, b1: seq<Binding>, g1: seq<string>, s1: seq<string>,
                    n2: seq<string>, b2: seq<Binding>, g2: seq<string>, s2: seq<string>)
    ensures Record(Record(frames, n1, b1, g1, s1), n2, b2, g2, s2) == Record(frames, n1 + n2, b1 + b2, g1 + g2, s1 + s2)
  {
    if frames != [] {
      var f := frames[|frames| - 1];
      assert f.addedNames + n1 + n2 == f.addedNames + (n1 + n2);
      assert f.replaced + b1 + b2 == f.replaced + (b1 + b2);
      assert f.addedGroups + g1 + g2 == f.addedGroups + (g1 + g2);
      assert f.addedSoftGroups + s1 + s2 == f.addedSoftGroups + (s1 + s2);
    }
  }

  lemma RecordInTurn(frames: seq<Frame>, first: seq<Binding>, second: seq<Binding>, name: string)
    ensures Record(Record(Record(frames, [], first, [], []), [], second, [], []), [name], [], [], [])
            == Record(frames, [name], first + second, [], [])
  {
    hide Record;
    RecordTwice(frames, [], first, [], [], [], second, [], []);
    RecordTwice(frames, [], first + second, [], [], [name], [], [], []);
    var none: seq<string> := [];
    assert none + [] == none && none + [name] == [name] && first + second + [] == first + second;
  }

  lemma NamingIsBijective(ns: Names, name: string, node: Term)
    requires !AlreadyNamed(ns, name, node)
    ensures Bijective(ns) ==> Bijective(NameInTables(ns, name, node))
  {
    hide NameInTables, DisplacedBy, Bijective;
    if Bijective(ns) {
      NothingTracked(ns);
      NamingTracks(ns, [], [], ns, name, node);
      TrackedBijective(ns, [] + [name], [] + DisplacedBy(ns, name, node), NameInTables(ns, name, node));
    }
  }

  lemma {:induction false} PopAtMost(c: Context, n: nat)
    ensures PopScopes(c, n) == PopScopes(c, if n > |c.frames| then |c.frames| else n)
    decreases n
  {
    hide PopOne;
    if n > 0 && c.frames != [] {
      PopLength(c);
      PopAtMost(PopOne(c), n - 1);
    }
  }

  lemma PopLength(c: Context)
    requires c.frames != []
    ensures |PopOne(c).frames| == |c.frames| - 1
  {
  }
}
