// What the assertion stack holds: the commands given in the scopes still open.
module AssertionContents {
  import opened Terms
  import opened AssertionStack
  import opened AssertionRuns

  /** Commands that put something on the stack. */
  predicate IsCommand(step: Step) { step.Assert? || step.AssertSoft? || step.Assume? || step.AddLemma? }

  function Empties(n: nat): (levels: seq<seq<Step>>)
    ensures |levels| == n
  {
    if n == 0 then [] else Empties(n - 1) + [[]]
  }

  /** The commands given in each open scope, the outermost first. */
  function Scopes(steps: seq<Step>): (levels: seq<seq<Step>>)
    ensures levels != []
  {
    if steps == [] then [[]] else ScopesAfter(Scopes(steps[..|steps| - 1]), steps[|steps| - 1])
  }

  function ScopesAfter(levels: seq<seq<Step>>, step: Step): (r: seq<seq<Step>>)
    requires levels != []
    ensures r != []
  {
    var n := |levels| - 1;
    match step
    case Push(k) => levels + Empties(k)
    case Pop(k) => if k <= n then levels[..n - k + 1] else levels[..1]
    case Reset => Empties(n + 1)
    case Name(_, _) => levels
    case _ => levels[..n] + [levels[n] + [step]]
  }

  /** All of them, in the order in which they were given. */
  function InForce(levels: seq<seq<Step>>): seq<Step> {
    if levels == [] then [] else InForce(levels[..|levels| - 1]) + levels[|levels| - 1]
  }

  // ------------------------------------------------------------------
  // What a list of commands asks for
  // ------------------------------------------------------------------

  function Asserted(cs: seq<Step>): seq<Term> {
    if cs == [] then []
    else
      var n := |cs| - 1;
      if cs[n].Assert? then Asserted(cs[..n]) + [cs[n].node] else Asserted(cs[..n])
  }

  function AssertedGroups(cs: seq<Step>): seq<string> {
    if cs == [] then []
    else
      var n := |cs| - 1;
      if cs[n].Assert? then AssertedGroups(cs[..n]) + [cs[n].group] else AssertedGroups(cs[..n])
  }

  function Soft(cs: seq<Step>): seq<Term> {
    if cs == [] then []
    else
      var n := |cs| - 1;
      if cs[n].AssertSoft? then Soft(cs[..n]) + [cs[n].node] else Soft(cs[..n])
  }

  function SoftGroups(cs: seq<Step>): seq<string> {
    if cs == [] then []
    else
      var n := |cs| - 1;
      if cs[n].AssertSoft? then SoftGroups(cs[..n]) + [cs[n].group] else SoftGroups(cs[..n])
  }

  function Weights(cs: seq<Step>): seq<Term> {
    if cs == [] then []
    else
      var n := |cs| - 1;
      if cs[n].AssertSoft? then Weights(cs[..n]) + cs[n].weight else Weights(cs[..n])
  }

  function Assumed(cs: seq<Step>): seq<seq<Term>> {
    if cs == [] then []
    else
      var n := |cs| - 1;
      if cs[n].Assume? then Assumed(cs[..n]) + [cs[n].nodes] else Assumed(cs[..n])
  }

  function Lemmas(cs: seq<Step>): seq<Term> {
    if cs == [] then []
    else
      var n := |cs| - 1;
      if cs[n].AddLemma? then Lemmas(cs[..n]) + [cs[n].node] else Lemmas(cs[..n])
  }

  /** A group is the set of the positions at which it was named. */
  ghost predicate Grouped(g: Groups, names: seq<string>) {
    forall k, i: nat :: i in Members(g, k) <==> i < |names| && names[i] == k && k != ""
  }

  ghost predicate Represents(s: Store, cs: seq<Step>) {
    && s.assertions == Asserted(cs) && Grouped(s.groups, AssertedGroups(cs))
    && s.soft == Soft(cs) && s.weights == Weights(cs) && Grouped(s.softGroups, SoftGroups(cs))
    && s.assumptions == Assumed(cs) && s.lemmas == Lemmas(cs)
  }

  lemma {:induction false} AsManyGroups(cs: seq<Step>)
    ensures |AssertedGroups(cs)| == |Asserted(cs)| && |SoftGroups(cs)| == |Soft(cs)|
  {
    if cs != [] {
      AsManyGroups(cs[..|cs| - 1]);
    }
  }

  lemma GroupGrows(g: Groups, names: seq<string>, k: string)
    requires Grouped(g, names)
    ensures Grouped(if k == "" then g else AddMember(g, k, |names|), names + [k])
  {
    var h, all := if k == "" then g else AddMember(g, k, |names|), names + [k];
    forall key, i: nat
      ensures i in Members(h, key) <==> i < |all| && all[i] == key && key != ""
    {
      assert i in Members(g, key) <==> i < |names| && names[i] == key && key != "";
    }
  }

  /** One more command. */
  lemma CommandRepresented(c: Context, cs: seq<Step>, step: Step)
    requires Represents(c.store, cs) && IsCommand(step)
    ensures Represents(Do(c, step).store, cs + [step])
  {
    hide Record, NameInTables, DisplacedBy, Grouped;
    AsManyGroups(cs);
    var next := cs + [step];
    assert next[..|cs|] == cs;
    match step
    case Assert(node, group, name) => GroupGrows(c.store.groups, AssertedGroups(cs), group);
    case AssertSoft(node, weight, group) => GroupGrows(c.store.softGroups, SoftGroups(cs), group);
    case Assume(nodes) =>
    case AddLemma(node) =>
  }

  // ------------------------------------------------------------------
  // Runs
  // ------------------------------------------------------------------

  /** The store of the context and of every snapshot is what the commands in
      force there ask for. */
  ghost predicate Accounts(c: Context, snaps: seq<Context>, levels: seq<seq<Step>>)
    decreases |snaps|
  {
    && |levels| == |snaps| + 1
    && Represents(c.store, InForce(levels))
    && (forall i | 0 <= i < |InForce(levels)| :: IsCommand(InForce(levels)[i]))
    && (snaps != [] ==> Accounts(snaps[|snaps| - 1], snaps[..|snaps| - 1], levels[..|snaps|]))
  }

  /** Only the store of the context matters. */
  lemma OnlyStoreCounts(c: Context, d: Context, snaps: seq<Context>, levels: seq<seq<Step>>)
    requires Accounts(c, snaps, levels) && d.store == c.store
    ensures Accounts(d, snaps, levels)
  {
  }

  lemma CommandAccounted(c: Context, snaps: seq<Context>, levels: seq<seq<Step>>, step: Step)
    requires Accounts(c, snaps, levels) && IsCommand(step)
    ensures Accounts(Do(c, step), snaps, ScopesAfter(levels, step))
  {
    hide Represents, Do;
    var n, next := |levels| - 1, ScopesAfter(levels, step);
    assert next[..n] == levels[..n];
    assert InForce(next) == InForce(levels) + [step];
    CommandRepresented(c, InForce(levels), step);
  }

  lemma {:induction false} PushesAccounted(c: Context, snaps: seq<Context>, levels: seq<seq<Step>>, n: nat)
    requires Accounts(c, snaps, levels)
    ensures Accounts(PushScopes(c, n), PushSnapshots(c, snaps, n), levels + Empties(n))
  {
    hide Represents, Accounts;
    if n == 0 {
      assert levels + Empties(0) == levels;
    } else {
      PushesAccounted(c, snaps, levels, n - 1);
      PushAccounted(PushScopes(c, n - 1), PushSnapshots(c, snaps, n - 1), levels + Empties(n - 1));
      assert levels + Empties(n - 1) + [[]] == levels + Empties(n);
    }
  }

  lemma PushAccounted(c: Context, snaps: seq<Context>, levels: seq<seq<Step>>)
    requires Accounts(c, snaps, levels)
    ensures Accounts(PushOne(c), snaps + [c], levels + [[]])
  {
    hide Represents;
    var next := levels + [[]];
    assert next[..|levels|] == levels && (snaps + [c])[..|snaps|] == snaps;
    assert InForce(next) == InForce(levels);
  }

  lemma {:induction false} PopsAccounted(c: Context, snaps: seq<Context>, levels: seq<seq<Step>>, n: nat)
    requires Accounts(c, snaps, levels) && StoreGood(c, snaps)
    ensures Accounts(PopScopes(c, n), snaps[..Remaining(|snaps|, n)], levels[..Remaining(|snaps|, n) + 1])
    decreases n
  {
    hide Represents, StoreGood, PopOne, InForce;
    if n == 0 || snaps == [] {
      assert snaps[..|snaps|] == snaps && levels[..|levels|] == levels;
      assert StoreGood(c, snaps) ==> |snaps| == |c.frames| by { GoodLength(c, snaps); }
    } else {
      var k := |snaps| - 1;
      GoodLength(c, snaps);
      PopKeepsStoreGood(c, snaps);
      OnlyStoreCounts(snaps[k], PopOne(c), snaps[..k], levels[..k + 1]);
      PopsAccounted(PopOne(c), snaps[..k], levels[..k + 1], n - 1);
      var r := Remaining(|snaps|, n);
      assert snaps[..k][..r] == snaps[..r] && levels[..k + 1][..r + 1] == levels[..r + 1];
    }
  }

  lemma GoodLength(c: Context, snaps: seq<Context>)
    requires StoreGood(c, snaps)
    ensures |snaps| == |c.frames|
  {
  }

  lemma {:induction false} NothingInForce(n: nat)
    ensures InForce(Empties(n)) == []
  {
    if n > 0 {
      NothingInForce(n - 1);
      assert Empties(n)[..n - 1] == Empties(n - 1);
    }
  }

  lemma NothingRepresented()
    ensures Represents(EmptyContext.store, [])
  {
  }

  lemma {:induction false} EmptiesPrefix(n: nat, k: nat)
    requires k <= n
    ensures Empties(n)[..k] == Empties(k)
  {
    if k < n {
      EmptiesPrefix(n - 1, k);
      assert Empties(n)[..k] == Empties(n - 1)[..k];
    }
  }

  lemma LastCommand(cs: seq<Step>)
    requires cs != [] && IsCommand(cs[|cs| - 1])
    ensures Asserted(cs) != [] || Soft(cs) != [] || Assumed(cs) != [] || Lemmas(cs) != []
  {
  }

  /** An empty store asks for no commands. */
  lemma NoCommands(s: Store, cs: seq<Step>)
    requires Represents(s, cs) && forall i | 0 <= i < |cs| :: IsCommand(cs[i])
    requires s.assertions == [] && s.assumptions == [] && s.soft == [] && s.lemmas == []
    ensures cs == []
  {
    if cs != [] {
      LastCommand(cs);
    }
  }

  /** Where nothing is recorded, emptying every scope changes no snapshot. */
  lemma {:induction false} ResetAccounted(c: Context, snaps: seq<Context>, levels: seq<seq<Step>>)
    requires Accounts(c, snaps, levels) && StoreGood(c, snaps) && NothingRecorded(c)
    ensures Accounts(ResetAssertions(c), snaps, Empties(|levels|))
    decreases |snaps|
  {
    hide Represents, GroupsTrack, GroupsGood, InForce, Empties;
    NothingInForce(|levels|);
    NothingRepresented();
    if snaps != [] {
      var n := |snaps| - 1;
      assert NoSizes(c.frames[n]);
      forall i | 0 <= i < n
        ensures NoSizes(snaps[n].frames[i])
      {
        assert snaps[n].frames[i] == c.frames[i];
      }
      NoCommands(snaps[n].store, InForce(levels[..n + 1]));
      ResetAccounted(snaps[n], snaps[..n], levels[..n + 1]);
      EmptiesPrefix(|levels|, n + 1);
      NothingInForce(n + 1);
      SameCommands(snaps[n], snaps[..n], Empties(n + 1), levels[..n + 1]);
    }
  }

  /** The scopes below are accounted for; so is the context itself. */
  lemma SameCommands(c: Context, snaps: seq<Context>, levels: seq<seq<Step>>, others: seq<seq<Step>>)
    requires Accounts(ResetAssertions(c), snaps, levels) && Accounts(c, snaps, others) && InForce(levels) == InForce(others)
    ensures Accounts(c, snaps, levels)
  {
  }

  lemma StepAccounted(c: Context, snaps: seq<Context>, levels: seq<seq<Step>>, step: Step)
    requires Accounts(c, snaps, levels) && StoreGood(c, snaps) && (step.Reset? ==> NothingRecorded(c))
    ensures Accounts(Do(c, step), SnapshotsAfter(c, snaps, step), ScopesAfter(levels, step))
  {
    hide Accounts, StoreGood, NothingRecorded, PushScopes, PopScopes, NameInTables, DisplacedBy, Record;
    assert |levels| == |snaps| + 1 by { AccountsLength(c, snaps, levels); }
    match step
    case Push(n) => PushesAccounted(c, snaps, levels, n);
    case Pop(n) =>
      PopsAccounted(c, snaps, levels, n);
      assert snaps[..0] == [];
    case Reset => ResetAccounted(c, snaps, levels);
    case Name(name, node) => OnlyStoreCounts(c, NameAssertion(c, name, node), snaps, levels);
    case _ => CommandAccounted(c, snaps, levels, step);
  }

  lemma AccountsLength(c: Context, snaps: seq<Context>, levels: seq<seq<Step>>)
    requires Accounts(c, snaps, levels)
    ensures |levels| == |snaps| + 1 && Represents(c.store, InForce(levels))
  {
  }

  lemma {:induction false} RunAccounted(steps: seq<Step>)
    requires SafeRun(steps)
    ensures Accounts(Run(EmptyContext, steps), SnapshotsOf(steps), Scopes(steps))
  {
    hide Do, SnapshotsAfter, ScopesAfter, StoreGood, FramesNested, IndicesInRange, NothingRecorded;
    if steps == [] {
      NothingRepresented();
      assert InForce([[]]) == InForce([[]][..0]) + [];
    } else {
      hide Accounts;
      var n := |steps| - 1;
      SafePrefix(steps, n);
      RunAccounted(steps[..n]);
      SafeRunIsGood(steps[..n]);
      assert steps[n].Reset? ==> NothingRecorded(Run(EmptyContext, steps[..n]));
      StepAccounted(Run(EmptyContext, steps[..n]), SnapshotsOf(steps[..n]), Scopes(steps[..n]), steps[n]);
    }
  }

  /** After every run whose resets meet scopes that recorded nothing, the
      vectors hold what the commands in open scopes gave, in their order, and
      every group the positions of the assertions given with it. */
  lemma CommandsInForce(steps: seq<Step>)
    requires SafeRun(steps)
    ensures var c := Run(EmptyContext, steps);
            Represents(c.store, InForce(Scopes(steps))) && |Scopes(steps)| == |c.frames| + 1
  {
    hide Accounts, SafeRun, Run, SnapshotsOf, Scopes, StoreGood, Represents, InForce, FramesNested, IndicesInRange;
    RunAccounted(steps);
    SafeRunIsGood(steps);
    GoodLength(Run(EmptyContext, steps), SnapshotsOf(steps));
    AccountsLength(Run(EmptyContext, steps), SnapshotsOf(steps), Scopes(steps));
  }
}
