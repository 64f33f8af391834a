// Runs of the assertion stack: commands, snapshots, and what every run keeps.
module AssertionRuns {
  import opened Terms
  import opened AssertionStack

  /** The commands that reach the stack; an empty name or group is an absent
      one. */
  datatype Step =
    | Assert(node: Term, group: string, name: string)
    | AssertSoft(node: Term, weight: seq<Term>, group: string)
    | Assume(nodes: seq<Term>)
    | AddLemma(node: Term)
    | Name(name: string, node: Term)
    | Push(n: nat)
    | Pop(n: nat)
    | Reset

  const EmptyContext := Context(Store([], [], [], [], [], map[], map[]), Names(map[], map[]), [])

  /** Recording in the innermost scope, if there is one. */
  function Record(frames: seq<Frame>, names: seq<string>, bs: seq<Binding>, groups: seq<string>, softGroups: seq<string>): seq<Frame> {
    if frames == [] then []
    else
      var n := |frames| - 1;
      var f := frames[n];
      frames[..n] + [f.(addedNames := f.addedNames + names,
                        replaced := f.replaced + bs,
                        addedGroups := f.addedGroups + groups,
                        addedSoftGroups := f.addedSoftGroups + softGroups)]
  }

  function NameAssertion(c: Context, name: string, node: Term): Context {
    if AlreadyNamed(c.names, name, node) then c
    else Context(c.store, NameInTables(c.names, name, node),
                 Record(c.frames, [name], DisplacedBy(c.names, name, node), [], []))
  }

  /** The assertion and its group; naming it comes on top. */
  function AddAssertion(c: Context, node: Term, group: string): Context {
    var s := c.store;
    Context(s.(assertions := s.assertions + [node],
               groups := if group == "" then s.groups else AddMember(s.groups, group, |s.assertions|)),
            c.names,
            if group == "" then c.frames else Record(c.frames, [], [], [group], []))
  }

  function DoAssert(c: Context, node: Term, group: string, name: string): Context {
    var d := AddAssertion(c, node, group);
    if name == "" then d else NameAssertion(d, name, node)
  }

  function DoAssertSoft(c: Context, node: Term, weight: seq<Term>, group: string): Context {
    var s := c.store;
    Context(s.(soft := s.soft + [node],
               weights := s.weights + weight,
               softGroups := if group == "" then s.softGroups else AddMember(s.softGroups, group, |s.soft|)),
            c.names,
            if group == "" then c.frames else Record(c.frames, [], [], [], [group]))
  }

  function FrameOf(s: Store): Frame {
    Frame(|s.assertions|, |s.assumptions|, |s.soft|, |s.weights|, |s.lemmas|, [], [], [], [])
  }

  function PushOne(c: Context): Context { c.(frames := c.frames + [FrameOf(c.store)]) }

  function PushScopes(c: Context, n: nat): Context {
    if n == 0 then c else PushOne(PushScopes(c, n - 1))
  }

  function PopOne(c: Context): Context
    requires c.frames != []
  {
    var n := |c.frames| - 1;
    Context(PopStore(c.store, c.frames[n]), PopNames(c.names, c.frames[n]), c.frames[..n])
  }

  /** More pops than open scopes pop them all. */
  function PopScopes(c: Context, n: nat): Context
    decreases n
  {
    if n == 0 || c.frames == [] then c else PopScopes(PopOne(c), n - 1)
  }

  /** reset-assertions empties the store and the names and keeps the scopes. */
  function ResetAssertions(c: Context): Context {
    Context(EmptyContext.store, EmptyContext.names, c.frames)
  }

  function Do(c: Context, step: Step): Context {
    match step
    case Assert(node, group, name) => DoAssert(c, node, group, name)
    case AssertSoft(node, weight, group) => DoAssertSoft(c, node, weight, group)
    case Assume(nodes) => c.(store := c.store.(assumptions := c.store.assumptions + [nodes]))
    case AddLemma(node) => c.(store := c.store.(lemmas := c.store.lemmas + [node]))
    case Name(name, node) => NameAssertion(c, name, node)
    case Push(n) => PushScopes(c, n)
    case Pop(n) => PopScopes(c, n)
    case Reset => ResetAssertions(c)
  }

  // ------------------------------------------------------------------
  // Snapshots
  // ------------------------------------------------------------------

  /** Every index of a group is the index of an assertion. */
  ghost predicate InRange(g: Groups, size: nat) { forall k, i | i in Members(g, k) :: i < size }

  ghost predicate IndicesInRange(s: Store) {
    InRange(s.groups, |s.assertions|) && InRange(s.softGroups, |s.soft|)
  }

  ghost predicate GroupsGood(s: Store) {
    NoEmptyGroup(s.groups) && NoEmptyGroup(s.softGroups) && IndicesInRange(s)
  }

  lemma AddedInRange(g: Groups, key: string, index: nat)
    requires InRange(g, index) && NoEmptyGroup(g)
    ensures InRange(g, index + 1) && InRange(AddMember(g, key, index), index + 1) && NoEmptyGroup(AddMember(g, key, index))
  {
    var h := AddMember(g, key, index);
    forall k, i | i in Members(h, k)
      ensures i < index + 1
    {
      assert i in Members(g, k) || i == index;
    }
  }

  /** One snapshot per open scope, the context at its push; the store has only
      grown from each to the next. */
  ghost predicate StoreGood(c: Context, snaps: seq<Context>)
    decreases |snaps|
  {
    && |snaps| == |c.frames|
    && GroupsGood(c.store)
    && (snaps != [] ==>
          var n := |snaps| - 1;
          && snaps[n].frames == c.frames[..n]
          && StoreTracks(snaps[n].store, c.frames[n], c.store)
          && StoreGood(snaps[n], snaps[..n]))
  }

  /** The names of each snapshot are tracked up to the next. */
  ghost predicate NamesGood(c: Context, snaps: seq<Context>)
    decreases |snaps|
  {
    && |snaps| == |c.frames|
    && Bijective(c.names)
    && (snaps != [] ==>
          var n := |snaps| - 1;
          && snaps[n].frames == c.frames[..n]
          && NamesTrack(snaps[n].names, c.frames[n].addedNames, c.frames[n].replaced, c.names)
          && NamesGood(snaps[n], snaps[..n]))
  }

  predicate FrameWithin(f: Frame, g: Frame) {
    && f.assertions <= g.assertions && f.assumptions <= g.assumptions
    && f.soft <= g.soft && f.weights <= g.weights && f.lemmas <= g.lemmas
  }

  /** Recorded sizes are nested and none exceeds the current one. */
  ghost predicate FramesNested(c: Context) {
    && (forall i, j | 0 <= i < j < |c.frames| :: FrameWithin(c.frames[i], c.frames[j]))
    && (forall i | 0 <= i < |c.frames| :: FrameWithin(c.frames[i], FrameOf(c.store)))
  }

  /** The snapshots after a step. */
  ghost function SnapshotsAfter(c: Context, snaps: seq<Context>, step: Step): seq<Context> {
    match step
    case Push(n) => PushSnapshots(c, snaps, n)
    case Pop(n) => if n <= |snaps| then snaps[..|snaps| - n] else []
    case _ => snaps
  }

  ghost function PushSnapshots(c: Context, snaps: seq<Context>, n: nat): seq<Context> {
    if n == 0 then snaps else PushSnapshots(c, snaps, n - 1) + [PushScopes(c, n - 1)]
  }

  // ------------------------------------------------------------------
  // Steps
  // ------------------------------------------------------------------

  /** A step that only grows the store and records what it did. */
  ghost predicate GrowsTo(c: Context, d: Context) {
    && |d.frames| == |c.frames|
    && GroupsGood(d.store)
    && (c.frames != [] ==>
          var n := |c.frames| - 1;
          && d.frames[..n] == c.frames[..n]
          && forall before | StoreTracks(before, c.frames[n], c.store) :: StoreTracks(before, d.frames[n], d.store))
  }

  lemma GrowKeepsGood(c: Context, d: Context, snaps: seq<Context>)
    requires StoreGood(c, snaps) && GrowsTo(c, d)
    ensures StoreGood(d, snaps)
  {
    hide StoreTracks;
  }

  lemma AssertGrows(c: Context, node: Term, group: string)
    requires GroupsGood(c.store)
    ensures GrowsTo(c, AddAssertion(c, node, group))
  {
    hide GroupsTrack, InRange, NoEmptyGroup;
    AddedInRange(c.store.groups, group, |c.store.assertions|);
    var d := AddAssertion(c, node, group);
    if c.frames != [] {
      var n := |c.frames| - 1;
      var f := c.frames[n];
      forall before | StoreTracks(before, f, c.store)
        ensures StoreTracks(before, d.frames[n], d.store)
      {
        assert f.addedSoftGroups + [] == f.addedSoftGroups;
        if group != "" {
          AddMemberTracks(before.groups, f.addedGroups, f.assertions, c.store.groups, group, |c.store.assertions|);
        }
      }
    }
  }

  lemma AssertSoftGrows(c: Context, node: Term, weight: seq<Term>, group: string)
    requires GroupsGood(c.store)
    ensures GrowsTo(c, DoAssertSoft(c, node, weight, group))
  {
    hide GroupsTrack, InRange, NoEmptyGroup;
    AddedInRange(c.store.softGroups, group, |c.store.soft|);
    var d := DoAssertSoft(c, node, weight, group);
    if c.frames != [] {
      var n := |c.frames| - 1;
      var f := c.frames[n];
      forall before | StoreTracks(before, f, c.store)
        ensures StoreTracks(before, d.frames[n], d.store)
      {
        assert f.addedGroups + [] == f.addedGroups;
        if group != "" {
          AddMemberTracks(before.softGroups, f.addedSoftGroups, f.soft, c.store.softGroups, group, |c.store.soft|);
        }
      }
    }
  }

  lemma OtherGrows(c: Context, nodes: seq<Term>, node: Term)
    requires GroupsGood(c.store)
    ensures GrowsTo(c, c.(store := c.store.(assumptions := c.store.assumptions + [nodes])))
    ensures GrowsTo(c, c.(store := c.store.(lemmas := c.store.lemmas + [node])))
  {
    hide GroupsTrack, NoEmptyGroup;
  }

  lemma NamingGrows(c: Context, name: string, node: Term)
    requires GroupsGood(c.store)
    ensures GrowsTo(c, NameAssertion(c, name, node))
  {
    hide GroupsTrack, NoEmptyGroup, NameInTables, DisplacedBy;
    if c.frames != [] && !AlreadyNamed(c.names, name, node) {
      var f := c.frames[|c.frames| - 1];
      assert f.addedGroups + [] == f.addedGroups && f.addedSoftGroups + [] == f.addedSoftGroups;
    }
  }

  /** Steps other than naming leave names and their records alone. */
  lemma NamesUntouched(c: Context, d: Context, groups: seq<string>, softGroups: seq<string>, snaps: seq<Context>)
    requires NamesGood(c, snaps)
    requires d.names == c.names && d.frames == Record(c.frames, [], [], groups, softGroups)
    ensures NamesGood(d, snaps)
  {
    hide NamesTrack;
    if c.frames != [] {
      var f := c.frames[|c.frames| - 1];
      assert f.addedNames + [] == f.addedNames && f.replaced + [] == f.replaced;
    }
  }

  lemma RecordNothing(frames: seq<Frame>)
    ensures Record(frames, [], [], [], []) == frames
  {
    if frames != [] {
      var f := frames[|frames| - 1];
      assert f.addedNames + [] == f.addedNames && f.replaced + [] == f.replaced;
      assert f.addedGroups + [] == f.addedGroups && f.addedSoftGroups + [] == f.addedSoftGroups;
      assert frames == frames[..|frames| - 1] + [f];
    }
  }

  lemma NamingKeepsNames(c: Context, name: string, node: Term, snaps: seq<Context>)
    requires NamesGood(c, snaps)
    ensures NamesGood(NameAssertion(c, name, node), snaps)
  {
    hide NamesTrack, NameInTables, DisplacedBy;
    if !AlreadyNamed(c.names, name, node) {
      if snaps != [] {
        var n := |snaps| - 1;
        var f := c.frames[n];
        NamingTracks(snaps[n].names, f.addedNames, f.replaced, c.names, name, node);
        TrackedBijective(snaps[n].names, f.addedNames + [name], f.replaced + DisplacedBy(c.names, name, node), NameInTables(c.names, name, node));
      } else {
        NothingTracked(c.names);
        NamingTracks(c.names, [], [], c.names, name, node);
        TrackedBijective(c.names, [] + [name], [] + DisplacedBy(c.names, name, node), NameInTables(c.names, name, node));
      }
    }
  }

  /** A fresh scope has recorded nothing. */
  lemma NothingTracked(ns: Names)
    requires Bijective(ns)
    ensures NamesTrack(ns, [], [], ns)
  {
  }

  lemma FreshStore(s: Store)
    requires GroupsGood(s)
    ensures StoreTracks(s, FrameOf(s), s)
  {
    FreshGroups(s.groups, |s.assertions|);
    FreshGroups(s.softGroups, |s.soft|);
  }

  lemma FreshGroups(g: Groups, size: nat)
    requires NoEmptyGroup(g) && InRange(g, size)
    ensures GroupsTrack(g, [], size, g)
  {
    forall k
      ensures Below(Members(g, k), size) == Members(g, k)
    {
      assert forall i | i in Members(g, k) :: i < size;
    }
  }

  lemma PushKeepsGood(c: Context, snaps: seq<Context>)
    ensures StoreGood(c, snaps) ==> StoreGood(PushOne(c), snaps + [c])
    ensures NamesGood(c, snaps) ==> NamesGood(PushOne(c), snaps + [c])
  {
    hide NamesTrack, Bijective, StoreTracks, GroupsGood;
    var d, next := PushOne(c), snaps + [c];
    assert next[..|snaps|] == snaps && d.frames[..|c.frames|] == c.frames;
    if NamesGood(c, snaps) {
      NothingTracked(c.names);
    }
    if StoreGood(c, snaps) {
      FreshStore(c.store);
    }
  }

  /** The innermost scope can be popped without losing or inventing a name. */
  ghost predicate TopRestorable(c: Context, snaps: seq<Context>)
    requires |snaps| == |c.frames| && snaps != []
  {
    Restorable(snaps[|snaps| - 1].names, c.frames[|snaps| - 1].replaced)
  }

  /** One pop: the store and the outer scopes are those of the push, always;
      the names exactly if they are restorable. */
  lemma PopOneRestores(c: Context, snaps: seq<Context>)
    requires StoreGood(c, snaps) && NamesGood(c, snaps) && snaps != []
    ensures var p := snaps[|snaps| - 1];
            && PopOne(c).store == p.store && PopOne(c).frames == p.frames
            && (PopOne(c) == p <==> TopRestorable(c, snaps))
  {
    hide NamesTrack, StoreTracks, PopStore, PopNames, Restorable;
    var n := |snaps| - 1;
    PopStoreRestores(snaps[n].store, c.frames[n], c.store);
    PopRestoresNames(snaps[n].names, c.frames[n], c.names);
  }

  /** The store part of a pop needs nothing of the names. */
  lemma PopKeepsStoreGood(c: Context, snaps: seq<Context>)
    requires StoreGood(c, snaps) && snaps != []
    ensures StoreGood(PopOne(c), snaps[..|snaps| - 1])
    ensures PopOne(c).store == snaps[|snaps| - 1].store && PopOne(c).frames == snaps[|snaps| - 1].frames
  {
    hide StoreTracks, PopStore, PopNames, GroupsGood;
    var n := |snaps| - 1;
    PopStoreRestores(snaps[n].store, c.frames[n], c.store);
    OnlyStore(snaps[n], PopOne(c), snaps[..n]);
  }

  lemma OnlyStore(c: Context, d: Context, snaps: seq<Context>)
    requires StoreGood(c, snaps) && d.store == c.store && d.frames == c.frames
    ensures StoreGood(d, snaps)
  {
  }

  // ------------------------------------------------------------------
  // Several levels
  // ------------------------------------------------------------------

  lemma {:induction false} PushesKeepGood(c: Context, snaps: seq<Context>, n: nat)
    ensures StoreGood(c, snaps) ==> StoreGood(PushScopes(c, n), PushSnapshots(c, snaps, n))
    ensures NamesGood(c, snaps) ==> NamesGood(PushScopes(c, n), PushSnapshots(c, snaps, n))
  {
    hide StoreGood, NamesGood, PushOne;
    if n > 0 {
      PushesKeepGood(c, snaps, n - 1);
      PushKeepsGood(PushScopes(c, n - 1), PushSnapshots(c, snaps, n - 1));
    }
  }

  /** Every scope a pop of `n` levels closes is restorable. */
  ghost predicate PopsRestorable(c: Context, snaps: seq<Context>, n: nat)
    decreases n
  {
    n == 0 || snaps == [] || |snaps| != |c.frames|
    || (TopRestorable(c, snaps) && PopsRestorable(snaps[|snaps| - 1], snaps[..|snaps| - 1], n - 1))
  }

  function Remaining(depth: nat, n: nat): nat { if n <= depth then depth - n else 0 }

  lemma {:induction false} PopsKeepStoreGood(c: Context, snaps: seq<Context>, n: nat)
    requires StoreGood(c, snaps)
    ensures StoreGood(PopScopes(c, n), snaps[..Remaining(|snaps|, n)])
    decreases n
  {
    hide PopOne, StoreTracks, GroupsGood;
    if n == 0 || snaps == [] {
      assert snaps[..|snaps|] == snaps;
    } else {
      var lower := snaps[..|snaps| - 1];
      PopKeepsStoreGood(c, snaps);
      PopsKeepStoreGood(PopOne(c), lower, n - 1);
      assert lower[..Remaining(|lower|, n - 1)] == snaps[..Remaining(|snaps|, n)];
    }
  }

  /** A pop of any number of levels brings back the context at the matching
      push, vectors, groups, names and outer scopes alike. */
  lemma {:induction false} PopsRestore(c: Context, snaps: seq<Context>, n: nat)
    requires StoreGood(c, snaps) && NamesGood(c, snaps) && PopsRestorable(c, snaps, n)
    ensures var r := Remaining(|snaps|, n);
            && PopScopes(c, n) == (if r < |snaps| then snaps[r] else c)
            && StoreGood(PopScopes(c, n), snaps[..r]) && NamesGood(PopScopes(c, n), snaps[..r])
    decreases n
  {
    hide PopOne, StoreTracks, GroupsGood, NamesTrack, Bijective, TopRestorable;
    if n == 0 || snaps == [] {
      assert snaps[..|snaps|] == snaps;
    } else {
      var lower := snaps[..|snaps| - 1];
      PopOneRestores(c, snaps);
      PopsRestore(snaps[|snaps| - 1], lower, n - 1);
      assert lower[..Remaining(|lower|, n - 1)] == snaps[..Remaining(|snaps|, n)];
    }
  }

  /** The usual way to be restorable: no binding that a scope introduced is
      displaced while the scope is open. */
  lemma UndisturbedIsRestorable(before: Names, added: seq<string>, replaced: seq<Binding>, now: Names, name: string, node: Term)
    requires NamesTrack(before, added, replaced, now) && Restorable(before, replaced)
    requires forall b | b in DisplacedBy(now, name, node) :: b.name !in added
    ensures Restorable(before, replaced + DisplacedBy(now, name, node))
  {
    var bs := DisplacedBy(now, name, node);
    forall i | 0 <= i < |bs|
      ensures bs[i].name in before.named && bs[i].node in before.nameOf
    {
      assert bs[i] in bs;
    }
  }

  // ------------------------------------------------------------------
  // Runs
  // ------------------------------------------------------------------

  /** No open scope has recorded anything. */
  predicate NothingRecorded(c: Context) {
    forall i | 0 <= i < |c.frames| :: NoSizes(c.frames[i])
  }

  predicate NoSizes(f: Frame) {
    f.assertions == 0 && f.assumptions == 0 && f.soft == 0 && f.weights == 0 && f.lemmas == 0
  }

  /** Exactly then the recorded sizes are within the current ones after
      reset-assertions. */
  lemma ResetNests(c: Context)
    ensures FramesNested(ResetAssertions(c)) <==> NothingRecorded(c)
  {
    var d := ResetAssertions(c);
    if FramesNested(d) {
      forall i | 0 <= i < |c.frames|
        ensures NoSizes(c.frames[i])
      {
        assert FrameWithin(d.frames[i], FrameOf(d.store));
      }
    }
  }

  lemma ResetKeepsStore(c: Context, snaps: seq<Context>)
    requires StoreGood(c, snaps) && NothingRecorded(c)
    ensures StoreGood(ResetAssertions(c), snaps)
  {
    if snaps != [] {
      var n := |snaps| - 1;
      assert NoSizes(c.frames[n]);
      NothingToTrack(snaps[n].store, c.frames[n], c.store);
    }
  }

  lemma NothingToTrack(before: Store, f: Frame, now: Store)
    requires StoreTracks(before, f, now) && NoSizes(f)
    ensures StoreTracks(before, f, EmptyContext.store)
  {
    NoMembers(before.groups, f.addedGroups, now.groups);
    NoMembers(before.softGroups, f.addedSoftGroups, now.softGroups);
  }

  lemma NoMembers(before: Groups, keys: seq<string>, now: Groups)
    requires GroupsTrack(before, keys, 0, now)
    ensures GroupsTrack(before, keys, 0, map[])
  {
    forall k
      ensures Members(before, k) == {}
    {
      assert Below(Members(now, k), 0) == {};
    }
  }

  lemma StepKeepsStore(c: Context, snaps: seq<Context>, step: Step)
    requires StoreGood(c, snaps) && (step.Reset? ==> NothingRecorded(c))
    ensures StoreGood(Do(c, step), SnapshotsAfter(c, snaps, step))
  {
    hide StoreTracks, GroupsGood, GrowsTo, AddAssertion, DoAssertSoft, NameAssertion, PushScopes, PopScopes;
    assert GroupsGood(c.store);
    match step
    case Assert(node, group, name) =>
      var d := AddAssertion(c, node, group);
      AssertGrows(c, node, group);
      GrowKeepsGood(c, d, snaps);
      if name != "" {
        assert GroupsGood(d.store);
        NamingGrows(d, name, node);
        GrowKeepsGood(d, NameAssertion(d, name, node), snaps);
      }
    case AssertSoft(node, weight, group) =>
      AssertSoftGrows(c, node, weight, group);
      GrowKeepsGood(c, DoAssertSoft(c, node, weight, group), snaps);
    case Assume(nodes) =>
      OtherGrows(c, nodes, NullTerm);
      GrowKeepsGood(c, Do(c, step), snaps);
    case AddLemma(node) =>
      OtherGrows(c, [], node);
      GrowKeepsGood(c, Do(c, step), snaps);
    case Name(name, node) =>
      NamingGrows(c, name, node);
      GrowKeepsGood(c, NameAssertion(c, name, node), snaps);
    case Push(n) => PushesKeepGood(c, snaps, n);
    case Pop(n) => PopsKeepStoreGood(c, snaps, n);
    case Reset => ResetKeepsStore(c, snaps);
  }

  /** Every binding of the names was displaced. */
  ghost predicate AllDisplaced(before: Names, replaced: seq<Binding>) {
    && (forall n | n in before.named :: HasName(replaced, n))
    && (forall x | x in before.nameOf :: HasNode(replaced, x))
  }

  /** The names of the innermost scope's push are on record. */
  ghost predicate NamesOnRecord(c: Context, snaps: seq<Context>) {
    |snaps| == |c.frames| && (snaps != [] ==> AllDisplaced(snaps[|snaps| - 1].names, c.frames[|snaps| - 1].replaced))
  }

  /** A pop is clean if every scope it closes is restorable, a reset if nothing
      is recorded but names; the other steps always are. */
  ghost predicate CleanStep(c: Context, snaps: seq<Context>, step: Step) {
    && (step.Pop? ==> PopsRestorable(c, snaps, step.n))
    && (step.Reset? ==> NothingRecorded(c) && NamesOnRecord(c, snaps))
  }

  lemma ResetKeepsNames(c: Context, snaps: seq<Context>)
    requires NamesGood(c, snaps) && NamesOnRecord(c, snaps)
    ensures NamesGood(ResetAssertions(c), snaps)
  {
    hide FirstNode, FirstName, HasName, HasNode;
  }

  lemma StepKeepsNames(c: Context, snaps: seq<Context>, step: Step)
    requires StoreGood(c, snaps) && NamesGood(c, snaps) && CleanStep(c, snaps, step)
    ensures NamesGood(Do(c, step), SnapshotsAfter(c, snaps, step))
  {
    hide NamesGood, StoreGood, NameAssertion, PushScopes, PopScopes, PopsRestorable;
    RecordNothing(c.frames);
    match step
    case Assert(node, group, name) =>
      var d := AddAssertion(c, node, group);
      NamesUntouched(c, d, if group == "" then [] else [group], [], snaps);
      if name != "" {
        NamingKeepsNames(d, name, node, snaps);
      }
    case AssertSoft(node, weight, group) =>
      NamesUntouched(c, Do(c, step), [], if group == "" then [] else [group], snaps);
    case Assume(nodes) => NamesUntouched(c, Do(c, step), [], [], snaps);
    case AddLemma(node) => NamesUntouched(c, Do(c, step), [], [], snaps);
    case Name(name, node) => NamingKeepsNames(c, name, node, snaps);
    case Push(n) => PushesKeepGood(c, snaps, n);
    case Pop(n) => PopsRestore(c, snaps, n);
    case Reset => ResetKeepsNames(c, snaps);
  }

  function Run(c: Context, steps: seq<Step>): Context {
    if steps == [] then c else Do(Run(c, steps[..|steps| - 1]), steps[|steps| - 1])
  }

  ghost function SnapshotsOf(steps: seq<Step>): seq<Context> {
    if steps == [] then []
    else
      var n := |steps| - 1;
      SnapshotsAfter(Run(EmptyContext, steps[..n]), SnapshotsOf(steps[..n]), steps[n])
  }

  ghost predicate CleanRun(steps: seq<Step>) {
    forall n | 0 <= n < |steps| :: CleanStep(Run(EmptyContext, steps[..n]), SnapshotsOf(steps[..n]), steps[n])
  }

  /** reset-assertions is used only where no open scope has recorded
      anything. */
  ghost predicate SafeRun(steps: seq<Step>) {
    forall n | 0 <= n < |steps| && steps[n].Reset? :: NothingRecorded(Run(EmptyContext, steps[..n]))
  }

  lemma SafePrefix(steps: seq<Step>, n: nat)
    requires SafeRun(steps) && n <= |steps|
    ensures SafeRun(steps[..n])
  {
    forall k | 0 <= k < n && steps[..n][k].Reset?
      ensures NothingRecorded(Run(EmptyContext, steps[..n][..k]))
    {
      assert steps[..n][..k] == steps[..k] && steps[k].Reset?;
    }
  }

  /** After such a run: recorded sizes are nested and within the current ones,
      group indices are indices of assertions, and a pop returns the store to
      its snapshots. */
  lemma {:induction false} SafeRunIsGood(steps: seq<Step>)
    requires SafeRun(steps)
    ensures var c := Run(EmptyContext, steps);
            FramesNested(c) && IndicesInRange(c.store) && StoreGood(c, SnapshotsOf(steps))
  {
    hide Do, SnapshotsAfter, StoreGood, FramesNested, IndicesInRange, NothingRecorded;
    if steps == [] {
      EmptyIsGood();
    } else {
      var n := |steps| - 1;
      SafePrefix(steps, n);
      SafeRunIsGood(steps[..n]);
      assert steps[n].Reset? ==> NothingRecorded(Run(EmptyContext, steps[..n]));
      StepKeepsStore(Run(EmptyContext, steps[..n]), SnapshotsOf(steps[..n]), steps[n]);
    }
    GoodIsNested(Run(EmptyContext, steps), SnapshotsOf(steps));
  }

  /** Recorded sizes stay nested all along a run exactly if its resets are
      used that way. */
  lemma {:induction false} EveryRunIsSafe(steps: seq<Step>)
    ensures SafeRun(steps) <==> forall n | 0 <= n <= |steps| :: FramesNested(Run(EmptyContext, steps[..n]))
  {
    hide FramesNested, Do, NothingRecorded;
    if SafeRun(steps) {
      forall n | 0 <= n <= |steps|
        ensures FramesNested(Run(EmptyContext, steps[..n]))
      {
        SafePrefix(steps, n);
        SafeRunIsGood(steps[..n]);
      }
    } else {
      var n :| 0 <= n < |steps| && steps[n].Reset? && !NothingRecorded(Run(EmptyContext, steps[..n]));
      assert steps[..n + 1][..n] == steps[..n] && steps[..n + 1][n] == Reset;
      ResetIsDone(Run(EmptyContext, steps[..n]));
      ResetNests(Run(EmptyContext, steps[..n]));
      assert !FramesNested(Run(EmptyContext, steps[..n + 1]));
    }
  }

  lemma ResetIsDone(c: Context)
    ensures Do(c, Reset) == ResetAssertions(c)
  {
  }

  lemma EmptyIsGood()
    ensures StoreGood(EmptyContext, []) && NamesGood(EmptyContext, [])
  {
  }

  lemma {:induction false} GoodIsNested(c: Context, snaps: seq<Context>)
    requires StoreGood(c, snaps)
    ensures FramesNested(c) && IndicesInRange(c.store)
    decreases |snaps|
  {
    hide GroupsTrack;
    if snaps != [] {
      var n := |snaps| - 1;
      GoodIsNested(snaps[n], snaps[..n]);
      forall i | 0 <= i < n
        ensures FrameWithin(c.frames[i], c.frames[n]) && FrameWithin(c.frames[i], FrameOf(c.store))
      {
        assert c.frames[i] == snaps[n].frames[i];
      }
      forall i, j | 0 <= i < j < |c.frames|
        ensures FrameWithin(c.frames[i], c.frames[j])
      {
        if j < n {
          assert c.frames[i] == snaps[n].frames[i] && c.frames[j] == snaps[n].frames[j];
        }
      }
    }
  }

  /** After every clean run the name tables are each other's inverse, and a
      clean pop brings back the whole context at the matching push. */
  lemma {:induction false} CleanRunsRestore(steps: seq<Step>, n: nat)
    requires CleanRun(steps)
    ensures var c := Run(EmptyContext, steps);
            var snaps := SnapshotsOf(steps);
            && Bijective(c.names)
            && (PopsRestorable(c, snaps, n) && 0 < n <= |snaps| ==> Do(c, Pop(n)) == snaps[|snaps| - n])
  {
    hide StoreGood, NamesGood, PopsRestorable, PopScopes, CleanStep, Run, SnapshotsOf, CleanRun, FramesNested, SafeRun, Bijective;
    hide IndicesInRange;
    CleanRunsAreGood(steps);
    CleanIsSafe(steps);
    SafeRunIsGood(steps);
    var c, snaps := Run(EmptyContext, steps), SnapshotsOf(steps);
    GoodNames(c, snaps);
    if PopsRestorable(c, snaps, n) {
      PopsRestore(c, snaps, n);
    }
  }

  lemma GoodNames(c: Context, snaps: seq<Context>)
    requires NamesGood(c, snaps)
    ensures Bijective(c.names)
  {
  }

  lemma CleanIsSafe(steps: seq<Step>)
    requires CleanRun(steps)
    ensures SafeRun(steps)
  {
    hide PopsRestorable, NothingRecorded, Run, SnapshotsOf;
    forall n | 0 <= n < |steps| && steps[n].Reset?
      ensures NothingRecorded(Run(EmptyContext, steps[..n]))
    {
      assert CleanStep(Run(EmptyContext, steps[..n]), SnapshotsOf(steps[..n]), steps[n]);
    }
  }

  lemma {:induction false} CleanRunsAreGood(steps: seq<Step>)
    requires CleanRun(steps)
    ensures NamesGood(Run(EmptyContext, steps), SnapshotsOf(steps))
  {
    hide Do, SnapshotsAfter, StoreGood, NamesGood, CleanStep, SafeRun;
    if steps == [] {
      EmptyIsGood();
    } else {
      var n := |steps| - 1;
      forall k | 0 <= k < n
        ensures CleanStep(Run(EmptyContext, steps[..n][..k]), SnapshotsOf(steps[..n][..k]), steps[..n][k])
      {
        assert steps[..n][..k] == steps[..k];
      }
      CleanRunsAreGood(steps[..n]);
      CleanIsSafe(steps[..n]);
      SafeRunIsGood(steps[..n]);
      StepKeepsNames(Run(EmptyContext, steps[..n]), SnapshotsOf(steps[..n]), steps[n]);
    }
  }

  /** Outer snapshots stay while no pop reaches below them. */
  lemma {:induction false} OuterSnapshotsStay(steps: seq<Step>, k: nat, depth: nat)
    requires k <= |steps|
    requires forall m | k <= m <= |steps| :: |SnapshotsOf(steps[..m])| >= depth
    ensures |SnapshotsOf(steps)| >= depth && |SnapshotsOf(steps[..k])| >= depth
    ensures SnapshotsOf(steps)[..depth] == SnapshotsOf(steps[..k])[..depth]
    decreases |steps|
  {
    hide SnapshotsAfter, Run;
    var n := |steps| - 1;
    assert steps[..|steps|] == steps;
    assert |SnapshotsOf(steps[..k])| >= depth;
    if k < |steps| {
      forall m | k <= m <= n
        ensures |SnapshotsOf(steps[..n][..m])| >= depth
      {
        assert steps[..n][..m] == steps[..m];
      }
      assert steps[..n][..k] == steps[..k];
      OuterSnapshotsStay(steps[..n], k, depth);
      SnapshotPrefix(Run(EmptyContext, steps[..n]), SnapshotsOf(steps[..n]), steps[n], depth);
    }
  }

  lemma SnapshotPrefix(c: Context, snaps: seq<Context>, step: Step, depth: nat)
    requires |snaps| >= depth && |SnapshotsAfter(c, snaps, step)| >= depth
    ensures SnapshotsAfter(c, snaps, step)[..depth] == snaps[..depth]
  {
    if step.Push? {
      PushedOnTop(c, snaps, step.n);
    }
  }

  lemma {:induction false} PushedOnTop(c: Context, snaps: seq<Context>, n: nat)
    ensures |PushSnapshots(c, snaps, n)| == |snaps| + n && PushSnapshots(c, snaps, n)[..|snaps|] == snaps
  {
    if n > 0 {
      PushedOnTop(c, snaps, n - 1);
    }
  }

  /** A scope opened at step `k`, not popped since and closed now: in a clean
      run the context is exactly what it was before the push. */
  lemma ScopeRestores(steps: seq<Step>, k: nat)
    requires k < |steps| && steps[k] == Push(1) && CleanRun(steps + [Pop(1)])
    requires var depth := |SnapshotsOf(steps[..k])| + 1;
             && (forall m | k < m <= |steps| :: |SnapshotsOf(steps[..m])| >= depth)
             && |SnapshotsOf(steps)| == depth
    ensures Run(EmptyContext, steps + [Pop(1)]) == Run(EmptyContext, steps[..k])
  {
    hide Run, CleanRun, CleanStep, Do, PopsRestorable, SnapshotsOf;
    var outer := SnapshotsOf(steps[..k]);
    CleanPrefix(steps, Pop(1));
    OuterSnapshotsStay(steps, k + 1, |outer| + 1);
    PushSnapshot(steps, k);
    assert SnapshotsOf(steps) == SnapshotsOf(steps)[..|outer| + 1];
    CleanRunsRestore(steps, 1);
    LastStep(steps, Pop(1));
  }

  lemma CleanPrefix(steps: seq<Step>, step: Step)
    requires CleanRun(steps + [step])
    ensures CleanRun(steps) && CleanStep(Run(EmptyContext, steps), SnapshotsOf(steps), step)
  {
    hide Run, CleanStep, SnapshotsOf;
    var all, n := steps + [step], |steps|;
    assert all[..n] == steps && all[n] == step;
    assert CleanStep(Run(EmptyContext, all[..n]), SnapshotsOf(all[..n]), all[n]);
    forall m | 0 <= m < n
      ensures CleanStep(Run(EmptyContext, steps[..m]), SnapshotsOf(steps[..m]), steps[m])
    {
      assert all[..m] == steps[..m];
    }
  }

  lemma PushSnapshot(steps: seq<Step>, k: nat)
    requires k < |steps| && steps[k] == Push(1)
    ensures SnapshotsOf(steps[..k + 1]) == SnapshotsOf(steps[..k]) + [Run(EmptyContext, steps[..k])]
  {
    hide Run, Do, SnapshotsAfter;
    assert steps[..k + 1][..k] == steps[..k] && steps[..k + 1][k] == Push(1);
    OneMore(Run(EmptyContext, steps[..k]), SnapshotsOf(steps[..k]));
  }

  lemma OneMore(c: Context, snaps: seq<Context>)
    ensures SnapshotsAfter(c, snaps, Push(1)) == snaps + [c]
  {
    assert PushSnapshots(c, snaps, 1) == PushSnapshots(c, snaps, 0) + [PushScopes(c, 0)];
  }

  lemma LastStep(steps: seq<Step>, step: Step)
    ensures Run(EmptyContext, steps + [step]) == Do(Run(EmptyContext, steps), step)
    ensures CleanStep(Run(EmptyContext, steps), SnapshotsOf(steps), step) && step.Pop? ==>
              PopsRestorable(Run(EmptyContext, steps), SnapshotsOf(steps), step.n)
  {
    assert (steps + [step])[..|steps|] == steps;
  }

  // ------------------------------------------------------------------
  // Runs that disturb nothing
  // ------------------------------------------------------------------

  /** Naming displaces no binding that the innermost scope introduced. */
  predicate UndisturbedNaming(c: Context, name: string, node: Term) {
    c.frames == [] || AlreadyNamed(c.names, name, node)
    || forall b | b in DisplacedBy(c.names, name, node) :: b.name !in c.frames[|c.frames| - 1].addedNames
  }

  /** What a caller can see: such namings only, and resets outside scopes. */
  predicate UndisturbedStep(c: Context, step: Step) {
    match step
    case Assert(node, group, name) => name == "" || UndisturbedNaming(c, name, node)
    case Name(name, node) => UndisturbedNaming(c, name, node)
    case Reset => c.frames == []
    case _ => true
  }

  predicate UndisturbedRun(steps: seq<Step>) {
    forall n | 0 <= n < |steps| :: UndisturbedStep(Run(EmptyContext, steps[..n]), steps[n])
  }

  /** Every open scope is restorable. */
  ghost predicate ScopesRestorable(c: Context, snaps: seq<Context>)
    decreases |snaps|
  {
    && |snaps| == |c.frames|
    && (snaps != [] ==> TopRestorable(c, snaps) && ScopesRestorable(snaps[|snaps| - 1], snaps[..|snaps| - 1]))
  }

  lemma {:induction false} RestorablePops(c: Context, snaps: seq<Context>, n: nat)
    requires ScopesRestorable(c, snaps)
    ensures PopsRestorable(c, snaps, n)
    ensures var r := Remaining(|snaps|, n);
            r < |snaps| ==> ScopesRestorable(snaps[r], snaps[..r])
    decreases n
  {
    hide TopRestorable;
    if n > 0 && snaps != [] {
      var lower := snaps[..|snaps| - 1];
      RestorablePops(snaps[|snaps| - 1], lower, n - 1);
      var r := Remaining(|snaps|, n);
      if r < |lower| {
        assert lower[r] == snaps[r] && lower[..r] == snaps[..r];
      }
    }
  }

  lemma {:induction false} RestorablePushes(c: Context, snaps: seq<Context>, n: nat)
    requires ScopesRestorable(c, snaps)
    ensures ScopesRestorable(PushScopes(c, n), PushSnapshots(c, snaps, n))
  {
    if n > 0 {
      RestorablePushes(c, snaps, n - 1);
      var d, now := PushScopes(c, n - 1), PushSnapshots(c, snaps, n - 1);
      assert (now + [d])[..|now|] == now && (d.frames + [FrameOf(d.store)])[|now|] == FrameOf(d.store);
    }
  }

  /** Recording elsewhere leaves the innermost scope restorable. */
  lemma RestorableUntouched(c: Context, d: Context, groups: seq<string>, softGroups: seq<string>, snaps: seq<Context>)
    requires ScopesRestorable(c, snaps) && d.frames == Record(c.frames, [], [], groups, softGroups)
    ensures ScopesRestorable(d, snaps)
  {
    if c.frames != [] {
      var f := c.frames[|c.frames| - 1];
      assert f.replaced + [] == f.replaced;
    }
  }

  lemma NamingKeepsRestorable(c: Context, name: string, node: Term, snaps: seq<Context>)
    requires NamesGood(c, snaps) && ScopesRestorable(c, snaps) && UndisturbedNaming(c, name, node)
    ensures ScopesRestorable(NameAssertion(c, name, node), snaps)
  {
    hide NamesTrack, Restorable, NameInTables;
    if snaps != [] && !AlreadyNamed(c.names, name, node) {
      var n := |snaps| - 1;
      var f := c.frames[n];
      UndisturbedIsRestorable(snaps[n].names, f.addedNames, f.replaced, c.names, name, node);
    }
  }

  lemma StepKeepsRestorable(c: Context, snaps: seq<Context>, step: Step)
    requires StoreGood(c, snaps) && NamesGood(c, snaps) && ScopesRestorable(c, snaps) && UndisturbedStep(c, step)
    ensures ScopesRestorable(Do(c, step), SnapshotsAfter(c, snaps, step)) && CleanStep(c, snaps, step)
  {
    hide NamesGood, StoreGood, NameAssertion, PushScopes, PopScopes, PopsRestorable, ScopesRestorable, UndisturbedNaming;
    RecordNothing(c.frames);
    RestorableLength(c, snaps);
    match step
    case Assert(node, group, name) =>
      var d := AddAssertion(c, node, group);
      RestorableUntouched(c, d, if group == "" then [] else [group], [], snaps);
      if name != "" {
        NamesUntouched(c, d, if group == "" then [] else [group], [], snaps);
        StillUndisturbed(c, d, group, name, node);
        NamingKeepsRestorable(d, name, node, snaps);
      }
    case AssertSoft(node, weight, group) =>
      RestorableUntouched(c, Do(c, step), [], if group == "" then [] else [group], snaps);
    case Assume(nodes) => RestorableUntouched(c, Do(c, step), [], [], snaps);
    case AddLemma(node) => RestorableUntouched(c, Do(c, step), [], [], snaps);
    case Name(name, node) => NamingKeepsRestorable(c, name, node, snaps);
    case Push(n) => RestorablePushes(c, snaps, n);
    case Pop(n) =>
      RestorablePops(c, snaps, n);
      PopsRestore(c, snaps, n);
      AllOrNothing(c, snaps, n);
    case Reset => RestorableUntouched(c, ResetAssertions(c), [], [], snaps);
  }

  lemma RestorableLength(c: Context, snaps: seq<Context>)
    requires ScopesRestorable(c, snaps)
    ensures |snaps| == |c.frames|
  {
  }

  lemma StillUndisturbed(c: Context, d: Context, group: string, name: string, node: Term)
    requires d == AddAssertion(c, node, group) && UndisturbedNaming(c, name, node)
    ensures UndisturbedNaming(d, name, node)
  {
    if c.frames != [] {
      var f := c.frames[|c.frames| - 1];
      assert f.addedNames + [] == f.addedNames;
    }
  }

  /** The snapshots a pop leaves, and the context when it leaves none
      untouched. */
  lemma AllOrNothing(c: Context, snaps: seq<Context>, n: nat)
    requires |snaps| == |c.frames|
    ensures SnapshotsAfter(c, snaps, Pop(n)) == snaps[..Remaining(|snaps|, n)]
    ensures Remaining(|snaps|, n) == |snaps| ==> snaps[..|snaps|] == snaps
  {
  }

  /** A run in which no naming displaces a binding of its own scope is clean, so
      all that is proved of clean runs holds of it; in particular every pop
      brings back the context at the matching push. */
  lemma {:induction false} UndisturbedRunsAreClean(steps: seq<Step>)
    requires UndisturbedRun(steps)
    ensures CleanRun(steps) && ScopesRestorable(Run(EmptyContext, steps), SnapshotsOf(steps))
  {
    hide Do, SnapshotsAfter, StoreGood, NamesGood, CleanStep, UndisturbedStep, ScopesRestorable;
    if steps == [] {
      NothingOpen();
    } else {
      var n := |steps| - 1;
      forall k | 0 <= k < n
        ensures UndisturbedStep(Run(EmptyContext, steps[..n][..k]), steps[..n][k])
      {
        assert steps[..n][..k] == steps[..k];
      }
      UndisturbedRunsAreClean(steps[..n]);
      CleanRunsAreGood(steps[..n]);
      CleanIsSafe(steps[..n]);
      SafeRunIsGood(steps[..n]);
      StepKeepsRestorable(Run(EmptyContext, steps[..n]), SnapshotsOf(steps[..n]), steps[n]);
      forall k | 0 <= k < |steps|
        ensures CleanStep(Run(EmptyContext, steps[..k]), SnapshotsOf(steps[..k]), steps[k])
      {
        if k < n {
          assert steps[..n][..k] == steps[..k] && steps[..n][k] == steps[k];
        }
      }
    }
  }

  lemma NothingOpen()
    ensures ScopesRestorable(EmptyContext, [])
  {
  }

  lemma UndisturbedRunsRestore(steps: seq<Step>, n: nat)
    requires UndisturbedRun(steps) && 0 < n <= |SnapshotsOf(steps)|
    ensures Bijective(Run(EmptyContext, steps).names)
    ensures Run(EmptyContext, steps + [Pop(n)]) == SnapshotsOf(steps)[|SnapshotsOf(steps)| - n]
  {
    hide Run, SnapshotsOf, CleanRun, Do, PopsRestorable, ScopesRestorable, UndisturbedRun;
    UndisturbedRunsAreClean(steps);
    RestorablePops(Run(EmptyContext, steps), SnapshotsOf(steps), n);
    CleanRunsRestore(steps, n);
    LastStep(steps, Pop(n));
  }

  // ------------------------------------------------------------------
  // Where a pop does not restore
  // ------------------------------------------------------------------

  predicate AllNull(v: seq<Term>) { forall i | 0 <= i < |v| :: v[i] == NullTerm }

  /** What the snapshot of a scope has to look like for a pop right after
      reset-assertions to bring it back: vectors of nothing but the padding,
      no groups, and names that the scope displaced, all of them and no
      others. */
  ghost predicate SurvivesReset(p: Context, f: Frame) {
    && AllNull(p.store.assertions) && AllNull(p.store.soft) && AllNull(p.store.weights) && AllNull(p.store.lemmas)
    && (forall i | 0 <= i < |p.store.assumptions| :: p.store.assumptions[i] == [])
    && p.store.groups == map[] && p.store.softGroups == map[]
    && AllDisplaced(p.names, f.replaced) && Restorable(p.names, f.replaced)
  }

  /** Exactly then it does. */
  lemma ResetInsideScope(c: Context, snaps: seq<Context>)
    requires StoreGood(c, snaps) && NamesGood(c, snaps) && snaps != []
    ensures var p, f := snaps[|snaps| - 1], c.frames[|snaps| - 1];
            PopOne(ResetAssertions(c)) == p <==> SurvivesReset(p, f)
  {
    hide GroupsTrack, NamesTrack, PopNames, Trim, Restorable, AllDisplaced;
    var n := |snaps| - 1;
    var p, f := snaps[n], c.frames[n];
    ResetVectors(p.store, f, c.store);
    ResetNames(p.names, f, c.names);
  }

  /** An emptied vector is padded up to the recorded size. */
  lemma PaddedVector<T>(v: seq<T>, filler: T)
    ensures Resize([], |v|, filler) == v <==> forall i | 0 <= i < |v| :: v[i] == filler
  {
    var r := Resize([], |v|, filler);
    assert |r| == |v| && forall i | 0 <= i < |r| :: r[i] == filler;
  }

  lemma {:induction false} TrimNothing(keys: seq<string>, size: nat)
    ensures Trim(map[], keys, size) == map[]
  {
    if keys != [] {
      TrimNothing(keys[..|keys| - 1], size);
    }
  }

  lemma ResetVectors(before: Store, f: Frame, now: Store)
    requires StoreTracks(before, f, now)
    ensures PopStore(EmptyContext.store, f) == before <==>
              && AllNull(before.assertions) && AllNull(before.soft) && AllNull(before.weights) && AllNull(before.lemmas)
              && (forall i | 0 <= i < |before.assumptions| :: before.assumptions[i] == [])
              && before.groups == map[] && before.softGroups == map[]
  {
    hide GroupsTrack, Resize;
    PaddedVector(before.assertions, NullTerm);
    PaddedVector(before.assumptions, []);
    PaddedVector(before.soft, NullTerm);
    PaddedVector(before.weights, NullTerm);
    PaddedVector(before.lemmas, NullTerm);
    TrimNothing(f.addedGroups, f.assertions);
    TrimNothing(f.addedSoftGroups, f.soft);
  }

  /** The names come back exactly if each was displaced, and nothing else. */
  lemma ResetNames(before: Names, f: Frame, now: Names)
    requires NamesTrack(before, f.addedNames, f.replaced, now)
    ensures PopNames(EmptyContext.names, f) == before <==> AllDisplaced(before, f.replaced) && Restorable(before, f.replaced)
  {
    hide PopNames, FirstNode, FirstName, Bijective, NamesTrack, HasName, HasNode;
    var p := PopNames(EmptyContext.names, f);
    EmptyIsGood();
    GoodNames(EmptyContext, []);
    PopTables(EmptyContext.names, f);
    RecordedNames(before, f.addedNames, f.replaced, now);
    RestorableNames(before, f.replaced);
    assert AllDisplaced(before, f.replaced) && Restorable(before, f.replaced) ==> p.named == before.named && p.nameOf == before.nameOf;
  }

  /** Restorability, name by name and node by node. */
  lemma RestorableNames(before: Names, bs: seq<Binding>)
    ensures Restorable(before, bs) <==>
              (forall n | HasName(bs, n) :: n in before.named) && (forall x | HasNode(bs, x) :: x in before.nameOf)
  {
    if (forall n | HasName(bs, n) :: n in before.named) && (forall x | HasNode(bs, x) :: x in before.nameOf) {
      forall i | 0 <= i < |bs|
        ensures bs[i].name in before.named && bs[i].node in before.nameOf
      {
        assert HasName(bs, bs[i].name) && HasNode(bs, bs[i].node);
      }
    }
  }

  lemma RecordedNames(before: Names, added: seq<string>, bs: seq<Binding>, now: Names)
    requires NamesTrack(before, added, bs, now)
    ensures forall n | n in before.named && HasName(bs, n) :: FirstNode(bs, n) == before.named[n]
    ensures forall x | x in before.nameOf && HasNode(bs, x) :: FirstName(bs, x) == before.nameOf[x]
  {
    hide FirstNode, FirstName;
  }

  /** The run that renames an assertion inside a scope ends with the inner name,
      although no assertion was named outside. */
  lemma RenamingRun(first: string, second: string, x: Term)
    requires first != second
    ensures var steps := [Push(1), Name(first, x), Name(second, x), Pop(1)];
            Run(EmptyContext, steps) == EmptyContext.(names := Names(map[first := x], map[x := first])) != EmptyContext
  {
    hide PopNames, NameInTables;
    var steps := [Push(1), Name(first, x), Name(second, x), Pop(1)];
    FourSteps(steps);
    RenamedInScope(first, second, x);
    var none, f := Names(map[], map[]), FrameOf(EmptyContext.store);
    var one := NameInTables(none, first, x);
    var two := NameInTables(one, second, x);
    NamedOnce(none, first, x);
    assert PushScopes(EmptyContext, 1) == EmptyContext.(frames := [f]) by {
      assert PushScopes(EmptyContext, 0) == EmptyContext;
    }
    assert DisplacedBy(none, first, x) == [];
    var c1 := Context(EmptyContext.store, one, [f.(addedNames := [first])]);
    assert [] + [first] == [first];
    assert Do(EmptyContext.(frames := [f]), Name(first, x)) == c1;
    var c2 := Context(EmptyContext.store, two, [f.(addedNames := [first, second], replaced := DisplacedBy(one, second, x))]);
    assert [first] + [second] == [first, second] && [] + DisplacedBy(one, second, x) == DisplacedBy(one, second, x);
    assert Do(c1, Name(second, x)) == c2;
    PopLast(c2);
  }

  lemma NamedOnce(ns: Names, name: string, node: Term)
    requires ns == Names(map[], map[])
    ensures NameInTables(ns, name, node) == Names(map[name := node], map[node := name])
  {
    assert DisplacedBy(ns, name, node) == [];
  }

  /** Popping the one open scope of an empty store. */
  lemma PopLast(c: Context)
    requires |c.frames| == 1 && c.store == EmptyContext.store && NoSizes(c.frames[0])
    requires c.frames[0].addedGroups == [] && c.frames[0].addedSoftGroups == []
    ensures Do(c, Pop(1)) == Context(c.store, PopNames(c.names, c.frames[0]), [])
    ensures forall f: Frame | f.addedNames == c.frames[0].addedNames && f.replaced == c.frames[0].replaced ::
              PopNames(c.names, f) == PopNames(c.names, c.frames[0])
  {
    assert PopScopes(PopOne(c), 0) == PopOne(c);
  }

  lemma FourSteps(steps: seq<Step>)
    requires |steps| == 4
    ensures Run(EmptyContext, steps) == Do(Do(Do(Do(EmptyContext, steps[0]), steps[1]), steps[2]), steps[3])
  {
    hide Do;
    assert steps[..3][..2] == steps[..2] && steps[..2][..1] == steps[..1] && steps[..1][..0] == [];
    assert Run(EmptyContext, steps[..1]) == Do(EmptyContext, steps[0]);
    assert Run(EmptyContext, steps[..2]) == Do(Run(EmptyContext, steps[..1]), steps[1]);
    assert Run(EmptyContext, steps[..3]) == Do(Run(EmptyContext, steps[..2]), steps[2]);
  }

  /** The run that gives a name to a second assertion inside a scope, and that
      one another name, ends with the two tables no longer inverse. */
  lemma NameTheftRun(name: string, other: string, x: Term, y: Term)
    requires name != other && x != y
    ensures var steps := [Name(name, x), Push(1), Name(name, y), Name(other, y), Pop(1)];
            var c := Run(EmptyContext, steps);
            c.names == Names(map[name := x], map[y := name, x := name]) && !Bijective(c.names)
  {
    hide PopNames, NameInTables, Bijective, Do;
    var steps := [Name(name, x), Push(1), Name(name, y), Name(other, y), Pop(1)];
    FiveSteps(steps);
    InverseLost(name, other, x, y);
    var f, s := FrameOf(EmptyContext.store), EmptyContext.store;
    var outer := Names(map[name := x], map[x := name]);
    TheftBegins(name, x);
    var one := NameInTables(outer, name, y);
    var b1 := DisplacedBy(outer, name, y);
    var c1, c2 := Context(s, outer, [f]), Context(s, one, [f.(addedNames := [name], replaced := b1)]);
    NameInScope(c1, name, y);
    assert [] + [name] == [name] && [] + b1 == b1;
    var two := NameInTables(one, other, y);
    var b2 := DisplacedBy(one, other, y);
    var c3 := Context(s, two, [f.(addedNames := [name, other], replaced := b1 + b2)]);
    assert [name] + [other] == [name, other];
    StolenName(name, x, y);
    assert !AlreadyNamed(one, other, y);
    NameInScope(c2, other, y);
    PopLast(c3);
  }

  lemma TheftBegins(name: string, x: Term)
    ensures var outer := Names(map[name := x], map[x := name]);
            Do(Do(EmptyContext, Name(name, x)), Push(1)) == Context(EmptyContext.store, outer, [FrameOf(EmptyContext.store)])
  {
    hide NameInTables;
    var none, s := Names(map[], map[]), EmptyContext.store;
    var outer := Names(map[name := x], map[x := name]);
    NamedOnce(none, name, x);
    assert Do(EmptyContext, Name(name, x)) == Context(s, outer, []);
    assert PushScopes(Context(s, outer, []), 0) == Context(s, outer, []);
  }

  /** Naming inside the one open scope. */
  lemma NameInScope(c: Context, name: string, y: Term)
    requires |c.frames| == 1 && !AlreadyNamed(c.names, name, y)
    ensures var f := c.frames[0];
            Do(c, Name(name, y)) ==
            Context(c.store, NameInTables(c.names, name, y),
                    [f.(addedNames := f.addedNames + [name], replaced := f.replaced + DisplacedBy(c.names, name, y))])
  {
    hide NameInTables;
    var f := c.frames[0];
    assert c.frames == [f] && c.frames[..0] == [];
    assert f.addedGroups + [] == f.addedGroups && f.addedSoftGroups + [] == f.addedSoftGroups;
  }

  lemma StolenName(name: string, x: Term, y: Term)
    requires x != y
    ensures NameInTables(Names(map[name := x], map[x := name]), name, y) == Names(map[name := y], map[y := name])
  {
    var outer, b := Names(map[name := x], map[x := name]), Binding(name, x);
    assert DisplacedBy(outer, name, y) == [b];
    DisplaceFew(outer, [b]);
    assert Displace(outer, b) == Names(map[], map[]);
  }

  lemma FiveSteps(steps: seq<Step>)
    requires |steps| == 5
    ensures Run(EmptyContext, steps) == Do(Do(Do(Do(Do(EmptyContext, steps[0]), steps[1]), steps[2]), steps[3]), steps[4])
  {
    hide Do;
    FourSteps(steps[..4]);
  }
}
