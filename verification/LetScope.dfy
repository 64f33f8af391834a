// Let scoping: one flat map with an undo log and checkpoints, against a stack
// of binding frames.
module LetScope {
  import opened Options
  import opened Terms

  type Bindings = map<string, Term>

  /** One entry of the undo log: what a registration displaced. */
  datatype Backup = Backup(name: string, displaced: Option<Term>)

  datatype Flat = Flat(keys: Bindings, backup: seq<Backup>, checkpoints: seq<nat>)

  function Restore(keys: Bindings, b: Backup): Bindings {
    match b.displaced
    case Some(node) => keys[b.name := node]
    case None => keys - {b.name}
  }

  /** Undoing a log from its end. */
  function Undo(keys: Bindings, log: seq<Backup>): Bindings
    decreases |log|
  {
    if log == [] then keys else Undo(Restore(keys, log[|log| - 1]), log[..|log| - 1])
  }

  function Displaced(keys: Bindings, name: string): Option<Term> {
    if name in keys then Some(keys[name]) else None
  }

  function PushFlat(s: Flat): Flat { s.(checkpoints := s.checkpoints + [|s.backup|]) }

  function RegisterFlat(s: Flat, name: string, node: Term): Flat {
    s.(keys := s.keys[name := node], backup := s.backup + [Backup(name, Displaced(s.keys, name))])
  }

  /** A pop without a checkpoint is refused. */
  function PopFlat(s: Flat): Flat
    requires s.checkpoints != [] && s.checkpoints[|s.checkpoints| - 1] <= |s.backup|
  {
    var n := |s.checkpoints| - 1;
    var c := s.checkpoints[n];
    Flat(Undo(s.keys, s.backup[c..]), s.backup[..c], s.checkpoints[..n])
  }

  // ------------------------------------------------------------------
  // Frames
  // ------------------------------------------------------------------

  /** What a name is bound to: the innermost frame that binds it decides. */
  function Lookup(frames: seq<Bindings>, name: string): Option<Term> {
    if frames == [] then None
    else
      var top := frames[|frames| - 1];
      if name in top then Some(top[name]) else Lookup(frames[..|frames| - 1], name)
  }

  ghost predicate Agrees(keys: Bindings, frames: seq<Bindings>) {
    forall name :: Displaced(keys, name) == Lookup(frames, name)
  }

  /** The flat state stands for the frames: its map answers like the frames,
      and undoing to a checkpoint answers like the frames up to it. */
  ghost predicate Refines(s: Flat, frames: seq<Bindings>) {
    && |frames| == |s.checkpoints| + 1
    && Agrees(s.keys, frames)
    && (forall i | 0 <= i < |s.checkpoints| :: s.checkpoints[i] <= |s.backup|)
    && (forall i, j | 0 <= i < j < |s.checkpoints| :: s.checkpoints[i] <= s.checkpoints[j])
    && (forall i | 0 <= i < |s.checkpoints| :: Agrees(Undo(s.keys, s.backup[s.checkpoints[i]..]), frames[..i + 1]))
  }

  lemma {:induction false} UndoConcat(keys: Bindings, a: seq<Backup>, b: seq<Backup>)
    ensures Undo(keys, a + b) == Undo(Undo(keys, b), a)
    decreases |b|
  {
    if b == [] {
      assert a + b == a;
    } else {
      var n := |b| - 1;
      assert (a + b)[..|a + b| - 1] == a + b[..n];
      UndoConcat(Restore(keys, b[n]), a, b[..n]);
    }
  }

  /** Undoing a registration puts back what it displaced. */
  lemma UndoRegister(keys: Bindings, log: seq<Backup>, name: string, node: Term)
    ensures Undo(keys[name := node], log + [Backup(name, Displaced(keys, name))]) == Undo(keys, log)
  {
    var b := Backup(name, Displaced(keys, name));
    assert (log + [b])[..|log|] == log;
    assert Restore(keys[name := node], b) == keys;
  }

  lemma PushRefines(s: Flat, frames: seq<Bindings>)
    requires Refines(s, frames)
    ensures Refines(PushFlat(s), frames + [map[]])
  {
    hide Undo;
    var next, t := frames + [map[]], PushFlat(s);
    assert next[..|frames|] == frames;
    forall name
      ensures Displaced(s.keys, name) == Lookup(next, name)
    {
      assert Lookup(next, name) == Lookup(frames, name);
    }
    forall i | 0 <= i < |t.checkpoints|
      ensures Agrees(Undo(t.keys, t.backup[t.checkpoints[i]..]), next[..i + 1])
    {
      if i < |s.checkpoints| {
        assert next[..i + 1] == frames[..i + 1];
      } else {
        assert t.backup[t.checkpoints[i]..] == [];
        UndoNothing(t.keys);
        assert next[..i + 1] == frames;
      }
    }
  }

  lemma UndoNothing(keys: Bindings)
    ensures Undo(keys, []) == keys
  {
  }

  lemma RegisterRefines(s: Flat, frames: seq<Bindings>, name: string, node: Term)
    requires Refines(s, frames)
    ensures var top := frames[|frames| - 1];
            Refines(RegisterFlat(s, name, node), frames[..|frames| - 1] + [top[name := node]])
  {
    hide Undo;
    var n := |frames| - 1;
    var next, t := frames[..n] + [frames[n][name := node]], RegisterFlat(s, name, node);
    assert next[..n] == frames[..n];
    forall x
      ensures Displaced(t.keys, x) == Lookup(next, x)
    {
      assert Displaced(s.keys, x) == Lookup(frames, x);
    }
    forall i | 0 <= i < |t.checkpoints|
      ensures Agrees(Undo(t.keys, t.backup[t.checkpoints[i]..]), next[..i + 1])
    {
      var c := s.checkpoints[i];
      assert t.backup[c..] == s.backup[c..] + [Backup(name, Displaced(s.keys, name))];
      UndoRegister(s.keys, s.backup[c..], name, node);
      assert next[..i + 1] == frames[..i + 1];
    }
  }

  lemma PopRefines(s: Flat, frames: seq<Bindings>)
    requires Refines(s, frames) && s.checkpoints != []
    ensures Refines(PopFlat(s), frames[..|frames| - 1])
  {
    hide Undo, Agrees;
    var n, k := |frames| - 1, |s.checkpoints| - 1;
    var next, t, c := frames[..n], PopFlat(s), s.checkpoints[|s.checkpoints| - 1];
    assert frames[..k + 1] == next;
    forall i | 0 <= i < |t.checkpoints|
      ensures Agrees(Undo(t.keys, t.backup[t.checkpoints[i]..]), next[..i + 1])
    {
      var d := s.checkpoints[i];
      assert s.backup[d..] == t.backup[d..] + s.backup[c..];
      UndoConcat(s.keys, t.backup[d..], s.backup[c..]);
      assert next[..i + 1] == frames[..i + 1];
    }
  }

  // ------------------------------------------------------------------
  // Runs
  // ------------------------------------------------------------------

  datatype Step = Push | Register(name: string, node: Term) | Pop

  /** Runs that only bind inside scopes they opened and close all of them;
      `depth` scopes are open. */
  predicate Balanced(run: seq<Step>, depth: nat)
    decreases |run|
  {
    if run == [] then depth == 0
    else match run[0]
      case Push => Balanced(run[1..], depth + 1)
      case Register(_, _) => depth > 0 && Balanced(run[1..], depth)
      case Pop => depth > 0 && Balanced(run[1..], depth - 1)
  }

  function RunFrames(frames: seq<Bindings>, run: seq<Step>, depth: nat): seq<Bindings>
    requires |frames| > depth && Balanced(run, depth)
    decreases |run|
  {
    if run == [] then frames
    else
      var n := |frames| - 1;
      match run[0]
      case Push => RunFrames(frames + [map[]], run[1..], depth + 1)
      case Register(x, t) => RunFrames(frames[..n] + [frames[n][x := t]], run[1..], depth)
      case Pop => RunFrames(frames[..n], run[1..], depth - 1)
  }

  function RunFlat(s: Flat, run: seq<Step>): Flat
    decreases |run|
  {
    if run == [] then s
    else match run[0]
      case Push => RunFlat(PushFlat(s), run[1..])
      case Register(x, t) => RunFlat(RegisterFlat(s, x, t), run[1..])
      case Pop =>
        if s.checkpoints == [] || s.checkpoints[|s.checkpoints| - 1] > |s.backup| then s
        else RunFlat(PopFlat(s), run[1..])
  }

  /** The flat state follows the frames over every run. */
  lemma {:induction false} RunRefines(s: Flat, frames: seq<Bindings>, run: seq<Step>, depth: nat)
    requires Refines(s, frames) && |frames| > depth && Balanced(run, depth)
    ensures Refines(RunFlat(s, run), RunFrames(frames, run, depth))
    decreases |run|
  {
    hide Refines, PushFlat, RegisterFlat, PopFlat;
    if run != [] {
      var n := |frames| - 1;
      RefinesDepth(s, frames);
      match run[0] {
        case Push =>
          PushRefines(s, frames);
          RunRefines(PushFlat(s), frames + [map[]], run[1..], depth + 1);
        case Register(x, t) =>
          RegisterRefines(s, frames, x, t);
          RunRefines(RegisterFlat(s, x, t), frames[..n] + [frames[n][x := t]], run[1..], depth);
        case Pop =>
          PopRefines(s, frames);
          RunRefines(PopFlat(s), frames[..n], run[1..], depth - 1);
      }
    }
  }

  lemma RefinesDepth(s: Flat, frames: seq<Bindings>)
    requires Refines(s, frames)
    ensures |frames| == |s.checkpoints| + 1
    ensures forall i | 0 <= i < |s.checkpoints| :: s.checkpoints[i] <= |s.backup|
    ensures forall i, j | 0 <= i < j < |s.checkpoints| :: s.checkpoints[i] <= s.checkpoints[j]
  {
  }

  /** Frames below the run's own scopes are not touched. */
  lemma {:induction false} RunKeepsLower(frames: seq<Bindings>, run: seq<Step>, depth: nat)
    requires |frames| > depth && Balanced(run, depth)
    ensures RunFrames(frames, run, depth) == frames[..|frames| - depth]
    decreases |run|
  {
    if run != [] {
      var n := |frames| - 1;
      match run[0] {
        case Push => RunKeepsLower(frames + [map[]], run[1..], depth + 1);
        case Register(x, t) => RunKeepsLower(frames[..n] + [frames[n][x := t]], run[1..], depth);
        case Pop => RunKeepsLower(frames[..n], run[1..], depth - 1);
      }
    }
  }

  /** Only the registrations of the run are undone: the log below the first
      checkpoint of the run stays. */
  lemma {:induction false} RunKeepsLog(s: Flat, frames: seq<Bindings>, run: seq<Step>, depth: nat)
    requires Refines(s, frames) && |frames| > depth && Balanced(run, depth)
    ensures var t := RunFlat(s, run);
            var k := |s.checkpoints| - depth;
            && t.checkpoints == s.checkpoints[..k]
            && t.backup == if depth == 0 then s.backup else s.backup[..s.checkpoints[k]]
    decreases |run|
  {
    hide Undo, Refines, RunFrames, Restore;
    RefinesDepth(s, frames);
    if run != [] {
      var n := |frames| - 1;
      match run[0] {
        case Push =>
          PushRefines(s, frames);
          RunKeepsLog(PushFlat(s), frames + [map[]], run[1..], depth + 1);
        case Register(x, t) =>
          RegisterRefines(s, frames, x, t);
          RunKeepsLog(RegisterFlat(s, x, t), frames[..n] + [frames[n][x := t]], run[1..], depth);
        case Pop =>
          PopRefines(s, frames);
          RunKeepsLog(PopFlat(s), frames[..n], run[1..], depth - 1);
      }
    }
  }

  /** A balanced run restores the map, the log and the checkpoints exactly,
      whatever it shadowed. */
  lemma BalancedRunRestores(s: Flat, frames: seq<Bindings>, run: seq<Step>)
    requires Refines(s, frames) && Balanced(run, 0)
    ensures RunFlat(s, run) == s
  {
    hide Refines, RunFlat, RunFrames, Balanced;
    RefinesDepth(s, frames);
    RunRefines(s, frames, run, 0);
    RunKeepsLower(frames, run, 0);
    RunKeepsLog(s, frames, run, 0);
    assert frames[..|frames|] == frames;
    SameAnswers(s.keys, RunFlat(s, run).keys, frames) by {
      RefinesAgrees(s, frames);
      RefinesAgrees(RunFlat(s, run), frames);
    }
  }

  lemma RefinesAgrees(s: Flat, frames: seq<Bindings>)
    requires Refines(s, frames)
    ensures Agrees(s.keys, frames)
  {
  }

  /** Maps that answer like the same frames are the same map. */
  lemma SameAnswers(a: Bindings, b: Bindings, frames: seq<Bindings>)
    requires Agrees(a, frames) && Agrees(b, frames)
    ensures a == b
  {
    forall x
      ensures (x in a <==> x in b) && (x in a ==> a[x] == b[x])
    {
      assert Displaced(a, x) == Displaced(b, x);
    }
  }

  // ------------------------------------------------------------------
  // The three fields
  // ------------------------------------------------------------------

  class LetScopes {
    var keys: Bindings
    var backup: seq<Backup>
    var checkpoints: seq<nat>
    ghost var frames: seq<Bindings>

    ghost function State(): Flat
      reads this
    {
      Flat(keys, backup, checkpoints)
    }

    ghost predicate Valid()
      reads this
    {
      Refines(State(), frames)
    }

    constructor ()
      ensures Valid() && frames == [map[]]
    {
      keys, backup, checkpoints := map[], [], [];
      frames := [map[]];
    }

    method PushLetScope()
      requires Valid()
      modifies this
      ensures Valid() && State() == PushFlat(old(State()))
      ensures frames == old(frames) + [map[]]
    {
      PushRefines(State(), frames);
      checkpoints := checkpoints + [|backup|];
      frames := frames + [map[]];
    }

    method RegisterLet(name: string, node: Term)
      requires Valid()
      modifies this
      ensures Valid() && State() == RegisterFlat(old(State()), name, node)
      ensures var n := |old(frames)| - 1;
              frames == old(frames)[..n] + [old(frames)[n][name := node]]
    {
      RegisterRefines(State(), frames, name, node);
      backup := backup + [Backup(name, if name in keys then Some(keys[name]) else None)];
      keys := keys[name := node];
      frames := frames[..|frames| - 1] + [frames[|frames| - 1][name := node]];
    }

    /** The loop over the log, from its end down to the checkpoint. */
    method RestoreTo(checkpoint: nat)
      requires checkpoint <= |backup|
      modifies `keys
      ensures keys == Undo(old(keys), backup[checkpoint..])
    {
      var i := |backup|;
      assert backup[checkpoint..i] == backup[checkpoint..];
      while i > checkpoint
        invariant checkpoint <= i <= |backup|
        invariant Undo(old(keys), backup[checkpoint..]) == Undo(keys, backup[checkpoint..i])
      {
        var b := backup[i - 1];
        assert backup[checkpoint..i][..i - 1 - checkpoint] == backup[checkpoint..i - 1];
        if b.displaced.Some? {
          keys := keys[b.name := b.displaced.value];
        } else {
          keys := keys - {b.name};
        }
        i := i - 1;
      }
    }

    /** Refuses, changing nothing, when there is no checkpoint. */
    method PopLetScope() returns (ok: bool)
      requires Valid()
      modifies this
      ensures Valid() && ok == (old(checkpoints) != [])
      ensures if ok then State() == PopFlat(old(State())) && frames == old(frames)[..|old(frames)| - 1]
              else State() == old(State()) && frames == old(frames)
    {
      hide Refines, Undo;
      RefinesDepth(State(), frames);
      if checkpoints == [] {
        return false;
      }
      PopRefines(State(), frames);
      var checkpoint := checkpoints[|checkpoints| - 1];
      checkpoints := checkpoints[..|checkpoints| - 1];
      RestoreTo(checkpoint);
      backup := backup[..checkpoint];
      frames := frames[..|frames| - 1];
      ok := true;
    }

    /** What a let name resolves to is its innermost binding. */
    method FindLet(name: string) returns (r: Option<Term>)
      requires Valid()
      ensures r == Lookup(frames, name)
    {
      r := if name in keys then Some(keys[name]) else None;
      assert r == Displaced(keys, name);
    }
  }
}
