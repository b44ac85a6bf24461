/**
  HookManager.cpp: installing all hooks, rolling back when one fails, and uninstalling with retries.
  A hook attaches detours and overwrites memory; what fails, and where, is up to the environment and
  comes in as parameters.
*/
module HookManagers {
  import opened Wrappers
  import opened Blocks
  import opened MemoryPatches

  datatype Action = AttachDetour(target: nat) | Edit(address: nat, bytes: seq<bv8>)

  datatype HookError = Success | NotFound | DetourFailed | InvalidState | GeneralFailure

  // What a hook's Install comes to: it takes some of its actions and reports an error or success.
  datatype Attempt = Attempt(actions: nat, error: HookError)

  // What a write of remembered bytes comes to
  datatype Write = Whole | Part(n: nat)

  datatype Result = Ok | AlreadyExists | InstallFailed(error: HookError) | DetachRefused | WriteFault

  // The history of the manager's list of installed hooks
  datatype Entry = Pushed(hook: nat) | Undone(hook: nat)

  // The installed hooks that a history leaves; a hook is undone only as the last one installed.
  function Replay(log: seq<Entry>): Option<seq<nat>> {
    if log == [] then Some([])
    else
      var before := Replay(log[..|log| - 1]);
      if before.None? then None
      else
        var r := before.value;
        match log[|log| - 1]
        case Pushed(i) => Some(r + [i])
        case Undone(i) => if r != [] && r[|r| - 1] == i then Some(r[..|r| - 1]) else None
  }

  function Count<T(==)>(s: seq<T>, x: T): nat {
    if s == [] then 0 else Count(s[..|s| - 1], x) + if s[|s| - 1] == x then 1 else 0
  }

  lemma CountSnoc<T>(s: seq<T>, x: T, y: T)
    ensures Count(s + [y], x) == Count(s, x) + if y == x then 1 else 0
  {
    assert (s + [y])[..|s|] == s;
  }

  // Every installation of a hook is undone at most once, and what is left installed is the rest.
  lemma {:induction false} UndoneAtMostOnce(log: seq<Entry>, i: nat)
    requires Replay(log).Some?
    ensures Count(log, Pushed(i)) == Count(log, Undone(i)) + Count(Replay(log).value, i)
    decreases |log|
  {
    if log != [] {
      var front := log[..|log| - 1];
      UndoneAtMostOnce(front, i);
      var r := Replay(front).value;
      match log[|log| - 1]
      case Pushed(j) => CountSnoc(r, i, j);
      case Undone(j) =>
    }
  }

  // list is what is installed when the last hook on it is pushed, and no hook of it is undone until j.
  ghost predicate PushedAt(log: seq<Entry>, i: nat, j: nat, list: seq<nat>)
    requires list != []
  {
    && i < j <= |log| && log[i] == Pushed(list[|list| - 1]) && Replay(log[..i]) == Some(list[..|list| - 1])
    && forall k :: i < k <= j ==> Replay(log[..k]).Some? && list <= Replay(log[..k]).value
  }

  // Installations are undone in reverse order: the one that is undone is the latest that is left, and the
  // list goes back to what it was before it.
  lemma UndoneInReverse(log: seq<Entry>, j: nat)
    requires Replay(log).Some? && j < |log| && log[j].Undone?
    ensures Replay(log[..j]).Some?
    ensures var list := Replay(log[..j]).value;
            && list != [] && list[|list| - 1] == log[j].hook && Replay(log[..j + 1]) == Some(list[..|list| - 1])
            && exists i: nat :: PushedAt(log, i, j, list)
  {
    hide PushedAt;
    ReplayedTo(log, j + 1);
    assert log[..j + 1][..j] == log[..j];
    PushedOnce(log, j, Replay(log[..j]).value);
  }

  lemma {:induction false} ReplayedTo(log: seq<Entry>, n: nat)
    requires Replay(log).Some? && n <= |log|
    ensures Replay(log[..n]).Some?
    decreases |log|
  {
    if n < |log| {
      ReplayedTo(log[..|log| - 1], n);
      assert log[..|log| - 1][..n] == log[..n];
    } else {
      assert log[..n] == log;
    }
  }

  lemma {:induction false} PushedOnce(log: seq<Entry>, j: nat, list: seq<nat>)
    requires j <= |log| && Replay(log[..j]).Some? && list != [] && list <= Replay(log[..j]).value
    ensures exists i: nat :: PushedAt(log, i, j, list)
    decreases j
  {
    assert log[..j] != [] && log[..j][..j - 1] == log[..j - 1];
    var before := Replay(log[..j - 1]).value;
    if list <= before {
      PushedOnce(log, j - 1, list);
      var i: nat :| PushedAt(log, i, j - 1, list);
      assert PushedAt(log, i, j, list);
    } else {
      assert list == before + [log[j - 1].hook];
      assert PushedAt(log, j - 1, j, list);
    }
  }

  // Installing hooks from up to below to, and undoing those from below from down to to

  function Pushings(from: nat, to: nat): (entries: seq<Entry>)
    requires from <= to
    ensures |entries| == to - from && forall k :: 0 <= k < |entries| ==> entries[k] == Pushed(from + k)
  {
    if from == to then [] else Pushings(from, to - 1) + [Pushed(to - 1)]
  }

  function Undoings(from: nat, to: nat): (entries: seq<Entry>)
    requires to <= from
    ensures |entries| == from - to && forall k :: 0 <= k < |entries| ==> entries[k] == Undone(from - 1 - k)
    decreases from - to
  {
    if from == to then [] else Undoings(from, to + 1) + [Undone(to)]
  }

  // The first k hooks
  function Prefix(k: nat): (r: seq<nat>)
    ensures |r| == k && forall j :: 0 <= j < k ==> r[j] == j
  {
    if k == 0 then [] else Prefix(k - 1) + [k - 1]
  }

  lemma {:induction false} CountPrefix(k: nat, i: nat)
    ensures Count(Prefix(k), i) == if i < k then 1 else 0
  {
    if k > 0 {
      CountPrefix(k - 1, i);
      assert Prefix(k)[..k - 1] == Prefix(k - 1);
    }
  }

  ghost predicate EditsInBounds(hooks: seq<seq<Action>>, size: nat) {
    forall i, j :: 0 <= i < |hooks| && 0 <= j < |hooks[i]| && hooks[i][j].Edit? ==> hooks[i][j].address + |hooks[i][j].bytes| <= size
  }

  // What actions make of the memory, and the functions they detour

  function EditedBy(memory: seq<bv8>, action: Action): seq<bv8> {
    match action
    case AttachDetour(_) => memory
    case Edit(at, bytes) => if at + |bytes| <= |memory| then Stored(memory, at, bytes) else memory
  }

  function TargetsOf(action: Action): seq<nat> {
    match action
    case AttachDetour(target) => [target]
    case Edit(_, _) => []
  }

  function Edited(memory: seq<bv8>, actions: seq<Action>): seq<bv8> {
    if actions == [] then memory else EditedBy(Edited(memory, actions[..|actions| - 1]), actions[|actions| - 1])
  }

  function Targets(actions: seq<Action>): seq<nat> {
    if actions == [] then [] else Targets(actions[..|actions| - 1]) + TargetsOf(actions[|actions| - 1])
  }

  lemma OneAction(memory: seq<bv8>, bindings: seq<nat>, actions: seq<Action>, n: nat)
    requires n < |actions|
    ensures Edited(memory, actions[..n + 1]) == EditedBy(Edited(memory, actions[..n]), actions[n])
    ensures bindings + Targets(actions[..n + 1]) == (bindings + Targets(actions[..n])) + TargetsOf(actions[n])
  {
    assert actions[..n + 1][..n] == actions[..n];
  }

  // The actions that a hook takes in an attempt
  function Taken(actions: seq<Action>, attempt: Attempt): seq<Action> {
    if attempt.actions < |actions| then actions[..attempt.actions] else actions
  }

  // All that the first k hooks take in their attempts
  function AllTaken(hooks: seq<seq<Action>>, attempts: nat -> Attempt, k: nat): seq<Action>
    requires k <= |hooks|
  {
    if k == 0 then [] else AllTaken(hooks, attempts, k - 1) + Taken(hooks[k - 1], attempts(k - 1))
  }

  lemma {:induction false} TakenSize(hooks: seq<seq<Action>>, attempts: nat -> Attempt, k: nat, h: nat)
    requires h < k <= |hooks|
    ensures |AllTaken(hooks, attempts, h + 1)| == |AllTaken(hooks, attempts, h)| + |Taken(hooks[h], attempts(h))|
    ensures |AllTaken(hooks, attempts, h + 1)| <= |AllTaken(hooks, attempts, k)|
    decreases k
  {
    hide Taken;
    if h < k - 1 {
      TakenSize(hooks, attempts, k - 1, h);
    }
  }

  // They are the hooks' first actions, as many as each attempt says, one hook after the other.
  lemma {:induction false} TakenAt(hooks: seq<seq<Action>>, attempts: nat -> Attempt, k: nat, h: nat, i: nat)
    requires h < k <= |hooks| && i < |hooks[h]| && i < attempts(h).actions
    ensures var n := |AllTaken(hooks, attempts, h)|;
            && |AllTaken(hooks, attempts, h + 1)| == n + (if attempts(h).actions < |hooks[h]| then attempts(h).actions else |hooks[h]|)
            && n + i < |AllTaken(hooks, attempts, k)| && AllTaken(hooks, attempts, k)[n + i] == hooks[h][i]
    decreases k
  {
    TakenSize(hooks, attempts, k, h);
    var t := Taken(hooks[h], attempts(h));
    assert i < |t| && t[i] == hooks[h][i] && |t| == if attempts(h).actions < |hooks[h]| then attempts(h).actions else |hooks[h]|;
    hide Taken;
    if h < k - 1 {
      TakenAt(hooks, attempts, k - 1, h, i);
    }
  }

  lemma {:induction false} EditedConcat(memory: seq<bv8>, a: seq<Action>, b: seq<Action>)
    ensures Edited(memory, a + b) == Edited(Edited(memory, a), b) && Targets(a + b) == Targets(a) + Targets(b)
    decreases |b|
  {
    if b == [] {
      assert a + b == a;
    } else {
      var front := b[..|b| - 1];
      EditedConcat(memory, a, front);
      assert (a + b)[..|a + b| - 1] == a + front;
    }
  }

  // What actions leave, byte by byte and detour by detour: a byte that no edit covers is as it was, one
  // that some cover holds what the last of them writes; the detours are in the order of the actions.

  predicate Covers(action: Action, p: nat) {
    action.Edit? && action.address <= p < action.address + |action.bytes|
  }

  ghost predicate Written(original: seq<bv8>, memory: seq<bv8>, actions: seq<Action>) {
    && |memory| == |original|
    && (forall p :: 0 <= p < |memory| && (forall i :: 0 <= i < |actions| ==> !Covers(actions[i], p)) ==> memory[p] == original[p])
    && forall p, i {:trigger Covers(actions[i], p)} ::
         0 <= p < |memory| && 0 <= i < |actions| && Covers(actions[i], p) && (forall j :: i < j < |actions| ==> !Covers(actions[j], p)) ==>
           memory[p] == actions[i].bytes[p - actions[i].address]
  }

  function DetourCount(actions: seq<Action>): nat {
    if actions == [] then 0 else DetourCount(actions[..|actions| - 1]) + if actions[|actions| - 1].AttachDetour? then 1 else 0
  }

  ghost predicate Recorded(bindings: seq<nat>, actions: seq<Action>) {
    && |bindings| == DetourCount(actions)
    && forall i :: 0 <= i < |actions| && actions[i].AttachDetour? ==>
         DetourCount(actions[..i]) < |bindings| && bindings[DetourCount(actions[..i])] == actions[i].target
  }

  lemma {:induction false} EditedSize(memory: seq<bv8>, actions: seq<Action>)
    ensures |Edited(memory, actions)| == |memory|
  {
    if actions != [] {
      EditedSize(memory, actions[..|actions| - 1]);
    }
  }

  // A byte after one action
  lemma ByteAfter(memory: seq<bv8>, action: Action, p: nat)
    requires p < |memory| && (action.Edit? ==> action.address + |action.bytes| <= |memory|)
    ensures |EditedBy(memory, action)| == |memory|
    ensures EditedBy(memory, action)[p] == if Covers(action, p) then action.bytes[p - action.address] else memory[p]
  {
  }

  ghost predicate Fits(actions: seq<Action>, size: nat) {
    forall i :: 0 <= i < |actions| && actions[i].Edit? ==> actions[i].address + |actions[i].bytes| <= size
  }

  lemma {:induction false} ByteOfLast(memory: seq<bv8>, actions: seq<Action>, i: nat, p: nat)
    requires p < |memory| && Fits(actions, |memory|) && i < |actions| && Covers(actions[i], p)
    requires forall j :: i < j < |actions| ==> !Covers(actions[j], p)
    ensures |Edited(memory, actions)| == |memory| && Edited(memory, actions)[p] == actions[i].bytes[p - actions[i].address]
    decreases |actions|
  {
    var front, last := actions[..|actions| - 1], actions[|actions| - 1];
    EditedSize(memory, front);
    ByteAfter(Edited(memory, front), last, p);
    if i < |actions| - 1 {
      ByteOfLast(memory, front, i, p);
    }
  }

  lemma {:induction false} ByteOfNone(memory: seq<bv8>, actions: seq<Action>, p: nat)
    requires p < |memory| && Fits(actions, |memory|) && forall j :: 0 <= j < |actions| ==> !Covers(actions[j], p)
    ensures |Edited(memory, actions)| == |memory| && Edited(memory, actions)[p] == memory[p]
    decreases |actions|
  {
    if actions != [] {
      var front, last := actions[..|actions| - 1], actions[|actions| - 1];
      EditedSize(memory, front);
      ByteOfNone(memory, front, p);
      ByteAfter(Edited(memory, front), last, p);
    }
  }

  lemma EditedWrites(memory: seq<bv8>, actions: seq<Action>)
    requires Fits(actions, |memory|)
    ensures Written(memory, Edited(memory, actions), actions)
  {
    EditedSize(memory, actions);
    forall p: nat | p < |memory| && forall i :: 0 <= i < |actions| ==> !Covers(actions[i], p)
      ensures Edited(memory, actions)[p] == memory[p]
    {
      ByteOfNone(memory, actions, p);
    }
    forall p: nat, i: nat | p < |memory| && i < |actions| && Covers(actions[i], p) && (forall j :: i < j < |actions| ==> !Covers(actions[j], p))
      ensures Edited(memory, actions)[p] == actions[i].bytes[p - actions[i].address]
    {
      ByteOfLast(memory, actions, i, p);
    }
  }

  lemma {:induction false} TargetAt(actions: seq<Action>, i: nat)
    requires i < |actions| && actions[i].AttachDetour?
    ensures |Targets(actions)| == DetourCount(actions) && DetourCount(actions[..i]) < DetourCount(actions)
    ensures Targets(actions)[DetourCount(actions[..i])] == actions[i].target
    decreases |actions|
  {
    var n := |actions| - 1;
    TargetCount(actions[..n]);
    if i < n {
      TargetAt(actions[..n], i);
      assert actions[..n][..i] == actions[..i];
    }
  }

  lemma {:induction false} TargetCount(actions: seq<Action>)
    ensures |Targets(actions)| == DetourCount(actions)
    decreases |actions|
  {
    if actions != [] {
      TargetCount(actions[..|actions| - 1]);
    }
  }

  lemma TargetsRecord(actions: seq<Action>)
    ensures Recorded(Targets(actions), actions)
  {
    TargetCount(actions);
    forall i: nat | i < |actions| && actions[i].AttachDetour?
      ensures DetourCount(actions[..i]) < DetourCount(actions) && Targets(actions)[DetourCount(actions[..i])] == actions[i].target
    {
      TargetAt(actions, i);
    }
  }

  lemma {:induction false} TakenFits(hooks: seq<seq<Action>>, attempts: nat -> Attempt, k: nat, size: nat)
    requires k <= |hooks| && EditsInBounds(hooks, size)
    ensures Fits(AllTaken(hooks, attempts, k), size)
  {
    if k > 0 {
      TakenFits(hooks, attempts, k - 1, size);
      assert Fits(Taken(hooks[k - 1], attempts(k - 1)), size);
    }
  }

  // The first k hooks have made their attempts.
  ghost predicate Reached(original: seq<bv8>, hooks: seq<seq<Action>>, attempts: nat -> Attempt, k: nat, memory: seq<bv8>, bindings: seq<nat>) {
    && k <= |hooks| && memory == Edited(original, AllTaken(hooks, attempts, k)) && bindings == Targets(AllTaken(hooks, attempts, k))
  }

  lemma ReachedNext(original: seq<bv8>, hooks: seq<seq<Action>>, attempts: nat -> Attempt, k: nat, memory: seq<bv8>, bindings: seq<nat>,
                    memory': seq<bv8>, bindings': seq<nat>)
    requires Reached(original, hooks, attempts, k, memory, bindings) && k < |hooks|
    requires memory' == Edited(memory, Taken(hooks[k], attempts(k))) && bindings' == bindings + Targets(Taken(hooks[k], attempts(k)))
    ensures Reached(original, hooks, attempts, k + 1, memory', bindings')
  {
    EditedConcat(original, AllTaken(hooks, attempts, k), Taken(hooks[k], attempts(k)));
  }

  lemma ReachedEffects(original: seq<bv8>, hooks: seq<seq<Action>>, attempts: nat -> Attempt, k: nat, memory: seq<bv8>, bindings: seq<nat>)
    requires Reached(original, hooks, attempts, k, memory, bindings) && EditsInBounds(hooks, |original|)
    ensures Written(original, memory, AllTaken(hooks, attempts, k)) && Recorded(bindings, AllTaken(hooks, attempts, k))
  {
    TakenFits(hooks, attempts, k, |original|);
    EditedWrites(original, AllTaken(hooks, attempts, k));
    TargetsRecord(AllTaken(hooks, attempts, k));
  }

  // k hooks are installed, and writing back what they remember gives the original memory.
  ghost predicate Restorable(original: seq<bv8>, memory: seq<bv8>, patches: seq<seq<Patch>>, k: nat) {
    && k <= |patches| && |memory| == |original|
    && (forall i :: k <= i < |patches| ==> patches[i] == [])
    && InBounds(memory, Stack(patches, k)) && Unwound(memory, Stack(patches, k)) == original
  }

  lemma PushHook(original: seq<bv8>, memory: seq<bv8>, patches: seq<seq<Patch>>, k: nat)
    requires Restorable(original, memory, patches, k) && k < |patches|
    ensures Restorable(original, memory, patches, k + 1)
  {
    assert Stack(patches, k + 1) == Stack(patches, k);
  }

  lemma PopHook(original: seq<bv8>, memory: seq<bv8>, patches: seq<seq<Patch>>, k: nat)
    requires Restorable(original, memory, patches, k) && k > 0 && patches[k - 1] == []
    ensures Restorable(original, memory, patches, k - 1)
  {
    assert Stack(patches, k) == Stack(patches, k - 1);
  }

  // An edit by the last installed hook, with what it overwrites remembered
  lemma EditKeeps(original: seq<bv8>, memory: seq<bv8>, patches: seq<seq<Patch>>, k: nat, at: nat, b: seq<bv8>)
    requires Restorable(original, memory, patches, k) && k > 0 && at + |b| <= |memory|
    ensures Restorable(original, Stored(memory, at, b), patches[k - 1 := patches[k - 1] + [Patch(at, memory[at..at + |b|])]], k)
  {
    var p := Patch(at, memory[at..at + |b|]);
    StackTop(patches, k, patches[k - 1] + [p]);
    assert Stack(patches, k - 1) + (patches[k - 1] + [p]) == Stack(patches, k) + [p];
    PushKeeps(memory, Stack(patches, k), at, b);
  }

  // Writing back the last patch of the last installed hook, in whole or in part
  lemma WriteKeeps(original: seq<bv8>, memory: seq<bv8>, patches: seq<seq<Patch>>, k: nat, n: nat)
    requires Restorable(original, memory, patches, k) && k > 0 && patches[k - 1] != []
    ensures var top := patches[k - 1];
            var p := top[|top| - 1];
            && p.address + |p.original| <= |memory|
            && Restorable(original, Stored(memory, p.address, p.original), patches[k - 1 := top[..|top| - 1]], k)
            && |Stack(patches[k - 1 := top[..|top| - 1]], k)| == |Stack(patches, k)| - 1
            && (n <= |p.original| ==> Restorable(original, Stored(memory, p.address, p.original[..n]), patches, k))
  {
    var top := patches[k - 1];
    var p, rest := top[|top| - 1], top[..|top| - 1];
    var stack := Stack(patches, k);
    assert stack == Stack(patches, k - 1) + top;
    assert stack[|stack| - 1] == p && stack[..|stack| - 1] == Stack(patches, k - 1) + rest;
    StackTop(patches, k, rest);
    PopKeeps(memory, stack);
    if n <= |p.original| {
      PartialKeeps(memory, stack, n);
    }
  }

  // Hooks are known by their index in hooks; patches[i] is what hook i remembers.  memory and bindings
  // are the game's memory and the detours of DetourLifetime, apart from the patched places.
  class HookManager {
    var hooks: seq<seq<Action>>
    var installed: seq<nat>
    var patches: seq<seq<Patch>>
    var memory: seq<bv8>
    var bindings: seq<nat>
    ghost const original: seq<bv8>
    ghost var log: seq<Entry>

    ghost predicate Valid()
      reads this
    {
      && |patches| == |hooks| && |installed| <= |hooks|
      && installed == Prefix(|installed|)
      && EditsInBounds(hooks, |original|)
      && Restorable(original, memory, patches, |installed|)
      && (bindings != [] ==> installed != [])
      && Replay(log) == Some(installed)
    }

    constructor (memory: seq<bv8>)
      ensures Valid() && original == memory && this.memory == memory && hooks == [] && installed == [] && bindings == [] && log == []
    {
      this.memory, original := memory, memory;
      hooks, installed, patches, bindings, log := [], [], [], [], [];
    }

    // In the manager's whole history every installation of a hook but the present one was undone, once.
    lemma EachUndoneOnce(i: nat)
      requires Valid()
      ensures Count(log, Pushed(i)) == Count(log, Undone(i)) + if i in installed then 1 else 0
    {
      UndoneAtMostOnce(log, i);
      CountPrefix(|installed|, i);
      assert i < |installed| ==> installed[i] == i;
    }

    method AddHook(hook: seq<Action>)
      requires Valid() && EditsInBounds([hook], |original|)
      modifies this
      ensures Valid() && hooks == old(hooks) + [hook]
      ensures installed == old(installed) && memory == old(memory) && bindings == old(bindings) && log == old(log)
    {
      StackUpto(patches, patches + [[]], |installed|);
      hooks, patches := hooks + [hook], patches + [[]];
    }

    // Remember and memcpy
    method Overwrite(at: nat, bytes: seq<bv8>)
      requires Valid() && installed != [] && at + |bytes| <= |memory|
      modifies this`patches, this`memory
      ensures Valid() && patches[..|installed| - 1] == old(patches[..|installed| - 1])
      ensures memory == Stored(old(memory), at, bytes)
    {
      var i := |installed| - 1;
      EditKeeps(original, memory, patches, |installed|, at, bytes);
      hide *;
      patches := patches[i := patches[i] + [Patch(at, memory[at..at + |bytes|])]];
      memory := Stored(memory, at, bytes);
    }

    lemma EditFits(i: nat, j: nat)
      requires Valid() && i < |hooks| && j < |hooks[i]| && hooks[i][j].Edit?
      ensures hooks[i][j].address + |hooks[i][j].bytes| <= |memory|
    {
    }

    // One action of the last installed hook
    method Act(action: Action)
      requires Valid() && installed != [] && (action.Edit? ==> action.address + |action.bytes| <= |memory|)
      modifies this`patches, this`memory, this`bindings
      ensures Valid() && patches[..|installed| - 1] == old(patches[..|installed| - 1])
      ensures memory == EditedBy(old(memory), action) && bindings == old(bindings) + TargetsOf(action)
    {
      hide Restorable, Prefix, EditsInBounds, Replay;
      match action
      case AttachDetour(target) =>
        bindings := bindings + [target];
      case Edit(at, bytes) =>
        Overwrite(at, bytes);
    }

    // The last installed hook's Install, as far as it gets
    method Install(attempt: Attempt) returns (error: HookError)
      requires Valid() && installed != []
      modifies this`patches, this`memory, this`bindings
      ensures Valid() && error == attempt.error
      ensures patches[..|installed| - 1] == old(patches[..|installed| - 1])
      ensures memory == Edited(old(memory), Taken(hooks[|installed| - 1], attempt))
      ensures bindings == old(bindings) + Targets(Taken(hooks[|installed| - 1], attempt))
    {
      ghost var m0, b0 := memory, bindings;
      var i := |installed| - 1;
      var actions := Taken(hooks[i], attempt);
      assert Edited(m0, actions[..0]) == m0 && b0 + Targets(actions[..0]) == b0;
      hide Restorable, Prefix, EditsInBounds, Replay, Edited, Targets, EditedBy, TargetsOf;
      for j := 0 to |actions|
        invariant Valid() && patches[..i] == old(patches[..i])
        invariant memory == Edited(m0, actions[..j]) && bindings == b0 + Targets(actions[..j])
      {
        OneAction(m0, b0, actions, j);
        if actions[j].Edit? {
          EditFits(i, j);
        }
        Act(actions[j]);
      }
      assert actions[..|actions|] == actions;
      return attempt.error;
    }

    // The next hook is on the list before its Install is called.
    method InstallNext(attempt: Attempt) returns (error: HookError)
      requires Valid() && |installed| < |hooks|
      modifies this`installed, this`patches, this`memory, this`bindings, this`log
      ensures Valid() && |installed| == old(|installed|) + 1 && error == attempt.error
      ensures log == old(log) + [Pushed(old(|installed|))]
      ensures memory == Edited(old(memory), Taken(hooks[old(|installed|)], attempt))
      ensures bindings == old(bindings) + Targets(Taken(hooks[old(|installed|)], attempt))
    {
      hide *;
      Push();
      error := Install(attempt);
    }

    // How far an InstallAll has come: all before the last installed hook have succeeded, and it too
    // unless there is an error.
    ghost predicate InstalledTo(attempts: nat -> Attempt, error: HookError)
      reads this
    {
      && Valid() && Reached(original, hooks, attempts, |installed|, memory, bindings)
      && (forall j :: 0 <= j < |installed| - 1 ==> attempts(j).error == Success)
      && (installed != [] ==> attempts(|installed| - 1).error == error) && (installed == [] ==> error == Success)
    }

    method InstallOneMore(attempts: nat -> Attempt) returns (error: HookError)
      requires InstalledTo(attempts, Success) && |installed| < |hooks|
      modifies this`installed, this`patches, this`memory, this`bindings, this`log
      ensures InstalledTo(attempts, error) && |installed| == old(|installed|) + 1
      ensures log == old(log) + [Pushed(old(|installed|))]
    {
      hide Restorable, Prefix, EditsInBounds, Replay, Reached, Edited, Targets, Taken;
      var k := |installed|;
      ghost var m, b := memory, bindings;
      error := InstallNext(attempts(k));
      ReachedNext(original, hooks, attempts, k, m, b, memory, bindings);
    }

    // The loop of InstallAll, up to the first hook that fails
    method InstallHooks(attempts: nat -> Attempt) returns (error: HookError)
      requires Valid() && installed == []
      modifies this`installed, this`patches, this`memory, this`bindings, this`log
      ensures InstalledTo(attempts, error) && |installed| <= |hooks|
      ensures if error == Success then |installed| == |hooks| else installed != []
      ensures log == old(log) + Pushings(0, |installed|)
    {
      NothingInstalled(original, memory, patches);
      NoDetours();
      error := Success;
      ghost var log0 := log;
      assert Pushings(0, 0) == [];
      hide *;
      while |installed| < |hooks|
        invariant InstalledTo(attempts, error) && error == Success && |installed| <= |hooks|
        invariant log == log0 + Pushings(0, |installed|)
        decreases |hooks| - |installed|
      {
        OnePushed(log0, |installed|);
        error := InstallOneMore(attempts);
        if error != Success {
          return;
        }
      }
    }

    lemma NoDetours()
      requires Valid() && installed == []
      ensures bindings == []
    {
    }

    // WriteProcessMemory of the last bytes that the last installed hook remembers
    method WriteBack(write: Write) returns (ok: bool)
      requires Valid() && installed != [] && patches[|installed| - 1] != []
      modifies this`patches, this`memory
      ensures Valid() && patches[..|installed| - 1] == old(patches[..|installed| - 1]) && ok == write.Whole?
      ensures ok ==> patches[|installed| - 1] == old(patches[|installed| - 1][..|patches[|installed| - 1]| - 1])
      ensures ok ==> |Stack(patches, |installed|)| == old(|Stack(patches, |installed|)|) - 1
      ensures !ok ==> patches == old(patches)
    {
      ok := write.Whole?;
      match write
      case Part(n) =>
        WritePart(n);
      case Whole =>
        WriteWhole();
    }

    method WritePart(n: nat)
      requires Valid() && installed != [] && patches[|installed| - 1] != []
      modifies this`memory
      ensures Valid()
    {
      var top := patches[|installed| - 1];
      var p := top[|top| - 1];
      var n' := if n < |p.original| then n else |p.original|;
      WriteKeeps(original, memory, patches, |installed|, n');
      hide *;
      memory := Stored(memory, p.address, p.original[..n']);
    }

    method WriteWhole()
      requires Valid() && installed != [] && patches[|installed| - 1] != []
      modifies this`patches, this`memory
      ensures Valid() && patches[..|installed| - 1] == old(patches[..|installed| - 1])
      ensures patches[|installed| - 1] == old(patches[|installed| - 1][..|patches[|installed| - 1]| - 1])
      ensures |Stack(patches, |installed|)| == old(|Stack(patches, |installed|)|) - 1
    {
      var i := |installed| - 1;
      var top := patches[i];
      var p := top[|top| - 1];
      WriteKeeps(original, memory, patches, |installed|, 0);
      hide *;
      memory := Stored(memory, p.address, p.original);
      patches := patches[i := top[..|top| - 1]];
    }

    // The last installed hook's Uninstall.  w counts the writes of this call of UninstallAll.
    method Uninstall(writes: nat -> Write, w0: nat) returns (ok: bool, w: nat)
      requires Valid() && installed != []
      modifies this`patches, this`memory
      ensures Valid() && patches[..|installed| - 1] == old(patches[..|installed| - 1])
      ensures w0 <= w && |Stack(patches, |installed|)| + w == old(|Stack(patches, |installed|)|) + w0
      ensures forall j :: w0 <= j < w ==> writes(j) == Whole
      ensures if ok then patches[|installed| - 1] == [] else writes(w) != Whole && patches[|installed| - 1] != []
    {
      hide Restorable, Prefix, EditsInBounds, Replay, Stack;
      var i := |installed| - 1;
      w := w0;
      while patches[i] != []
        invariant Valid() && patches[..i] == old(patches[..i])
        invariant w0 <= w && |Stack(patches, |installed|)| + w == old(|Stack(patches, |installed|)|) + w0
        invariant forall j :: w0 <= j < w ==> writes(j) == Whole
        decreases |patches[i]|
      {
        ok := WriteBack(writes(w));
        if !ok {
          return;
        }
        w := w + 1;
      }
      ok := true;
    }

    // InstalledHooks.pop_back()
    method Pop()
      requires Valid() && installed != [] && patches[|installed| - 1] == [] && bindings == []
      modifies this`installed, this`log
      ensures Valid() && installed == Prefix(old(|installed|) - 1)
      ensures Stack(patches, |installed|) == old(Stack(patches, |installed|))
      ensures log == old(log) + [Undone(|installed|)]
    {
      PopHook(original, memory, patches, |installed|);
      assert (log + [Undone(|installed| - 1)])[..|log|] == log;
      assert Prefix(|installed|)[..|installed| - 1] == Prefix(|installed| - 1);
      log := log + [Undone(|installed| - 1)];
      installed := installed[..|installed| - 1];
      assert Stack(patches, |installed| + 1) == Stack(patches, |installed|) + [];
    }

    // Undoes the installed hooks, the last one first.
    method UndoHooks(writes: nat -> Write) returns (ok: bool)
      requires Valid() && bindings == []
      modifies this`installed, this`patches, this`memory, this`log
      ensures Valid() && |installed| <= old(|installed|) && log == old(log) + Undoings(old(|installed|), |installed|)
      ensures ok <==> forall j :: 0 <= j < old(|Stack(patches, |installed|)|) ==> writes(j) == Whole
      ensures if ok then installed == [] else 0 < |installed| && patches[..|installed| - 1] == old(patches)[..|installed| - 1]
    {
      hide Restorable, Prefix, EditsInBounds, Replay;
      ghost var k0, patches0, size, log0 := |installed|, patches, |Stack(patches, |installed|)|, log;
      assert Undoings(k0, k0) == [];
      hide Undoings;
      assert patches[..k0] == patches0[..k0];
      var w := 0;
      while installed != []
        invariant Valid() && |installed| <= k0 && patches[..|installed|] == patches0[..|installed|]
        invariant log == log0 + Undoings(k0, |installed|)
        invariant |Stack(patches, |installed|)| + w == size && forall j :: 0 <= j < w ==> writes(j) == Whole
        decreases |installed|
      {
        Below(patches, patches0, |installed|);
        ok, w := Uninstall(writes, w);
        if !ok {
          SomeLeft(patches, |installed|);
          return;
        }
        OneUndone(log0, k0, |installed|);
        Pop();
      }
      ok := true;
    }

    // It succeeds exactly when the detours can go and every remembered place can be written back, and
    // then nothing is left of the hooks.  A refused detach changes nothing; a failed write stops with
    // the detours gone and the hooks below as they were, for a later call to go on from.
    method UninstallAll(detachable: bool, writes: nat -> Write) returns (result: Result)
      requires Valid()
      modifies this`installed, this`patches, this`memory, this`bindings, this`log
      ensures Valid() && result in {Ok, DetachRefused, WriteFault}
      ensures |installed| <= old(|installed|) && log == old(log) + Undoings(old(|installed|), |installed|)
      ensures result == Ok <==> old(bindings == [] || detachable) && forall j :: 0 <= j < old(|Stack(patches, |installed|)|) ==> writes(j) == Whole
      ensures result == Ok ==> installed == [] && bindings == [] && memory == original
      ensures result == DetachRefused <==> old(bindings) != [] && !detachable
      ensures result == DetachRefused ==>
        installed == old(installed) && patches == old(patches) && memory == old(memory) && bindings == old(bindings) && log == old(log)
      ensures result == WriteFault ==> bindings == [] && 0 < |installed| <= old(|installed|)
      ensures result == WriteFault ==> patches[..|installed| - 1] == old(patches)[..|installed| - 1]
    {
      if installed == [] {
        return Ok;
      }
      if bindings != [] && !detachable {
        return DetachRefused;
      }
      bindings := [];
      var ok := UndoHooks(writes);
      return if ok then Ok else WriteFault;
    }
  
    // Installs every hook in order.  When one fails, whatever it got done is rolled back with the others.
    method InstallAll(attempts: nat -> Attempt, detachable: bool, writes: nat -> Write) returns (result: Result)
      requires Valid()
      modifies this`installed, this`patches, this`memory, this`bindings, this`log
      ensures Valid()
      ensures result == AlreadyExists <==> old(installed) != []
      ensures result == AlreadyExists ==>
        installed == old(installed) && patches == old(patches) && memory == old(memory) && bindings == old(bindings) && log == old(log)
      ensures result == Ok <==> old(installed) == [] && forall i :: 0 <= i < |hooks| ==> attempts(i).error == Success
      ensures result == Ok ==> |installed| == |hooks| && log == old(log) + Pushings(0, |hooks|)
      ensures result == Ok ==> Written(original, memory, AllTaken(hooks, attempts, |hooks|)) && Recorded(bindings, AllTaken(hooks, attempts, |hooks|))
      ensures result.InstallFailed? ==>
        exists i :: 0 <= i < |hooks| && attempts(i).error == result.error != Success && (forall j :: 0 <= j < i ==> attempts(j).error == Success)
                    && |installed| <= i + 1 && log == old(log) + Pushings(0, i + 1) + Undoings(i + 1, |installed|)
      ensures result.InstallFailed? && detachable && (forall w :: writes(w) == Whole) ==> installed == [] && memory == original
      ensures result in {Ok, AlreadyExists} || result.InstallFailed?
    {
      if installed != [] {
        return AlreadyExists;
      }
      var error := InstallHooks(attempts);
      hide Restorable, Prefix, EditsInBounds, Replay, Stack;
      if error == Success {
        ReachedEffects(original, hooks, attempts, |installed|, memory, bindings);
        return Ok;
      }
      assert attempts(|installed| - 1).error == error;
      var rollback := UninstallAll(detachable, writes);
      return InstallFailed(error);
    }

    // InstalledHooks.push_back(hook.get()), before the hook's Install
    method Push()
      requires Valid() && |installed| < |hooks|
      modifies this`installed, this`log
      ensures Valid() && |installed| == old(|installed|) + 1 && log == old(log) + [Pushed(old(|installed|))]
    {
      PushHook(original, memory, patches, |installed|);
      assert (log + [Pushed(|installed|)])[..|log|] == log;
      assert Prefix(|installed| + 1) == Prefix(|installed|) + [|installed|];
      log := log + [Pushed(|installed|)];
      installed := installed + [|installed|];
    }

    // The destructor: when the teardown fails, the hooks are released instead of destroyed, as callbacks
    // may still use them.
    method Destroy(detachable: bool, writes: nat -> Write) returns (released: bool)
      requires Valid()
      modifies this`installed, this`patches, this`memory, this`bindings, this`log
      ensures Valid()
      ensures !released ==> installed == [] && bindings == [] && memory == original
      ensures |installed| <= old(|installed|) && log == old(log) + Undoings(old(|installed|), |installed|)
      ensures old(bindings) != [] && !detachable ==> released && bindings == old(bindings) && installed == old(installed)
    {
      var result := UninstallAll(detachable, writes);
      released := result != Ok;
    }
  }

  lemma OnePushed(log: seq<Entry>, k: nat)
    ensures log + Pushings(0, k) + [Pushed(k)] == log + Pushings(0, k + 1)
  {
  }

  lemma OneUndone(log: seq<Entry>, from: nat, k: nat)
    requires 0 < k <= from
    ensures log + Undoings(from, k) + [Undone(k - 1)] == log + Undoings(from, k - 1)
  {
  }

  // With no hook installed there is no detour and the memory is as it was.
  lemma NothingInstalled(original: seq<bv8>, memory: seq<bv8>, patches: seq<seq<Patch>>)
    requires Restorable(original, memory, patches, 0)
    ensures memory == original
  {
  }

  lemma Below<T>(p: seq<T>, q: seq<T>, k: nat)
    requires 0 < k <= |p| && k <= |q| && p[..k] == q[..k]
    ensures p[..k - 1] == q[..k - 1]
  {
    assert p[..k][..k - 1] == p[..k - 1] && q[..k][..k - 1] == q[..k - 1];
  }

  lemma SomeLeft(patches: seq<seq<Patch>>, k: nat)
    requires 0 < k <= |patches| && patches[k - 1] != []
    ensures |Stack(patches, k)| > 0
  {
  }
}
