/**
  Patches in the game's memory, remembered on a stack: what DS2_ReplaceServerAddressHook does for one
  hook, and HookManager for all of them together.
*/
module MemoryPatches {
  import opened Blocks

  // The content of a place before it was overwritten
  datatype Patch = Patch(address: nat, original: seq<bv8>)

  ghost predicate InBounds(memory: seq<bv8>, patches: seq<Patch>) {
    forall i :: 0 <= i < |patches| ==> patches[i].address + |patches[i].original| <= |memory|
  }

  // The memory after every patch has been written back, the last one first
  ghost function Unwound(memory: seq<bv8>, patches: seq<Patch>): (r: seq<bv8>)
    requires InBounds(memory, patches)
    ensures |r| == |memory|
    decreases |patches|
  {
    if patches == [] then memory
    else
      var n := |patches| - 1;
      Unwound(Stored(memory, patches[n].address, patches[n].original), patches[..n])
  }

  lemma StoredBack(memory: seq<bv8>, at: nat, b: seq<bv8>)
    requires at + |b| <= |memory|
    ensures Stored(Stored(memory, at, b), at, memory[at..at + |b|]) == memory
  {
  }

  lemma StoredOver(memory: seq<bv8>, at: nat, b: seq<bv8>, n: nat)
    requires at + |b| <= |memory| && n <= |b|
    ensures Stored(Stored(memory, at, b[..n]), at, b) == Stored(memory, at, b)
  {
  }

  // Remembering a place and then overwriting it leaves what unwinding gives, whatever it overlaps.
  lemma PushKeeps(memory: seq<bv8>, patches: seq<Patch>, at: nat, b: seq<bv8>)
    requires InBounds(memory, patches) && at + |b| <= |memory|
    ensures InBounds(Stored(memory, at, b), patches + [Patch(at, memory[at..at + |b|])])
    ensures Unwound(Stored(memory, at, b), patches + [Patch(at, memory[at..at + |b|])]) == Unwound(memory, patches)
  {
    var p := Patch(at, memory[at..at + |b|]);
    assert (patches + [p])[..|patches|] == patches;
    StoredBack(memory, at, b);
  }

  // So does a write that restores only some of the last patch, which then stays remembered.
  lemma PartialKeeps(memory: seq<bv8>, patches: seq<Patch>, n: nat)
    requires InBounds(memory, patches) && patches != [] && n <= |patches[|patches| - 1].original|
    ensures var p := patches[|patches| - 1];
            var memory' := Stored(memory, p.address, p.original[..n]);
            InBounds(memory', patches) && Unwound(memory', patches) == Unwound(memory, patches)
  {
    var p := patches[|patches| - 1];
    StoredOver(memory, p.address, p.original, n);
  }

  lemma PopKeeps(memory: seq<bv8>, patches: seq<Patch>)
    requires InBounds(memory, patches) && patches != []
    ensures var p := patches[|patches| - 1];
            var memory' := Stored(memory, p.address, p.original);
            InBounds(memory', patches[..|patches| - 1]) && Unwound(memory', patches[..|patches| - 1]) == Unwound(memory, patches)
  {
  }

  // The stacks of the first n hooks, as one
  ghost function Stack(patches: seq<seq<Patch>>, n: nat): seq<Patch>
    requires n <= |patches|
  {
    if n == 0 then [] else Stack(patches, n - 1) + patches[n - 1]
  }

  lemma {:induction false} StackUpto(p: seq<seq<Patch>>, q: seq<seq<Patch>>, n: nat)
    requires n <= |p| && n <= |q| && p[..n] == q[..n]
    ensures Stack(p, n) == Stack(q, n)
  {
    if n > 0 {
      assert p[n - 1] == p[..n][n - 1] == q[n - 1];
      assert p[..n - 1] == p[..n][..n - 1] == q[..n - 1];
      StackUpto(p, q, n - 1);
    }
  }

  // A change on top of the stack of the last of n hooks
  lemma StackTop(patches: seq<seq<Patch>>, n: nat, top: seq<Patch>)
    requires 0 < n <= |patches|
    ensures Stack(patches[n - 1 := top], n) == Stack(patches, n - 1) + top
  {
    StackUpto(patches[n - 1 := top], patches, n - 1);
  }
}
