/**
  A key-alternating cipher over any state type: rounds of substitution, mixing and key addition,
  the last one without mixing.  Running it with inverse layers on a transformed key schedule is
  the equivalent inverse cipher of FIPS 197 section 5.3.5; the round trip needs only the four
  laws in Undoes, whatever a state is and however many rounds there are.
*/
module KeyAlternating {

  datatype Layers<!S(!new)> = Layers(sub: S -> S, mix: S -> S, add: (S, S) -> S)

  // The state after round r (round 0 is the initial key addition).
  function Rounds<S(!new)>(l: Layers<S>, w: seq<S>, input: S, r: nat): S
    requires r < |w|
  {
    if r == 0 then l.add(input, w[0])
    else l.add(l.mix(l.sub(Rounds(l, w, input, r - 1))), w[r])
  }

  function Cipher<S(!new)>(l: Layers<S>, w: seq<S>, input: S): S
    requires |w| >= 2
  {
    l.add(l.sub(Rounds(l, w, input, |w| - 2)), w[|w| - 1])
  }

  // dw is the schedule w in the opposite order, its inner round keys passed through the mix layer
  // of l.
  ghost predicate IsDecryptionSchedule<S(!new)>(l: Layers<S>, w: seq<S>, dw: seq<S>) {
    && |w| == |dw| >= 2 && dw[0] == w[|w| - 1] && dw[|w| - 1] == w[0]
    && (forall r {:trigger dw[r]} :: 1 <= r < |w| - 1 ==> dw[r] == l.mix(w[|w| - 1 - r]))
  }

  ghost predicate SubUndone<S(!new)>(inv: Layers<S>, fwd: Layers<S>) {
    forall s {:trigger inv.sub(fwd.sub(s))} :: inv.sub(fwd.sub(s)) == s
  }

  ghost predicate MixUndone<S(!new)>(inv: Layers<S>, fwd: Layers<S>) {
    forall s {:trigger inv.mix(fwd.mix(s))} :: inv.mix(fwd.mix(s)) == s
  }

  ghost predicate MixDistributes<S(!new)>(inv: Layers<S>) {
    forall s, k {:trigger inv.mix(inv.add(s, k))} :: inv.mix(inv.add(s, k)) == inv.add(inv.mix(s), inv.mix(k))
  }

  ghost predicate AddCancels<S(!new)>(inv: Layers<S>) {
    forall s, k {:trigger inv.add(inv.add(s, k), k)} :: inv.add(inv.add(s, k), k) == s
  }

  ghost predicate Undoes<S(!new)>(inv: Layers<S>, fwd: Layers<S>) {
    inv.add == fwd.add && SubUndone(inv, fwd) && MixUndone(inv, fwd) && MixDistributes(inv) && AddCancels(inv)
  }

  // After its round r, the inverse cipher holds what the cipher had after the substitution of
  // the round with r rounds to go.
  lemma {:induction false} RoundsMeet<S(!new)>(inv: Layers<S>, fwd: Layers<S>, w: seq<S>, dw: seq<S>, input: S, r: nat)
    requires Undoes(inv, fwd) && IsDecryptionSchedule(inv, w, dw) && r < |w| - 1
    ensures Rounds(inv, dw, Cipher(fwd, w, input), r) == fwd.sub(Rounds(fwd, w, input, |w| - 2 - r))
  {
    if r > 0 {
      RoundsMeet(inv, fwd, w, dw, input, r - 1);
      var mixed := fwd.mix(fwd.sub(Rounds(fwd, w, input, |w| - 2 - r)));
      assert inv.mix(inv.add(mixed, w[|w| - 1 - r])) == inv.add(inv.mix(mixed), inv.mix(w[|w| - 1 - r]));
    }
  }

  lemma EquivalentInverseUndoesCipher<S(!new)>(inv: Layers<S>, fwd: Layers<S>, w: seq<S>, dw: seq<S>, input: S)
    requires Undoes(inv, fwd) && IsDecryptionSchedule(inv, w, dw)
    ensures Cipher(inv, dw, Cipher(fwd, w, input)) == input
  {
    RoundsMeet(inv, fwd, w, dw, input, |w| - 2);
  }

  // The inverse cipher in the order of FIPS 197 section 5.3: it undoes the layers one by one, with the round
  // keys of w as they are, from the last one.

  function InvRounds<S(!new)>(l: Layers<S>, w: seq<S>, input: S, r: nat): S
    requires r < |w|
  {
    if r == 0 then l.add(input, w[|w| - 1])
    else l.mix(l.add(l.sub(InvRounds(l, w, input, r - 1)), w[|w| - 1 - r]))
  }

  function InvCipher<S(!new)>(l: Layers<S>, w: seq<S>, input: S): S
    requires |w| >= 2
  {
    l.add(l.sub(InvRounds(l, w, input, |w| - 2)), w[0])
  }

  lemma {:induction false} InvRoundsAgree<S(!new)>(inv: Layers<S>, w: seq<S>, dw: seq<S>, input: S, r: nat)
    requires MixDistributes(inv) && IsDecryptionSchedule(inv, w, dw) && r < |w| - 1
    ensures Rounds(inv, dw, input, r) == InvRounds(inv, w, input, r)
  {
    if r > 0 {
      InvRoundsAgree(inv, w, dw, input, r - 1);
      var x, k := inv.sub(InvRounds(inv, w, input, r - 1)), w[|w| - 1 - r];
      assert inv.mix(inv.add(x, k)) == inv.add(inv.mix(x), inv.mix(k));
    }
  }

  // The equivalent inverse cipher is the inverse cipher, on every input.
  lemma EquivalentInverseIsInverse<S(!new)>(inv: Layers<S>, w: seq<S>, dw: seq<S>, input: S)
    requires MixDistributes(inv) && IsDecryptionSchedule(inv, w, dw)
    ensures Cipher(inv, dw, input) == InvCipher(inv, w, input)
  {
    InvRoundsAgree(inv, w, dw, input, |w| - 2);
  }

  // w is in turn a decryption schedule of dw, for the layers of encryption.
  lemma ScheduleBack<S(!new)>(inv: Layers<S>, fwd: Layers<S>, w: seq<S>, dw: seq<S>)
    requires MixUndone(fwd, inv) && IsDecryptionSchedule(inv, w, dw)
    ensures IsDecryptionSchedule(fwd, dw, w)
  {
    forall r | 1 <= r < |w| - 1
      ensures w[r] == fwd.mix(dw[|w| - 1 - r])
    {
      assert dw[|w| - 1 - r] == inv.mix(w[r]);
    }
  }

  // A fast cipher keeps the state in its own representation T and does each round in one step.
  datatype Fused<!T(!new)> = Fused(first: (T, T) -> T, round: (T, T) -> T, last: (T, T) -> T)

  function FusedRounds<T(!new)>(f: Fused<T>, ks: seq<T>, input: T, r: nat): T
    requires r < |ks|
  {
    if r == 0 then f.first(input, ks[0]) else f.round(FusedRounds(f, ks, input, r - 1), ks[r])
  }

  function FusedCipher<T(!new)>(f: Fused<T>, ks: seq<T>, input: T): T
    requires |ks| >= 2
  {
    f.last(FusedRounds(f, ks, input, |ks| - 2), ks[|ks| - 1])
  }

  ghost predicate Implements<T(!new), S(!new)>(f: Fused<T>, l: Layers<S>, view: T -> S) {
    && (forall x, k {:trigger f.first(x, k)} :: view(f.first(x, k)) == l.add(view(x), view(k)))
    && (forall x, k {:trigger f.round(x, k)} :: view(f.round(x, k)) == l.add(l.mix(l.sub(view(x))), view(k)))
    && (forall x, k {:trigger f.last(x, k)} :: view(f.last(x, k)) == l.add(l.sub(view(x)), view(k)))
  }

  // w is the schedule ks seen through view.
  ghost predicate IsView<T(!new), S(!new)>(view: T -> S, ks: seq<T>, w: seq<S>) {
    |w| == |ks| && forall r :: 0 <= r < |ks| ==> w[r] == view(ks[r])
  }

  lemma {:induction false} FusedRoundsView<T(!new), S(!new)>(f: Fused<T>, l: Layers<S>, view: T -> S, ks: seq<T>, w: seq<S>,
                                                             input: T, r: nat)
    requires Implements(f, l, view) && IsView(view, ks, w) && r < |ks|
    ensures view(FusedRounds(f, ks, input, r)) == Rounds(l, w, view(input), r)
  {
    if r > 0 {
      FusedRoundsView(f, l, view, ks, w, input, r - 1);
    }
  }

  lemma FusedCipherView<T(!new), S(!new)>(f: Fused<T>, l: Layers<S>, view: T -> S, ks: seq<T>, w: seq<S>, input: T)
    requires Implements(f, l, view) && IsView(view, ks, w) && |ks| >= 2
    ensures view(FusedCipher(f, ks, input)) == Cipher(l, w, view(input))
  {
    FusedRoundsView(f, l, view, ks, w, input, |ks| - 2);
  }
}
