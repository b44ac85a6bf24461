/**
  The cipher of FIPS 197 section 5.1 on the 4x4 state of bytes, and its equivalent inverse of
  section 5.3.5: instances of the key-alternating cipher with the transformations of the standard.
*/
module Fips197 {
  import opened GaloisField
  import opened SubstitutionBox
  import opened KeyAlternating

  datatype State = State(c0: Column, c1: Column, c2: Column, c3: Column) {
    function Map(f: bv8 -> bv8): State {
      State(MapColumn(f, c0), MapColumn(f, c1), MapColumn(f, c2), MapColumn(f, c3))
    }

    function Each(f: Column -> Column): State {
      State(f(c0), f(c1), f(c2), f(c3))
    }

    function Zip(f: (Column, Column) -> Column, s: State): State {
      State(f(c0, s.c0), f(c1, s.c1), f(c2, s.c2), f(c3, s.c3))
    }
  }

  function MapColumn(f: bv8 -> bv8, c: Column): Column {
    Column(f(c.b0), f(c.b1), f(c.b2), f(c.b3))
  }

  // Row r moves r columns to the left.
  function ShiftRows(s: State): State {
    State(Column(s.c0.b0, s.c1.b1, s.c2.b2, s.c3.b3),
          Column(s.c1.b0, s.c2.b1, s.c3.b2, s.c0.b3),
          Column(s.c2.b0, s.c3.b1, s.c0.b2, s.c1.b3),
          Column(s.c3.b0, s.c0.b1, s.c1.b2, s.c2.b3))
  }

  function InvShiftRows(s: State): State {
    State(Column(s.c0.b0, s.c3.b1, s.c2.b2, s.c1.b3),
          Column(s.c1.b0, s.c0.b1, s.c3.b2, s.c2.b3),
          Column(s.c2.b0, s.c1.b1, s.c0.b2, s.c3.b3),
          Column(s.c3.b0, s.c2.b1, s.c1.b2, s.c0.b3))
  }

  // The transformations, and the two directions of the cipher built from them.

  function SubShift(s: State): State {
    ShiftRows(s.Map(SBox))
  }

  function InvSubShift(s: State): State {
    InvShiftRows(s.Map(InvSBox))
  }

  function MixColumns(s: State): State {
    s.Each(MixColumn)
  }

  function InvMixColumns(s: State): State {
    s.Each(InvMixColumn)
  }

  function Plus(c: Column, d: Column): Column {
    c.Plus(d)
  }

  function AddRoundKey(s: State, k: State): State {
    s.Zip(Plus, k)
  }

  function Forward(): Layers<State> {
    Layers(SubShift, MixColumns, AddRoundKey)
  }

  function Inverse(): Layers<State> {
    Layers(InvSubShift, InvMixColumns, AddRoundKey)
  }

  // InvSubBytes commutes with InvShiftRows, so substitution and shift undo together.
  lemma ShiftedMapUndone(inv: bv8 -> bv8, box: bv8 -> bv8, s: State)
    requires forall b {:trigger inv(box(b))} :: inv(box(b)) == b
    ensures InvShiftRows(ShiftRows(s.Map(box)).Map(inv)) == s
    ensures ShiftRows(InvShiftRows(s.Map(box)).Map(inv)) == s
  {
  }

  lemma EachUndone(inv: Column -> Column, mix: Column -> Column, s: State)
    requires forall c {:trigger inv(mix(c))} :: inv(mix(c)) == c
    ensures s.Each(mix).Each(inv) == s
  {
  }

  lemma EachDistributes(mix: Column -> Column, plus: (Column, Column) -> Column, s: State, k: State)
    requires forall c, d {:trigger mix(plus(c, d))} :: mix(plus(c, d)) == plus(mix(c), mix(d))
    ensures s.Zip(plus, k).Each(mix) == s.Each(mix).Zip(plus, k.Each(mix))
  {
  }

  lemma ZipCancels(plus: (Column, Column) -> Column, s: State, k: State)
    requires forall c, d {:trigger plus(plus(c, d), d)} :: plus(plus(c, d), d) == c
    ensures s.Zip(plus, k).Zip(plus, k) == s
  {
  }

  // The laws of the byte and column operations

  lemma BoxLaw()
    ensures forall b {:trigger (InvSBox)((SBox)(b))} :: (InvSBox)((SBox)(b)) == b
    ensures forall b {:trigger (SBox)((InvSBox)(b))} :: (SBox)((InvSBox)(b)) == b
  {
    forall b
      ensures (InvSBox)((SBox)(b)) == b && (SBox)((InvSBox)(b)) == b
    {
      InvSBoxInverse(b);
      SBoxInverse(b);
    }
  }

  lemma MixLaw()
    ensures forall c {:trigger (InvMixColumn)((MixColumn)(c))} :: (InvMixColumn)((MixColumn)(c)) == c
    ensures forall c {:trigger (MixColumn)((InvMixColumn)(c))} :: (MixColumn)((InvMixColumn)(c)) == c
  {
    forall c
      ensures (InvMixColumn)((MixColumn)(c)) == c && (MixColumn)((InvMixColumn)(c)) == c
    {
      MixColumnInverse(c);
      InvMixColumnInverse(c);
    }
  }

  lemma LinearLaw()
    ensures forall c, d {:trigger (InvMixColumn)((Plus)(c, d))} ::
              (InvMixColumn)((Plus)(c, d)) == (Plus)((InvMixColumn)(c), (InvMixColumn)(d))
    ensures forall c, d {:trigger (MixColumn)((Plus)(c, d))} :: (MixColumn)((Plus)(c, d)) == (Plus)((MixColumn)(c), (MixColumn)(d))
  {
    forall c, d
      ensures (InvMixColumn)((Plus)(c, d)) == (Plus)((InvMixColumn)(c), (InvMixColumn)(d))
      ensures (MixColumn)((Plus)(c, d)) == (Plus)((MixColumn)(c), (MixColumn)(d))
    {
      InvMixColumnDistributes(c, d);
      MixColumnDistributes(c, d);
    }
  }

  lemma PlusLaw()
    ensures forall c, d {:trigger (Plus)((Plus)(c, d), d)} :: (Plus)((Plus)(c, d), d) == c
  {
    forall c, d
      ensures (Plus)((Plus)(c, d), d) == c
    {
      AddTwice(c.b0, d.b0);
      AddTwice(c.b1, d.b1);
      AddTwice(c.b2, d.b2);
      AddTwice(c.b3, d.b3);
    }
  }

  // Hence the laws of the layers

  lemma SubShiftUndone()
    ensures SubUndone(Inverse(), Forward()) && SubUndone(Forward(), Inverse())
  {
    forall s: State
      ensures (InvSubShift)((SubShift)(s)) == s && (SubShift)((InvSubShift)(s)) == s
    {
      BoxLaw();
      ShiftedMapUndone(InvSBox, SBox, s);
      ShiftedMapUndone(SBox, InvSBox, s);
    }
  }

  lemma MixColumnsUndone()
    ensures MixUndone(Inverse(), Forward()) && MixUndone(Forward(), Inverse())
  {
    forall s: State
      ensures (InvMixColumns)((MixColumns)(s)) == s && (MixColumns)((InvMixColumns)(s)) == s
    {
      MixLaw();
      EachUndone(InvMixColumn, MixColumn, s);
      EachUndone(MixColumn, InvMixColumn, s);
    }
  }

  lemma MixColumnsDistribute()
    ensures MixDistributes(Inverse()) && MixDistributes(Forward())
  {
    forall s: State, k: State
      ensures (InvMixColumns)((AddRoundKey)(s, k)) == (AddRoundKey)((InvMixColumns)(s), (InvMixColumns)(k))
      ensures (MixColumns)((AddRoundKey)(s, k)) == (AddRoundKey)((MixColumns)(s), (MixColumns)(k))
    {
      LinearLaw();
      EachDistributes(InvMixColumn, Plus, s, k);
      EachDistributes(MixColumn, Plus, s, k);
    }
  }

  lemma AddRoundKeyCancels()
    ensures AddCancels(Inverse()) && AddCancels(Forward())
  {
    forall s: State, k: State
      ensures (AddRoundKey)((AddRoundKey)(s, k), k) == s
    {
      PlusLaw();
      ZipCancels(Plus, s, k);
    }
  }

  lemma LayersUndone()
    ensures Undoes(Inverse(), Forward()) && Undoes(Forward(), Inverse())
  {
    SubShiftUndone();
    MixColumnsUndone();
    MixColumnsDistribute();
    AddRoundKeyCancels();
  }

  // The equivalent inverse cipher (FIPS 197 section 5.3.5) and the cipher undo each other in both orders,
  // for every number of rounds, key schedule and block.

  lemma DecryptionUndoesEncryption(w: seq<State>, dw: seq<State>, input: State)
    requires IsDecryptionSchedule(Inverse(), w, dw)
    ensures Cipher(Inverse(), dw, Cipher(Forward(), w, input)) == input
  {
    LayersUndone();
    EquivalentInverseUndoesCipher(Inverse(), Forward(), w, dw, input);
  }

  lemma EncryptionUndoesDecryption(w: seq<State>, dw: seq<State>, input: State)
    requires IsDecryptionSchedule(Inverse(), w, dw)
    ensures Cipher(Forward(), w, Cipher(Inverse(), dw, input)) == input
  {
    LayersUndone();
    ScheduleBack(Inverse(), Forward(), w, dw);
    EquivalentInverseUndoesCipher(Forward(), Inverse(), dw, w, input);
  }

  // It is InvCipher of section 5.3 under the round keys of encryption.
  lemma DecryptionIsInvCipher(w: seq<State>, dw: seq<State>, input: State)
    requires IsDecryptionSchedule(Inverse(), w, dw)
    ensures Cipher(Inverse(), dw, input) == InvCipher(Inverse(), w, input)
  {
    LayersUndone();
    EquivalentInverseIsInverse(Inverse(), w, dw, input);
  }
}
