/**
  The four-table rounds of aescrypt.c on four words, one a column, and their proof against the
  transformations of FIPS 197: each table round is a whole round of the standard, so the word
  cipher is the standard's cipher, in both directions.
*/
module AesRounds {
  import opened GaloisField
  import opened SubstitutionBox
  import opened AesWords
  import opened KeyAlternating
  import opened Fips197

  datatype Quad = Quad(w0: Word, w1: Word, w2: Word, w3: Word)

  function ToState(q: Quad): State {
    State(ToColumn(q.w0), ToColumn(q.w1), ToColumn(q.w2), ToColumn(q.w3))
  }

  // state_in: the block against the first round key.
  function XorQuad(x: Quad, k: Quad): Quad {
    Quad(Xor(x.w0, k.w0), Xor(x.w1, k.w1), Xor(x.w2, k.w2), Xor(x.w3, k.w3))
  }

  // four_tables(x, tab, var, rf1, c): byte r is taken from the r-th of the words that var selects.
  function FwdTables(box: bv8 -> bv8, a: Word, b: Word, c: Word, d: Word): Word {
    UTables(box(Bval(a, 0)), box(Bval(b, 1)), box(Bval(c, 2)), box(Bval(d, 3)))
  }

  function InvTables(box: bv8 -> bv8, a: Word, b: Word, c: Word, d: Word): Word {
    VTables(box(Bval(a, 0)), box(Bval(b, 1)), box(Bval(c, 2)), box(Bval(d, 3)))
  }

  function LastTables(box: bv8 -> bv8, a: Word, b: Word, c: Word, d: Word): Word {
    WTables(box(Bval(a, 0)), box(Bval(b, 1)), box(Bval(c, 2)), box(Bval(d, 3)))
  }

  // fwd_rnd and fwd_lrnd: fwd_var selects column c + r.
  function FwdRnd(box: bv8 -> bv8, x: Quad, k: Quad): Quad {
    Quad(Xor(k.w0, FwdTables(box, x.w0, x.w1, x.w2, x.w3)),
         Xor(k.w1, FwdTables(box, x.w1, x.w2, x.w3, x.w0)),
         Xor(k.w2, FwdTables(box, x.w2, x.w3, x.w0, x.w1)),
         Xor(k.w3, FwdTables(box, x.w3, x.w0, x.w1, x.w2)))
  }

  function FwdLastRnd(box: bv8 -> bv8, x: Quad, k: Quad): Quad {
    Quad(Xor(k.w0, LastTables(box, x.w0, x.w1, x.w2, x.w3)),
         Xor(k.w1, LastTables(box, x.w1, x.w2, x.w3, x.w0)),
         Xor(k.w2, LastTables(box, x.w2, x.w3, x.w0, x.w1)),
         Xor(k.w3, LastTables(box, x.w3, x.w0, x.w1, x.w2)))
  }

  // inv_rnd and inv_lrnd: inv_var selects column c - r.
  function InvRnd(box: bv8 -> bv8, x: Quad, k: Quad): Quad {
    Quad(Xor(k.w0, InvTables(box, x.w0, x.w3, x.w2, x.w1)),
         Xor(k.w1, InvTables(box, x.w1, x.w0, x.w3, x.w2)),
         Xor(k.w2, InvTables(box, x.w2, x.w1, x.w0, x.w3)),
         Xor(k.w3, InvTables(box, x.w3, x.w2, x.w1, x.w0)))
  }

  function InvLastRnd(box: bv8 -> bv8, x: Quad, k: Quad): Quad {
    Quad(Xor(k.w0, LastTables(box, x.w0, x.w3, x.w2, x.w1)),
         Xor(k.w1, LastTables(box, x.w1, x.w0, x.w3, x.w2)),
         Xor(k.w2, LastTables(box, x.w2, x.w1, x.w0, x.w3)),
         Xor(k.w3, LastTables(box, x.w3, x.w2, x.w1, x.w0)))
  }

  // The macros with their tables: sb_data for encryption, isb_data for decryption.

  function EncRnd(x: Quad, k: Quad): Quad { FwdRnd(SBox, x, k) }
  function EncLastRnd(x: Quad, k: Quad): Quad { FwdLastRnd(SBox, x, k) }
  function DecRnd(x: Quad, k: Quad): Quad { InvRnd(InvSBox, x, k) }
  function DecLastRnd(x: Quad, k: Quad): Quad { InvLastRnd(InvSBox, x, k) }

  function Encryptor(): Fused<Quad> {
    Fused(XorQuad, EncRnd, EncLastRnd)
  }

  function Decryptor(): Fused<Quad> {
    Fused(XorQuad, DecRnd, DecLastRnd)
  }

  // One column of a round: k ^ four_tables(...)

  lemma PlusComm(c: Column, d: Column)
    ensures c.Plus(d) == d.Plus(c)
  {
    AddComm(c.b0, d.b0);
    AddComm(c.b1, d.b1);
    AddComm(c.b2, d.b2);
    AddComm(c.b3, d.b3);
  }

  lemma XorFromColumn(k: Word, c: Column)
    ensures ToColumn(Xor(k, FromColumn(c))) == c.Plus(ToColumn(k))
  {
    XorColumn(k, FromColumn(c));
    FromColumnInverse(c);
    PlusComm(c, ToColumn(k));
  }

  lemma FwdRndColumn(k: Word, p0: bv8, p1: bv8, p2: bv8, p3: bv8)
    ensures ToColumn(Xor(k, UTables(p0, p1, p2, p3))) == MixColumn(Column(p0, p1, p2, p3)).Plus(ToColumn(k))
  {
    UTablesMixColumn(p0, p1, p2, p3);
    XorFromColumn(k, MixColumn(Column(p0, p1, p2, p3)));
  }

  lemma InvRndColumn(k: Word, p0: bv8, p1: bv8, p2: bv8, p3: bv8)
    ensures ToColumn(Xor(k, VTables(p0, p1, p2, p3))) == InvMixColumn(Column(p0, p1, p2, p3)).Plus(ToColumn(k))
  {
    VTablesInvMixColumn(p0, p1, p2, p3);
    XorFromColumn(k, InvMixColumn(Column(p0, p1, p2, p3)));
  }

  lemma LastRndColumn(k: Word, p0: bv8, p1: bv8, p2: bv8, p3: bv8)
    ensures ToColumn(Xor(k, WTables(p0, p1, p2, p3))) == Column(p0, p1, p2, p3).Plus(ToColumn(k))
  {
    WTablesColumn(p0, p1, p2, p3);
    XorFromColumn(k, Column(p0, p1, p2, p3));
  }

  // Each table round is a round of the standard, for every substitution box

  lemma FwdRndView(box: bv8 -> bv8, x: Quad, k: Quad)
    ensures ToState(FwdRnd(box, x, k)) == ShiftRows(ToState(x).Map(box)).Each(MixColumn).Zip(Plus, ToState(k))
  {
    FwdRndColumn(k.w0, box(Bval(x.w0, 0)), box(Bval(x.w1, 1)), box(Bval(x.w2, 2)), box(Bval(x.w3, 3)));
    FwdRndColumn(k.w1, box(Bval(x.w1, 0)), box(Bval(x.w2, 1)), box(Bval(x.w3, 2)), box(Bval(x.w0, 3)));
    FwdRndColumn(k.w2, box(Bval(x.w2, 0)), box(Bval(x.w3, 1)), box(Bval(x.w0, 2)), box(Bval(x.w1, 3)));
    FwdRndColumn(k.w3, box(Bval(x.w3, 0)), box(Bval(x.w0, 1)), box(Bval(x.w1, 2)), box(Bval(x.w2, 3)));
  }

  lemma FwdLastRndView(box: bv8 -> bv8, x: Quad, k: Quad)
    ensures ToState(FwdLastRnd(box, x, k)) == ShiftRows(ToState(x).Map(box)).Zip(Plus, ToState(k))
  {
    LastRndColumn(k.w0, box(Bval(x.w0, 0)), box(Bval(x.w1, 1)), box(Bval(x.w2, 2)), box(Bval(x.w3, 3)));
    LastRndColumn(k.w1, box(Bval(x.w1, 0)), box(Bval(x.w2, 1)), box(Bval(x.w3, 2)), box(Bval(x.w0, 3)));
    LastRndColumn(k.w2, box(Bval(x.w2, 0)), box(Bval(x.w3, 1)), box(Bval(x.w0, 2)), box(Bval(x.w1, 3)));
    LastRndColumn(k.w3, box(Bval(x.w3, 0)), box(Bval(x.w0, 1)), box(Bval(x.w1, 2)), box(Bval(x.w2, 3)));
  }

  lemma InvRndView(box: bv8 -> bv8, x: Quad, k: Quad)
    ensures ToState(InvRnd(box, x, k)) == InvShiftRows(ToState(x).Map(box)).Each(InvMixColumn).Zip(Plus, ToState(k))
  {
    InvRndColumn(k.w0, box(Bval(x.w0, 0)), box(Bval(x.w3, 1)), box(Bval(x.w2, 2)), box(Bval(x.w1, 3)));
    InvRndColumn(k.w1, box(Bval(x.w1, 0)), box(Bval(x.w0, 1)), box(Bval(x.w3, 2)), box(Bval(x.w2, 3)));
    InvRndColumn(k.w2, box(Bval(x.w2, 0)), box(Bval(x.w1, 1)), box(Bval(x.w0, 2)), box(Bval(x.w3, 3)));
    InvRndColumn(k.w3, box(Bval(x.w3, 0)), box(Bval(x.w2, 1)), box(Bval(x.w1, 2)), box(Bval(x.w0, 3)));
  }

  lemma InvLastRndView(box: bv8 -> bv8, x: Quad, k: Quad)
    ensures ToState(InvLastRnd(box, x, k)) == InvShiftRows(ToState(x).Map(box)).Zip(Plus, ToState(k))
  {
    LastRndColumn(k.w0, box(Bval(x.w0, 0)), box(Bval(x.w3, 1)), box(Bval(x.w2, 2)), box(Bval(x.w1, 3)));
    LastRndColumn(k.w1, box(Bval(x.w1, 0)), box(Bval(x.w0, 1)), box(Bval(x.w3, 2)), box(Bval(x.w2, 3)));
    LastRndColumn(k.w2, box(Bval(x.w2, 0)), box(Bval(x.w1, 1)), box(Bval(x.w0, 2)), box(Bval(x.w3, 3)));
    LastRndColumn(k.w3, box(Bval(x.w3, 0)), box(Bval(x.w2, 1)), box(Bval(x.w1, 2)), box(Bval(x.w0, 3)));
  }

  lemma XorQuadView(x: Quad, k: Quad)
    ensures ToState(XorQuad(x, k)) == ToState(x).Zip(Plus, ToState(k))
  {
    XorColumn(x.w0, k.w0);
    XorColumn(x.w1, k.w1);
    XorColumn(x.w2, k.w2);
    XorColumn(x.w3, k.w3);
  }

  lemma EncryptorImplementsForward()
    ensures Implements(Encryptor(), Forward(), ToState)
  {
    forall x: Quad, k: Quad
      ensures (ToState)((XorQuad)(x, k)) == (AddRoundKey)((ToState)(x), (ToState)(k))
    {
      XorQuadView(x, k);
    }
    forall x: Quad, k: Quad
      ensures (ToState)((EncRnd)(x, k)) == (AddRoundKey)((MixColumns)((SubShift)((ToState)(x))), (ToState)(k))
    {
      FwdRndView(SBox, x, k);
    }
    forall x: Quad, k: Quad
      ensures (ToState)((EncLastRnd)(x, k)) == (AddRoundKey)((SubShift)((ToState)(x)), (ToState)(k))
    {
      FwdLastRndView(SBox, x, k);
    }
  }

  lemma DecryptorImplementsInverse()
    ensures Implements(Decryptor(), Inverse(), ToState)
  {
    forall x: Quad, k: Quad
      ensures (ToState)((XorQuad)(x, k)) == (AddRoundKey)((ToState)(x), (ToState)(k))
    {
      XorQuadView(x, k);
    }
    forall x: Quad, k: Quad
      ensures (ToState)((DecRnd)(x, k)) == (AddRoundKey)((InvMixColumns)((InvSubShift)((ToState)(x))), (ToState)(k))
    {
      InvRndView(InvSBox, x, k);
    }
    forall x: Quad, k: Quad
      ensures (ToState)((DecLastRnd)(x, k)) == (AddRoundKey)((InvSubShift)((ToState)(x)), (ToState)(k))
    {
      InvLastRndView(InvSBox, x, k);
    }
  }
}
