/**
  aescrypt.c: aes_encrypt and aes_decrypt on one block, with the rounds fully unrolled and entered
  by fall-through according to the key size.
*/
module AesCrypt {
  import opened GaloisField
  import opened SubstitutionBox
  import opened Blocks
  import opened AesWords
  import opened KeyAlternating
  import opened AesRounds

  const KS_LENGTH: nat := 60

  // aes_crypt_ctx: the round keys and the used bytes of inf.  rounds16 is inf.b[0], sixteen times
  // the number of rounds; position is inf.b[2].
  class Context {
    const ks: array<Word>
    var rounds16: nat
    var position: nat

    ghost predicate Valid()
    {
      ks.Length == KS_LENGTH
    }

    constructor ()
      ensures Valid() && fresh(ks)
    {
      ks := new Word[KS_LENGTH];
      rounds16, position := 0, 0;
    }

    predicate Keyed()
      reads this
    {
      rounds16 == 160 || rounds16 == 192 || rounds16 == 224
    }
  }

  // Blocks and words

  function WordIn(b: seq<bv8>, c: nat): Word
    requires 4 * c + 4 <= |b|
  {
    Bytes2Word(b[4 * c] as Word, b[4 * c + 1] as Word, b[4 * c + 2] as Word, b[4 * c + 3] as Word)
  }

  function WordOut(x: Word): seq<bv8> {
    [Bval(x, 0), Bval(x, 1), Bval(x, 2), Bval(x, 3)]
  }

  function BlockIn(b: Block): Quad {
    Quad(WordIn(b, 0), WordIn(b, 1), WordIn(b, 2), WordIn(b, 3))
  }

  function BlockOut(q: Quad): Block {
    WordOut(q.w0) + WordOut(q.w1) + WordOut(q.w2) + WordOut(q.w3)
  }

  lemma WordInOut(x: Word)
    ensures WordIn(WordOut(x), 0) == x
  {
    ToColumnInverse(x);
  }

  lemma BytesOfWord(a: bv8, b: bv8, c: bv8, d: bv8)
    ensures WordOut(Bytes2Word(a as Word, b as Word, c as Word, d as Word)) == [a, b, c, d]
  {
    FromColumnInverse(Column(a, b, c, d));
  }

  lemma WordOutIn(b: seq<bv8>, c: nat)
    requires 4 * c + 4 <= |b|
    ensures WordOut(WordIn(b, c)) == b[4 * c..4 * c + 4]
  {
    BytesOfWord(b[4 * c], b[4 * c + 1], b[4 * c + 2], b[4 * c + 3]);
  }

  lemma WordInSlice(b: seq<bv8>, c: nat)
    requires 4 * c + 4 <= |b|
    ensures WordIn(b, c) == WordIn(b[4 * c..4 * c + 4], 0)
  {
  }

  lemma BlockInOut(q: Quad)
    ensures BlockIn(BlockOut(q)) == q
  {
    var b := BlockOut(q);
    assert b[0..4] == WordOut(q.w0) && b[4..8] == WordOut(q.w1);
    assert b[8..12] == WordOut(q.w2) && b[12..16] == WordOut(q.w3);
    WordInSlice(b, 0);
    WordInSlice(b, 1);
    WordInSlice(b, 2);
    WordInSlice(b, 3);
    WordInOut(q.w0);
    WordInOut(q.w1);
    WordInOut(q.w2);
    WordInOut(q.w3);
  }

  lemma BlockOutIn(b: Block)
    ensures BlockOut(BlockIn(b)) == b
  {
    WordOutIn(b, 0);
    WordOutIn(b, 1);
    WordOutIn(b, 2);
    WordOutIn(b, 3);
    assert b == b[0..4] + b[4..8] + b[8..12] + b[12..16];
  }

  // Round keys: four words of the schedule a round.

  function KeyAt(ks: seq<Word>, k: nat): Quad
    requires k + 4 <= |ks|
  {
    Quad(ks[k], ks[k + 1], ks[k + 2], ks[k + 3])
  }

  function RoundKeys(ks: seq<Word>, nr: nat): (w: seq<Quad>)
    requires |ks| >= 4 * nr + 4
    ensures |w| == nr + 1
  {
    seq(nr + 1, r requires 0 <= r < nr + 1 => KeyAt(ks, 4 * r))
  }

  // The decryption schedule in order of use: with AES_REV_DKS it is stored that way, without it
  // the first decryption round key is at the high end.
  function UsedKeys(ks: seq<Word>, nr: nat, rev: bool): (w: seq<Quad>)
    requires |ks| >= 4 * nr + 4
    ensures |w| == nr + 1
  {
    seq(nr + 1, r requires 0 <= r < nr + 1 => KeyAt(ks, if rev then 4 * r else 4 * (nr - r)))
  }

  // What the two functions compute.

  function EncryptBlock(ks: seq<Word>, nr: nat, b: Block): Block
    requires |ks| >= 4 * nr + 4 && nr >= 1
  {
    BlockOut(FusedCipher(Encryptor(), RoundKeys(ks, nr), BlockIn(b)))
  }

  function DecryptBlock(ks: seq<Word>, nr: nat, rev: bool, b: Block): Block
    requires |ks| >= 4 * nr + 4 && nr >= 1
  {
    BlockOut(FusedCipher(Decryptor(), UsedKeys(ks, nr, rev), BlockIn(b)))
  }

  lemma TwoRounds<T(!new)>(f: Fused<T>, ks: seq<T>, input: T, r: nat)
    requires r + 2 < |ks|
    ensures f.round(f.round(FusedRounds(f, ks, input, r), ks[r + 1]), ks[r + 2]) == FusedRounds(f, ks, input, r + 2)
  {
    assert FusedRounds(f, ks, input, r + 1) == f.round(FusedRounds(f, ks, input, r), ks[r + 1]);
  }

  // The unrolled rounds of aes_encrypt.  The state variables b0 and b1 are overwritten in turn, and
  // each case of the switch on the number of rounds falls through into the next.
  method EncryptUnrolled<T(!new)>(f: Fused<T>, ks: seq<T>, input: T) returns (b0: T)
    requires |ks| == 11 || |ks| == 13 || |ks| == 15
    ensures b0 == FusedCipher(f, ks, input)
  {
    var b1;
    var kp := 0;
    b0 := f.first(input, ks[0]);
    if |ks| == 15 {
      TwoRounds(f, ks, input, kp);
      b1 := f.round(b0, ks[kp + 1]);
      b0 := f.round(b1, ks[kp + 2]);
      kp := kp + 2;
    }
    if |ks| >= 13 {
      TwoRounds(f, ks, input, kp);
      b1 := f.round(b0, ks[kp + 1]);
      b0 := f.round(b1, ks[kp + 2]);
      kp := kp + 2;
    }
    TwoRounds(f, ks, input, kp + 0);
    b1 := f.round(b0, ks[kp + 1]);
    b0 := f.round(b1, ks[kp + 2]);
    TwoRounds(f, ks, input, kp + 2);
    b1 := f.round(b0, ks[kp + 3]);
    b0 := f.round(b1, ks[kp + 4]);
    TwoRounds(f, ks, input, kp + 4);
    b1 := f.round(b0, ks[kp + 5]);
    b0 := f.round(b1, ks[kp + 6]);
    TwoRounds(f, ks, input, kp + 6);
    b1 := f.round(b0, ks[kp + 7]);
    b0 := f.round(b1, ks[kp + 8]);
    b1 := f.round(b0, ks[kp + 9]);
    b0 := f.last(b1, ks[kp + 10]);
  }

  // The unrolled rounds of aes_decrypt: the round keys are addressed from the last one backwards,
  // ks[n - 13] for rnd_key(-13) up to ks[n] for rnd_key(0).
  method DecryptUnrolled<T(!new)>(f: Fused<T>, ks: seq<T>, input: T) returns (b0: T)
    requires |ks| == 11 || |ks| == 13 || |ks| == 15
    ensures b0 == FusedCipher(f, ks, input)
  {
    var b1;
    var n := |ks| - 1;
    b0 := f.first(input, ks[0]);
    if |ks| == 15 {
      TwoRounds(f, ks, input, n - 14);
      b1 := f.round(b0, ks[n - 13]);
      b0 := f.round(b1, ks[n - 12]);
    }
    if |ks| >= 13 {
      TwoRounds(f, ks, input, n - 12);
      b1 := f.round(b0, ks[n - 11]);
      b0 := f.round(b1, ks[n - 10]);
    }
    TwoRounds(f, ks, input, n - 10);
    b1 := f.round(b0, ks[n - 9]);
    b0 := f.round(b1, ks[n - 8]);
    TwoRounds(f, ks, input, n - 8);
    b1 := f.round(b0, ks[n - 7]);
    b0 := f.round(b1, ks[n - 6]);
    TwoRounds(f, ks, input, n - 6);
    b1 := f.round(b0, ks[n - 5]);
    b0 := f.round(b1, ks[n - 4]);
    TwoRounds(f, ks, input, n - 4);
    b1 := f.round(b0, ks[n - 3]);
    b0 := f.round(b1, ks[n - 2]);
    b1 := f.round(b0, ks[n - 1]);
    b0 := f.last(b1, ks[n]);
  }

  // state_in, the rounds, state_out

  method EncryptWords(ks: seq<Word>, nr: nat, b: Block) returns (r: Block)
    requires |ks| >= 4 * nr + 4 && (nr == 10 || nr == 12 || nr == 14)
    ensures r == EncryptBlock(ks, nr, b)
  {
    var q := EncryptUnrolled(Encryptor(), RoundKeys(ks, nr), BlockIn(b));
    r := BlockOut(q);
  }

  method DecryptWords(ks: seq<Word>, nr: nat, rev: bool, b: Block) returns (r: Block)
    requires |ks| >= 4 * nr + 4 && (nr == 10 || nr == 12 || nr == 14)
    ensures r == DecryptBlock(ks, nr, rev, b)
  {
    var q := DecryptUnrolled(Decryptor(), UsedKeys(ks, nr, rev), BlockIn(b));
    r := BlockOut(q);
  }

  // aes_encrypt; input and output may be the same bytes.
  method AesEncrypt(input: array<bv8>, from: nat, output: array<bv8>, to: nat, cx: Context) returns (ok: bool)
    requires cx.Valid() && from + 16 <= input.Length && to + 16 <= output.Length
    modifies output
    ensures ok == cx.Keyed() && (ok <==> cx.rounds16 in {160, 192, 224})
    ensures !ok ==> output[..] == old(output[..])
    ensures ok ==> output[..] == Stored(old(output[..]), to, EncryptBlock(cx.ks[..], cx.rounds16 / 16, old(input[from..from + 16])))
  {
    if cx.rounds16 != 160 && cx.rounds16 != 192 && cx.rounds16 != 224 {
      return false;
    }
    assert cx.Keyed() && (cx.rounds16 / 16 == 10 || cx.rounds16 / 16 == 12 || cx.rounds16 / 16 == 14) && cx.ks.Length == 60;
    hide *;
    var block := EncryptWords(cx.ks[..], cx.rounds16 / 16, input[from..from + 16]);
    StoreBlock(output, to, block);
    return true;
  }

  // aes_decrypt, with rev for AES_REV_DKS.
  method AesDecrypt(input: array<bv8>, from: nat, output: array<bv8>, to: nat, cx: Context, rev: bool) returns (ok: bool)
    requires cx.Valid() && from + 16 <= input.Length && to + 16 <= output.Length
    modifies output
    ensures ok == cx.Keyed() && (ok <==> cx.rounds16 in {160, 192, 224})
    ensures !ok ==> output[..] == old(output[..])
    ensures ok ==> output[..] == Stored(old(output[..]), to, DecryptBlock(cx.ks[..], cx.rounds16 / 16, rev, old(input[from..from + 16])))
  {
    if cx.rounds16 != 160 && cx.rounds16 != 192 && cx.rounds16 != 224 {
      return false;
    }
    assert cx.Keyed() && (cx.rounds16 / 16 == 10 || cx.rounds16 / 16 == 12 || cx.rounds16 / 16 == 14) && cx.ks.Length == 60;
    hide *;
    var block := DecryptWords(cx.ks[..], cx.rounds16 / 16, rev, input[from..from + 16]);
    StoreBlock(output, to, block);
    return true;
  }
}
