/**
  The modes with AES as their block cipher and with 32-bit words as their fast path: what the
  generic modules ask of a cipher, an XOR and a word path holds here.
*/
module AesModes {
  import opened GaloisField
  import opened AesWords
  import opened AesCrypt
  import opened KeySchedule
  import opened Aes
  import opened KeyExpansion
  import Sequences
  import opened Blocks
  import opened BufferXor
  import opened BlockChaining
  import StreamMachine
  import StreamModes
  import CiphertextStealing
  import CtrMachine

  // *(uint32_t*)a ^ *(uint32_t*)b, on the bytes of the words
  function XorWords(a: Four<bv8>, b: Four<bv8>): Four<bv8> {
    var x := ToColumn(Xor(FromColumn(Column(a.b0, a.b1, a.b2, a.b3)), FromColumn(Column(b.b0, b.b1, b.b2, b.b3))));
    Four(x.b0, x.b1, x.b2, x.b3)
  }

  lemma XorWordsBytewise(a: Four<bv8>, b: Four<bv8>)
    ensures XorWords(a, b) == a.Zip(Add, b)
  {
    var c, d := Column(a.b0, a.b1, a.b2, a.b3), Column(b.b0, b.b1, b.b2, b.b3);
    XorOfColumns(c, d);
    FromColumnInverse(c.Plus(d));
    assert c.Plus(d) == Column(Add(c.b0, d.b0), Add(c.b1, d.b1), Add(c.b2, d.b2), Add(c.b3, d.b3));
  }

  lemma BytesAreAnXor()
    ensures IsXor(Add) && WordwiseXor(Add, XorWords)
  {
    forall x: bv8, y: bv8
      ensures Add(x, Add(x, y)) == y && Add(Add(x, y), x) == y && Add(Add(x, y), y) == x
    {
      AddTwice(x, y);
      AddTwice(y, x);
    }
    forall a, b
      ensures XorWords(a, b) == a.Zip(Add, b)
    {
      XorWordsBytewise(a, b);
    }
  }

  // The 32-bit assignments of the three stream modes agree with their byte assignments.
  lemma WordPaths()
    ensures StreamModes.Bytewise(StreamMachine.CfbEncrypt(Add), StreamModes.WordOps(XorWords, XorWords))
    ensures StreamModes.Bytewise(StreamMachine.CfbDecrypt(Add), StreamModes.WordOps((k, x) => XorWords(x, k), (k, x) => x))
    ensures StreamModes.Bytewise(StreamMachine.Ofb(Add), StreamModes.WordOps(XorWords, (k, x) => k))
  {
    forall k, x
      ensures XorWords(k, x) == k.Zip(Add, x)
    {
      XorWordsBytewise(k, x);
    }
  }

  // The block functions of the two contexts of one key

  function Enciphering(ks: seq<Word>, nr: nat): (e: seq<bv8> -> seq<bv8>)
    requires |ks| >= 4 * nr + 4 && nr >= 1
    ensures OnBlocks(e)
  {
    hide EncryptBlock;
    b => if |b| == 16 then EncryptBlock(ks, nr, b) else b
  }

  function Deciphering(ks: seq<Word>, nr: nat, rev: bool): (d: seq<bv8> -> seq<bv8>)
    requires |ks| >= 4 * nr + 4 && nr >= 1
    ensures OnBlocks(d)
  {
    hide DecryptBlock;
    b => if |b| == 16 then DecryptBlock(ks, nr, rev, b) else b
  }

  // A block function that is AES under the key, or its inverse: Cipher and InvCipher of FIPS 197 on every
  // block

  ghost predicate EncryptsUnder(key: seq<bv8>, nk: nat, e: seq<bv8> -> seq<bv8>)
    requires KeyWordCount(nk) && |key| >= 4 * nk
  {
    OnBlocks(e) && forall b: Block {:trigger e(b)} :: e(b) == AesBlock(key, nk, b)
  }

  ghost predicate DecryptsUnder(key: seq<bv8>, nk: nat, d: seq<bv8> -> seq<bv8>)
    requires KeyWordCount(nk) && |key| >= 4 * nk
  {
    OnBlocks(d) && forall b: Block {:trigger d(b)} :: d(b) == InvAesBlock(key, nk, b)
  }

  // The contexts are that.
  lemma ContextsAreAes(key: seq<bv8>, nk: nat, rev: bool, ek: seq<Word>, dk: seq<Word>)
    requires KeyWordCount(nk) && |key| >= 4 * nk
    ensures EncryptionSchedule(key, nk, ek) ==> EncryptsUnder(key, nk, Enciphering(ek, RoundsFor(nk)))
    ensures DecryptionSchedule(key, nk, rev, dk) ==> DecryptsUnder(key, nk, Deciphering(dk, RoundsFor(nk), rev))
  {
    ScheduleLength(key, nk, rev, ek, dk);
    hide EncryptBlock, DecryptBlock, AesBlock, InvAesBlock, EncryptionSchedule, DecryptionSchedule;
    forall b: Block
      ensures EncryptionSchedule(key, nk, ek) ==> EncryptBlock(ek, RoundsFor(nk), b) == AesBlock(key, nk, b)
      ensures DecryptionSchedule(key, nk, rev, dk) ==> DecryptBlock(dk, RoundsFor(nk), rev, b) == InvAesBlock(key, nk, b)
    {
      BlocksAreAes(key, nk, rev, ek, dk, b);
    }
  }

  // So with the states of the standard
  lemma ContextStates(key: seq<bv8>, nk: nat, rev: bool, ek: seq<Word>, dk: seq<Word>, b: Block)
    requires KeyWordCount(nk) && |key| >= 4 * nk
    requires EncryptionSchedule(key, nk, ek) && DecryptionSchedule(key, nk, rev, dk)
    ensures var x, y := Enciphering(ek, RoundsFor(nk))(b), Deciphering(dk, RoundsFor(nk), rev)(b);
            && |x| == |y| == 16
            && StateOf(x) == CipherUnder(key, nk, StateOf(b)) && StateOf(y) == InvCipherUnder(key, nk, StateOf(b))
  {
    ContextsAreAes(key, nk, rev, ek, dk);
    AesBlockStates(key, nk, b);
    hide *;
  }

  // The two contexts of a key undo each other.
  lemma CipherUndone(key: seq<bv8>, nk: nat, rev: bool, ek: seq<Word>, dk: seq<Word>)
    requires KeyWordCount(nk) && |key| >= 4 * nk
    requires EncryptionSchedule(key, nk, ek) && DecryptionSchedule(key, nk, rev, dk)
    ensures var e, d := Enciphering(ek, RoundsFor(nk)), Deciphering(dk, RoundsFor(nk), rev);
            Undoes(d, e) && Undoes(e, d)
  {
    hide EncryptBlock, DecryptBlock;
    forall b: seq<bv8> | |b| == 16
      ensures DecryptBlock(dk, RoundsFor(nk), rev, EncryptBlock(ek, RoundsFor(nk), b)) == b
      ensures EncryptBlock(ek, RoundsFor(nk), DecryptBlock(dk, RoundsFor(nk), rev, b)) == b
    {
      DecryptUndoesEncrypt(key, nk, rev, ek, dk, b);
      EncryptUndoesDecrypt(key, nk, rev, ek, dk, b);
    }
  }

  // aes_cbc_decrypt after aes_cbc_encrypt, with the contexts that the key functions set up
  lemma CbcWithAes(key: seq<bv8>, nk: nat, rev: bool, ek: seq<Word>, dk: seq<Word>, iv: Block, m: seq<bv8>)
    requires KeyWordCount(nk) && |key| >= 4 * nk && |m| % 16 == 0
    requires EncryptionSchedule(key, nk, ek) && DecryptionSchedule(key, nk, rev, dk)
    ensures var e, d := Enciphering(ek, RoundsFor(nk)), Deciphering(dk, RoundsFor(nk), rev);
            && CbcDecrypt(Add, d, iv, CbcEncrypt(Add, e, iv, m)) == m
            && Ecb(d, Ecb(e, m)) == m
  {
    var e, d := Enciphering(ek, RoundsFor(nk)), Deciphering(dk, RoundsFor(nk), rev);
    CipherUndone(key, nk, rev, ek, dk);
    BytesAreAnXor();
    hide *;
    CbcRoundTrip(Add, d, e, iv, m);
    EcbRoundTrip(d, e, m);
  }

  // decfile after encfile
  lemma FileWithAes(key: seq<bv8>, nk: nat, rev: bool, ek: seq<Word>, dk: seq<Word>, iv: Block, file: seq<bv8>)
    requires KeyWordCount(nk) && |key| >= 4 * nk
    requires EncryptionSchedule(key, nk, ek) && DecryptionSchedule(key, nk, rev, dk)
    ensures var e, d := Enciphering(ek, RoundsFor(nk)), Deciphering(dk, RoundsFor(nk), rev);
            && CiphertextStealing.Decrypted(Add, d, CiphertextStealing.Encrypted(Add, e, iv, file)) == file
  {
    var e, d := Enciphering(ek, RoundsFor(nk)), Deciphering(dk, RoundsFor(nk), rev);
    CipherUndone(key, nk, rev, ek, dk);
    BytesAreAnXor();
    hide *;
    CiphertextStealing.RoundTrip(Add, d, e, iv, file);
  }

  // encfile after decfile: a file of at least a block, whether or not it was made by encfile
  lemma FileBackWithAes(key: seq<bv8>, nk: nat, rev: bool, ek: seq<Word>, dk: seq<Word>, f: seq<bv8>)
    requires KeyWordCount(nk) && |key| >= 4 * nk && |f| >= 16
    requires EncryptionSchedule(key, nk, ek) && DecryptionSchedule(key, nk, rev, dk)
    ensures var e, d := Enciphering(ek, RoundsFor(nk)), Deciphering(dk, RoundsFor(nk), rev);
            CiphertextStealing.Encrypted(Add, e, CiphertextStealing.IvOf(d, f), CiphertextStealing.Decrypted(Add, d, f)) == f
  {
    var e, d := Enciphering(ek, RoundsFor(nk)), Deciphering(dk, RoundsFor(nk), rev);
    CipherUndone(key, nk, rev, ek, dk);
    BytesAreAnXor();
    hide *;
    CiphertextStealing.FileBack(Add, d, e, f);
  }

  // The stream modes use encryption alone, so they need no decryption schedule.

  // aes_cfb_decrypt after aes_cfb_encrypt, from the same IV and position, each in any calls
  lemma CfbWithAes(ks: seq<Word>, nr: nat, s: StreamMachine.Stream<bv8>, plain: seq<seq<bv8>>, cipher: seq<seq<bv8>>)
    requires |ks| >= 4 * nr + 4 && nr >= 1 && s.Valid()
    requires Flatten(cipher) == StreamMachine.Calls(StreamMachine.CfbEncrypt(Add), Enciphering(ks, nr), s, plain)
    ensures StreamMachine.Calls(StreamMachine.CfbDecrypt(Add), Enciphering(ks, nr), s, cipher) == Flatten(plain)
  {
    BytesAreAnXor();
    hide *;
    StreamMachine.CfbRoundTrip(Add, Enciphering(ks, nr), s, plain, cipher);
  }

  // aes_ofb_crypt twice
  lemma OfbWithAes(ks: seq<Word>, nr: nat, s: StreamMachine.Stream<bv8>, plain: seq<seq<bv8>>, cipher: seq<seq<bv8>>)
    requires |ks| >= 4 * nr + 4 && nr >= 1 && s.Valid()
    requires Flatten(cipher) == StreamMachine.Calls(StreamMachine.Ofb(Add), Enciphering(ks, nr), s, plain)
    ensures StreamMachine.Calls(StreamMachine.Ofb(Add), Enciphering(ks, nr), s, cipher) == Flatten(plain)
  {
    BytesAreAnXor();
    hide *;
    StreamMachine.OfbRoundTrip(Add, Enciphering(ks, nr), s, plain, cipher);
  }

  // aes_ctr_crypt twice from the same state, for any increment of the counter
  lemma CtrWithAes(ks: seq<Word>, nr: nat, inc: seq<bv8> -> seq<bv8>, s: CtrMachine.Counter<bv8>, plain: seq<seq<bv8>>, cipher: seq<seq<bv8>>)
    requires |ks| >= 4 * nr + 4 && nr >= 1 && s.Valid() && OnBlocks(inc)
    requires Flatten(cipher) == CtrMachine.Calls(Add, Enciphering(ks, nr), inc, s, plain)
    ensures CtrMachine.Calls(Add, Enciphering(ks, nr), inc, s, cipher) == Flatten(plain)
  {
    BytesAreAnXor();
    assert CtrMachine.SamePlace(Enciphering(ks, nr), inc, s, s);
    hide *;
    CtrMachine.RoundTrip(Add, Enciphering(ks, nr), inc, s, s, plain, cipher);
  }

  // The modes in terms of AES under the key, for the block or the part of a block at place n

  lemma EcbIsAes(key: seq<bv8>, nk: nat, e: seq<bv8> -> seq<bv8>, d: seq<bv8> -> seq<bv8>, m: seq<bv8>, n: nat)
    requires KeyWordCount(nk) && |key| >= 4 * nk && EncryptsUnder(key, nk, e) && DecryptsUnder(key, nk, d)
    requires |m| % 16 == 0 && n % 16 == 0 && n + 16 <= |m|
    ensures Ecb(e, m)[n..n + 16] == AesBlock(key, nk, BlockFrom(m, n))
    ensures Ecb(d, m)[n..n + 16] == InvAesBlock(key, nk, BlockFrom(m, n))
  {
    var x := BlockFrom(m, n);
    hide Ecb, AesBlock, InvAesBlock, StateOf;
    assert e(x) == AesBlock(key, nk, x) && d(x) == InvAesBlock(key, nk, x);
    EcbBlock(e, m, n);
    EcbBlock(d, m, n);
  }

  lemma CbcIsAes(key: seq<bv8>, nk: nat, e: seq<bv8> -> seq<bv8>, iv: Block, m: seq<bv8>, n: nat)
    requires KeyWordCount(nk) && |key| >= 4 * nk && EncryptsUnder(key, nk, e)
    requires |m| % 16 == 0 && n % 16 == 0 && n + 16 <= |m|
    ensures var c := CbcEncrypt(Add, e, iv, m);
            c[n..n + 16] == AesBlock(key, nk, Zip(Add, Before(iv, c, n), m[n..n + 16]))
  {
    hide CbcEncrypt, AesBlock;
    CbcEncryptBlock(Add, e, iv, m, n);
  }

  lemma CbcDecryptionIsAes(key: seq<bv8>, nk: nat, d: seq<bv8> -> seq<bv8>, iv: Block, c: seq<bv8>, n: nat)
    requires KeyWordCount(nk) && |key| >= 4 * nk && DecryptsUnder(key, nk, d)
    requires |c| % 16 == 0 && n % 16 == 0 && n + 16 <= |c|
    ensures CbcDecrypt(Add, d, iv, c)[n..n + 16] == Zip(Add, InvAesBlock(key, nk, BlockFrom(c, n)), Before(iv, c, n))
  {
    var x := BlockFrom(c, n);
    hide CbcDecrypt, InvAesBlock, StateOf;
    assert d(x) == InvAesBlock(key, nk, x);
    CbcDecryptBlock(Add, d, iv, c, n);
  }

  // CFB from position 0, in any calls, in both directions
  lemma CfbIsAes(key: seq<bv8>, nk: nat, e: seq<bv8> -> seq<bv8>, iv: Block, calls: seq<seq<bv8>>, n: nat, l: nat)
    requires KeyWordCount(nk) && |key| >= 4 * nk && EncryptsUnder(key, nk, e)
    requires n % 16 == 0 && n + l <= |Flatten(calls)| && l <= 16
    ensures var x, s := Flatten(calls), StreamMachine.Stream(iv, 0);
            var c := StreamMachine.Calls(StreamMachine.CfbEncrypt(Add), e, s, calls);
            var m := StreamMachine.Calls(StreamMachine.CfbDecrypt(Add), e, s, calls);
            && |c| == |m| == |x|
            && c[n..n + l] == Zip(Add, AesBlock(key, nk, Before(iv, c, n))[..l], x[n..n + l])
            && m[n..n + l] == Zip(Add, x[n..n + l], AesBlock(key, nk, Before(iv, x, n))[..l])
  {
    hide AesBlock, StreamMachine.Calls, StreamMachine.Output, Flatten;
    StreamMachine.CallsAreOneCall(StreamMachine.CfbEncrypt(Add), e, StreamMachine.Stream(iv, 0), calls);
    StreamMachine.CallsAreOneCall(StreamMachine.CfbDecrypt(Add), e, StreamMachine.Stream(iv, 0), calls);
    StreamMachine.CfbPart(Add, e, iv, Flatten(calls), n, l);
  }

  // OFB: the IV is encrypted once more for every block.
  lemma OfbIsAes(key: seq<bv8>, nk: nat, e: seq<bv8> -> seq<bv8>, iv: Block, calls: seq<seq<bv8>>, i: nat, l: nat)
    requires KeyWordCount(nk) && |key| >= 4 * nk && EncryptsUnder(key, nk, e)
    requires 16 * i + l <= |Flatten(calls)| && l <= 16
    ensures var x, n := Flatten(calls), 16 * i;
            var c := StreamMachine.Calls(StreamMachine.Ofb(Add), e, StreamMachine.Stream(iv, 0), calls);
            |c| == |x| && c[n..n + l] == Zip(Add, AesTimes(key, nk, i + 1, iv)[..l], x[n..n + l])
  {
    hide AesBlock, StreamMachine.Calls, StreamMachine.Output, Flatten;
    StreamMachine.CallsAreOneCall(StreamMachine.Ofb(Add), e, StreamMachine.Stream(iv, 0), calls);
    IteratedIsAes(key, nk, e, i + 1, iv);
    StreamMachine.OfbPart(Add, e, iv, Flatten(calls), i, l);
  }

  function AesTimes(key: seq<bv8>, nk: nat, n: nat, b: Block): Block
    requires KeyWordCount(nk) && |key| >= 4 * nk
  {
    if n == 0 then b else AesBlock(key, nk, AesTimes(key, nk, n - 1, b))
  }

  lemma {:induction false} IteratedIsAes(key: seq<bv8>, nk: nat, e: seq<bv8> -> seq<bv8>, n: nat, b: Block)
    requires KeyWordCount(nk) && |key| >= 4 * nk && EncryptsUnder(key, nk, e)
    ensures Iterate(e, n, b) == AesTimes(key, nk, n, b)
  {
    hide AesBlock;
    if n > 0 {
      IteratedIsAes(key, nk, e, n - 1, b);
    }
  }

  // CTR from position 0, in any calls: byte j
  lemma CtrIsAes(key: seq<bv8>, nk: nat, e: seq<bv8> -> seq<bv8>, inc: seq<bv8> -> seq<bv8>, ctr: Block, calls: seq<seq<bv8>>, j: nat)
    requires KeyWordCount(nk) && |key| >= 4 * nk && EncryptsUnder(key, nk, e)
    requires OnBlocks(inc) && j < |Flatten(calls)|
    ensures var c := CtrMachine.Calls(Add, e, inc, CtrMachine.Counter(ctr, 0), calls);
            && |c| == |Flatten(calls)| && |Iterate(inc, j / 16, ctr)| == 16
            && c[j] == Add(Flatten(calls)[j], AesBlock(key, nk, Iterate(inc, j / 16, ctr))[j % 16])
  {
    hide AesBlock, CtrMachine.Calls, Flatten;
    CtrMachine.EveryByte(Add, e, inc, ctr, calls, j);
  }

  // A file of less than a block
  lemma ShortFileIsAes(key: seq<bv8>, nk: nat, e: seq<bv8> -> seq<bv8>, iv: Block, m: seq<bv8>)
    requires KeyWordCount(nk) && |key| >= 4 * nk && EncryptsUnder(key, nk, e) && |m| < 16
    ensures CiphertextStealing.Encrypted(Add, e, iv, m) == iv[..|m|] + AesBlock(key, nk, ShortBlock(iv, m))
  {
    var x := ShortBlock(iv, m);
    hide AesBlock, StateOf, CiphertextStealing.Encrypted;
    assert e(x) == AesBlock(key, nk, x);
    CiphertextStealing.ShortFileIs(Add, e, iv, m);
    Sequences.CutLast(CiphertextStealing.Encrypted(Add, e, iv, m), |m|);
  }

  // The rest of the IV, and the message XORed with its beginning
  function ShortBlock(iv: Block, m: seq<bv8>): Block
    requires |m| < 16
  {
    iv[|m|..] + Zip(Add, m, iv[..|m|])
  }

  // A longer one is made of the blocks of CBC.
  lemma LongFileIsAes(e: seq<bv8> -> seq<bv8>, iv: Block, m: seq<bv8>, zeros: seq<bv8>)
    requires OnBlocks(e) && |m| >= 16 && |zeros| < 16 && (|m| + |zeros|) % 16 == 0 && forall i :: 0 <= i < |zeros| ==> zeros[i] == 0
    ensures var f, c := CiphertextStealing.Encrypted(Add, e, iv, m), CbcEncrypt(Add, e, iv, m + zeros);
            if zeros == [] then f == iv + c
            else var k := |c| - 32; f == iv + c[..k] + c[k + 16..] + c[k..k + 16][..16 - |zeros|]
  {
    BytesAreAnXor();
    forall i, x | 0 <= i < |zeros|
      ensures Add(x, zeros[i]) == x
    {
      AddZero(x);
    }
    hide CiphertextStealing.Encrypted, CbcEncrypt, IsXor;
    CiphertextStealing.LongFileIs(Add, e, iv, m, zeros);
  }
}
