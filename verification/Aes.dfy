/**
  AES put together: the key schedules of aeskey.c over the words of aesopt.h, and the round trip
  of aes_decrypt after aes_encrypt for every key of 16, 24 or 32 bytes and every block.
*/
module Aes {
  import opened GaloisField
  import opened SubstitutionBox
  import opened Blocks
  import opened AesWords
  import opened KeyAlternating
  import opened Fips197
  import opened AesRounds
  import opened AesCrypt
  import opened XorGroups
  import opened KeySchedule

  // The key schedule's operations on words

  // ls_box(x, 3): four_tables over w0 .. w3 of the S-box, with rf2(r, 3) = r + 1
  function LsBox3(x: Word): Word {
    WTables(SBox(Bval(x, 1)), SBox(Bval(x, 2)), SBox(Bval(x, 3)), SBox(Bval(x, 0)))
  }

  function LsBox0(x: Word): Word {
    WTables(SBox(Bval(x, 0)), SBox(Bval(x, 1)), SBox(Bval(x, 2)), SBox(Bval(x, 3)))
  }

  function RcData(i: nat): bv8
    requires i < 10
  {
    [0x01, 0x02, 0x04, 0x08, 0x10, 0x20, 0x40, 0x80, 0x1b, 0x36][i]
  }

  // t_rc; the schedules use its ten entries only.
  function Rcon(i: nat): Word {
    if i < 10 then W0(RcData(i) as Word) else 0
  }

  function AesKeying(): Keying<Word> {
    Keying(Xor, LsBox3, LsBox0, Rcon, InvMcol)
  }

  // SubWord and RotWord of FIPS 197 section 5.2.

  function RotWord(c: Column): Column {
    Column(c.b1, c.b2, c.b3, c.b0)
  }

  lemma LsBoxColumns(x: Word)
    ensures ToColumn(LsBox3(x)) == MapColumn(SBox, RotWord(ToColumn(x)))
    ensures ToColumn(LsBox0(x)) == MapColumn(SBox, ToColumn(x))
  {
    LastColumn(SBox(Bval(x, 1)), SBox(Bval(x, 2)), SBox(Bval(x, 3)), SBox(Bval(x, 0)));
    LastColumn(SBox(Bval(x, 0)), SBox(Bval(x, 1)), SBox(Bval(x, 2)), SBox(Bval(x, 3)));
  }

  lemma LastColumn(p0: bv8, p1: bv8, p2: bv8, p3: bv8)
    ensures ToColumn(WTables(p0, p1, p2, p3)) == Column(p0, p1, p2, p3)
  {
    WTablesColumn(p0, p1, p2, p3);
    FromColumnInverse(Column(p0, p1, p2, p3));
  }

  // The round constants are the powers of x.
  lemma RoundConstants(i: nat)
    requires i < 9
    ensures RcData(0) == 1 && RcData(i + 1) == Xtime(RcData(i))
  {
  }

  lemma XorAssoc(a: Word, b: Word, c: Word)
    ensures Xor(Xor(a, b), c) == Xor(a, Xor(b, c))
  {
  }

  lemma XorLaws(a: Word, b: Word)
    ensures Xor(a, b) == Xor(b, a) && Xor(Xor(a, b), b) == a
  {
  }

  lemma XorIsGroup()
    ensures XorGroup(Xor)
  {
    forall a: Word, b: Word, c: Word
      ensures (Xor)((Xor)(a, b), c) == (Xor)(a, (Xor)(b, c))
    {
      XorAssoc(a, b, c);
    }
    forall a: Word, b: Word
      ensures (Xor)(a, b) == (Xor)(b, a) && (Xor)((Xor)(a, b), b) == a
    {
      XorLaws(a, b);
    }
  }

  lemma InvMcolIsLinear()
    ensures Linear(Xor, InvMcol)
  {
    forall a: Word, b: Word
      ensures (InvMcol)((Xor)(a, b)) == (Xor)((InvMcol)(a), (InvMcol)(b))
    {
      InvMcolDistributes(a, b);
    }
  }

  lemma AesKeyingValid()
    ensures AesKeying().Valid()
  {
    XorIsGroup();
    InvMcolIsLinear();
  }

  // Keys in bytes

  predicate KeyWordCount(nk: nat) {
    nk == 4 || nk == 6 || nk == 8
  }

  // The rounds of a key of nk words.
  function RoundsFor(nk: nat): nat {
    nk + 6
  }

  // word_in(key, j), for the nk words of the key
  function KeyWords(key: seq<bv8>, nk: nat): (w: seq<Word>)
    requires KeyWordCount(nk) && |key| >= 4 * nk
    ensures |w| == nk
  {
    seq(nk, j requires 0 <= j < nk => WordIn(key, j))
  }

  // Key lengths are accepted in bytes and in bits; 0 stands for any other argument.
  function WordsOfLength(keyLen: int): (nk: nat)
    ensures nk in {0, 4, 6, 8} && (nk == 0 <==> keyLen !in {16, 24, 32, 128, 192, 256})
    ensures nk != 0 ==> keyLen == 4 * nk || keyLen == 32 * nk
  {
    if keyLen == 16 || keyLen == 128 then 4
    else if keyLen == 24 || keyLen == 192 then 6
    else if keyLen == 32 || keyLen == 256 then 8
    else 0
  }

  // ks holds the encryption schedule of the key ...
  ghost predicate EncryptionSchedule(key: seq<bv8>, nk: nat, ks: seq<Word>)
    requires KeyWordCount(nk) && |key| >= 4 * nk
  {
    Scheduled(AesKeying(), KeyWords(key, nk), 4 * RoundsFor(nk), false, 0, ks)
  }

  // ... or its decryption schedule, in the order rev says.
  ghost predicate DecryptionSchedule(key: seq<bv8>, nk: nat, rev: bool, ks: seq<Word>)
    requires KeyWordCount(nk) && |key| >= 4 * nk
  {
    Scheduled(AesKeying(), KeyWords(key, nk), 4 * RoundsFor(nk), rev, 4 * RoundsFor(nk), ks)
  }

  // aes_encrypt_key: marks the context as an encryption context by setting the low bit of inf.b[2],
  // which the mode functions read as the position in a block.
  method AesEncryptKey(key: seq<bv8>, keyLen: int, cx: Context) returns (ok: bool)
    requires cx.Valid() && (keyLen in {16, 24, 32} ==> |key| >= keyLen) && (keyLen in {128, 192, 256} ==> 8 * |key| >= keyLen)
    modifies cx, cx.ks
    ensures ok <==> keyLen in {16, 24, 32, 128, 192, 256}
    ensures !ok ==> cx.ks[..] == old(cx.ks[..]) && cx.rounds16 == old(cx.rounds16) && cx.position == old(cx.position)
    ensures ok ==> cx.rounds16 in {160, 192, 224} && cx.Keyed() && cx.position == 1
    ensures ok ==> var nk := cx.rounds16 / 16 - 6;
                   (keyLen == 4 * nk || keyLen == 32 * nk) && cx.rounds16 == 16 * RoundsFor(nk) && EncryptionSchedule(key, nk, cx.ks[..])
  {
    var nk := WordsOfLength(keyLen);
    if nk == 0 {
      return false;
    }
    var words := KeyWords(key, nk);
    match nk {
      case 4 =>
        Expand128(AesKeying(), words, cx.ks, false);
        cx.rounds16 := 160;
      case 6 =>
        Expand192(AesKeying(), words, cx.ks, false);
        cx.rounds16 := 192;
      case _ =>
        Expand256(AesKeying(), words, cx.ks, false);
        cx.rounds16 := 224;
    }
    cx.position := 1;
    return true;
  }

  // aes_decrypt_key, with the shortcut schedules; the low bit of inf.b[2] stays clear.
  method AesDecryptKey(key: seq<bv8>, keyLen: int, cx: Context, rev: bool) returns (ok: bool)
    requires cx.Valid() && (keyLen in {16, 24, 32} ==> |key| >= keyLen) && (keyLen in {128, 192, 256} ==> 8 * |key| >= keyLen)
    modifies cx, cx.ks
    ensures ok <==> keyLen in {16, 24, 32, 128, 192, 256}
    ensures !ok ==> cx.ks[..] == old(cx.ks[..]) && cx.rounds16 == old(cx.rounds16) && cx.position == old(cx.position)
    ensures ok ==> cx.rounds16 in {160, 192, 224} && cx.Keyed() && cx.position == 0
    ensures ok ==> var nk := cx.rounds16 / 16 - 6;
                   (keyLen == 4 * nk || keyLen == 32 * nk) && cx.rounds16 == 16 * RoundsFor(nk) && DecryptionSchedule(key, nk, rev, cx.ks[..])
  {
    var nk := WordsOfLength(keyLen);
    if nk == 0 {
      return false;
    }
    AesKeyingValid();
    var words := KeyWords(key, nk);
    match nk {
      case 4 =>
        DecryptKey128(AesKeying(), words, cx.ks, rev);
        cx.rounds16 := 160;
      case 6 =>
        DecryptKey192(AesKeying(), words, cx.ks, rev);
        cx.rounds16 := 192;
      case _ =>
        DecryptKey256(AesKeying(), words, cx.ks, rev);
        cx.rounds16 := 224;
    }
    cx.position := 0;
    return true;
  }

  // The two schedules of one key, as the cipher uses them

  function MapQuad(f: Word -> Word, q: Quad): Quad {
    Quad(f(q.w0), f(q.w1), f(q.w2), f(q.w3))
  }

  lemma MixQuadView(q: Quad)
    ensures ToState(MapQuad(InvMcol, q)) == InvMixColumns(ToState(q))
  {
    InvMcolColumn(q.w0);
    InvMcolColumn(q.w1);
    InvMcolColumn(q.w2);
    InvMcolColumn(q.w3);
  }

  function ViewKeys(w: seq<Quad>): (v: seq<State>)
    ensures IsView(ToState, w, v)
  {
    seq(|w|, r requires 0 <= r < |w| => ToState(w[r]))
  }

  // The round key used in round r of decryption, out of the round key r rounds from the end; for
  // any keying operations.
  lemma UsedKey(k: Keying<Word>, words: seq<Word>, nr: nat, rev: bool, ek: seq<Word>, dk: seq<Word>, r: nat)
    requires KeyWordCount(|words|) && 1 <= nr && r <= nr
    requires Scheduled(k, words, 4 * nr, false, 0, ek) && Scheduled(k, words, 4 * nr, rev, 4 * nr, dk)
    ensures var q := RoundKeys(ek, nr)[nr - r];
            UsedKeys(dk, nr, rev)[r] == if 0 < r < nr then MapQuad(k.ff, q) else q
  {
    ScheduledWords(k, words, nr, rev, ek, dk, r, 0);
    ScheduledWords(k, words, nr, rev, ek, dk, r, 1);
    ScheduledWords(k, words, nr, rev, ek, dk, r, 2);
    ScheduledWords(k, words, nr, rev, ek, dk, r, 3);
  }

  lemma UsedKeysAreDecryptionSchedule(key: seq<bv8>, nk: nat, rev: bool, ek: seq<Word>, dk: seq<Word>)
    requires KeyWordCount(nk) && |key| >= 4 * nk
    requires EncryptionSchedule(key, nk, ek) && DecryptionSchedule(key, nk, rev, dk)
    ensures var nr := RoundsFor(nk);
            IsDecryptionSchedule(Inverse(), ViewKeys(RoundKeys(ek, nr)), ViewKeys(UsedKeys(dk, nr, rev)))
  {
    var nr := RoundsFor(nk);
    var w, dw := ViewKeys(RoundKeys(ek, nr)), ViewKeys(UsedKeys(dk, nr, rev));
    var k, words := AesKeying(), KeyWords(key, nk);
    UsedKey(k, words, nr, rev, ek, dk, 0);
    UsedKey(k, words, nr, rev, ek, dk, nr);
    forall r | 1 <= r < nr
      ensures dw[r] == (InvMixColumns)(w[nr - r])
    {
      UsedKey(k, words, nr, rev, ek, dk, r);
      MixQuadView(RoundKeys(ek, nr)[nr - r]);
    }
  }

  lemma SameState(p: Quad, q: Quad)
    requires ToState(p) == ToState(q)
    ensures p == q
  {
    SameColumn(p.w0, q.w0);
    SameColumn(p.w1, q.w1);
    SameColumn(p.w2, q.w2);
    SameColumn(p.w3, q.w3);
  }

  // The table ciphers on words, through the view
  lemma WordsView(w: seq<Quad>, dw: seq<Quad>, input: Quad)
    requires |w| >= 2 && |dw| >= 2
    ensures ToState(FusedCipher(Encryptor(), w, input)) == Cipher(Forward(), ViewKeys(w), ToState(input))
    ensures ToState(FusedCipher(Decryptor(), dw, input)) == Cipher(Inverse(), ViewKeys(dw), ToState(input))
  {
    EncryptorImplementsForward();
    DecryptorImplementsInverse();
    FusedCipherView(Encryptor(), Forward(), ToState, w, ViewKeys(w), input);
    FusedCipherView(Decryptor(), Inverse(), ToState, dw, ViewKeys(dw), input);
  }

  // They undo each other.
  lemma WordsUndone(w: seq<Quad>, dw: seq<Quad>, input: Quad)
    requires |w| >= 2 && |w| == |dw| && IsDecryptionSchedule(Inverse(), ViewKeys(w), ViewKeys(dw))
    ensures FusedCipher(Decryptor(), dw, FusedCipher(Encryptor(), w, input)) == input
    ensures FusedCipher(Encryptor(), w, FusedCipher(Decryptor(), dw, input)) == input
  {
    var x, y := FusedCipher(Encryptor(), w, input), FusedCipher(Decryptor(), dw, input);
    WordsView(w, dw, input);
    WordsView(w, dw, x);
    WordsView(w, dw, y);
    DecryptionUndoesEncryption(ViewKeys(w), ViewKeys(dw), ToState(input));
    EncryptionUndoesDecryption(ViewKeys(w), ViewKeys(dw), ToState(input));
    SameState(FusedCipher(Decryptor(), dw, x), input);
    SameState(FusedCipher(Encryptor(), w, y), input);
  }

  // For every key of 16, 24 or 32 bytes, either schedule order and every block, aes_decrypt under
  // the decryption schedule and aes_encrypt under the encryption schedule undo each other.

  lemma DecryptUndoesEncrypt(key: seq<bv8>, nk: nat, rev: bool, ek: seq<Word>, dk: seq<Word>, b: Block)
    requires KeyWordCount(nk) && |key| >= 4 * nk
    requires EncryptionSchedule(key, nk, ek) && DecryptionSchedule(key, nk, rev, dk)
    ensures DecryptBlock(dk, RoundsFor(nk), rev, EncryptBlock(ek, RoundsFor(nk), b)) == b
  {
    var nr := RoundsFor(nk);
    var w, dw := RoundKeys(ek, nr), UsedKeys(dk, nr, rev);
    UsedKeysAreDecryptionSchedule(key, nk, rev, ek, dk);
    WordsUndone(w, dw, BlockIn(b));
    BlockInOut(FusedCipher(Encryptor(), w, BlockIn(b)));
    BlockOutIn(b);
  }

  lemma EncryptUndoesDecrypt(key: seq<bv8>, nk: nat, rev: bool, ek: seq<Word>, dk: seq<Word>, b: Block)
    requires KeyWordCount(nk) && |key| >= 4 * nk
    requires EncryptionSchedule(key, nk, ek) && DecryptionSchedule(key, nk, rev, dk)
    ensures EncryptBlock(ek, RoundsFor(nk), DecryptBlock(dk, RoundsFor(nk), rev, b)) == b
  {
    var nr := RoundsFor(nk);
    var w, dw := RoundKeys(ek, nr), UsedKeys(dk, nr, rev);
    UsedKeysAreDecryptionSchedule(key, nk, rev, ek, dk);
    WordsUndone(w, dw, BlockIn(b));
    BlockInOut(FusedCipher(Decryptor(), dw, BlockIn(b)));
    BlockOutIn(b);
  }

  // aes_decrypt is InvCipher of FIPS 197 section 5.3 under the round keys of encryption.
  lemma DecryptBlockIsInvCipher(key: seq<bv8>, nk: nat, rev: bool, ek: seq<Word>, dk: seq<Word>, b: Block)
    requires KeyWordCount(nk) && |key| >= 4 * nk
    requires EncryptionSchedule(key, nk, ek) && DecryptionSchedule(key, nk, rev, dk)
    ensures ToState(BlockIn(DecryptBlock(dk, RoundsFor(nk), rev, b))) == InvCipher(Inverse(), ViewKeys(RoundKeys(ek, RoundsFor(nk))), ToState(BlockIn(b)))
  {
    var nr := RoundsFor(nk);
    var w, dw := RoundKeys(ek, nr), UsedKeys(dk, nr, rev);
    UsedKeysAreDecryptionSchedule(key, nk, rev, ek, dk);
    BlockInOut(FusedCipher(Decryptor(), dw, BlockIn(b)));
    WordsView(w, dw, BlockIn(b));
    DecryptionIsInvCipher(ViewKeys(w), ViewKeys(dw), ToState(BlockIn(b)));
  }

  // aes_encrypt is the cipher of FIPS 197 section 5.1, for any round keys.
  lemma EncryptBlockIsCipher(ks: seq<Word>, nr: nat, b: Block)
    requires |ks| >= 4 * nr + 4 && nr >= 1
    ensures ToState(BlockIn(EncryptBlock(ks, nr, b))) == Cipher(Forward(), ViewKeys(RoundKeys(ks, nr)), ToState(BlockIn(b)))
  {
    EncryptorImplementsForward();
    var w := RoundKeys(ks, nr);
    BlockInOut(FusedCipher(Encryptor(), w, BlockIn(b)));
    FusedCipherView(Encryptor(), Forward(), ToState, w, ViewKeys(w), BlockIn(b));
  }
}
