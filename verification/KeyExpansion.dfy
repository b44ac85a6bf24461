/**
  KeyExpansion of FIPS 197 section 5.2, on the bytes of the key, and what follows for the C code: the
  words that aes_encrypt_key stores are that expansion, so aes_encrypt is AES under the key.
*/
module KeyExpansion {
  import opened GaloisField
  import opened SubstitutionBox
  import opened Blocks
  import opened AesWords
  import opened KeyAlternating
  import opened Fips197
  import opened AesRounds
  import opened AesCrypt
  import opened KeySchedule
  import opened Aes

  function SubWord(c: Column): Column {
    MapColumn(SBox, c)
  }

  // The n-th power of x in GF(2^8)
  function Power(n: nat): bv8 {
    if n == 0 then 1 else Xtime(Power(n - 1))
  }

  // Rcon[j], for j from 1 on
  function RconWord(j: nat): Column {
    Column(if j == 0 then 0 else Power(j - 1), 0, 0, 0)
  }

  // What word i adds to the word nk before it: the last word, as it is, substituted, or rotated,
  // substituted and with a round constant
  datatype Step = Plain | Substituted | Rotated(j: nat)

  function StepOf(nk: nat, i: nat): Step
    requires KeyWordCount(nk)
  {
    if i % nk == 0 then Rotated(i / nk) else if nk > 6 && i % nk == 4 then Substituted else Plain
  }

  function NextColumn(step: Step, back: Column, last: Column): Column {
    match step
    case Plain => Plus(back, last)
    case Substituted => Plus(back, SubWord(last))
    case Rotated(j) => Plus(back, Plus(SubWord(RotWord(last)), RconWord(j)))
  }

  function KeyColumn(key: seq<bv8>, i: nat): Column
    requires 4 * i + 4 <= |key|
  {
    Column(key[4 * i], key[4 * i + 1], key[4 * i + 2], key[4 * i + 3])
  }

  // Word i of the expansion of a key of nk words
  function Expansion(key: seq<bv8>, nk: nat, i: nat): Column
    requires KeyWordCount(nk) && |key| >= 4 * nk
    decreases |key|, i
  {
    if i < nk then KeyColumn(key, i) else NextColumn(StepOf(nk, i), Expansion(key, nk, i - nk), Expansion(key, nk, i - 1))
  }

  lemma {:induction false} RcDataIsPower(i: nat)
    requires i < 10
    ensures RcData(i) == Power(i)
  {
    if i > 0 {
      RcDataIsPower(i - 1);
      RoundConstants(i - 1);
    }
  }

  lemma RconColumn(i: nat)
    requires i < 10
    ensures ToColumn(Rcon(i)) == RconWord(i + 1)
  {
    RcDataIsPower(i);
    WColumn(RcData(i));
    FromColumnInverse(Column(RcData(i), 0, 0, 0));
  }

  lemma KeyWordColumn(key: seq<bv8>, nk: nat, i: nat)
    requires KeyWordCount(nk) && |key| >= 4 * nk && i < nk
    ensures ToColumn(KeyWords(key, nk)[i]) == KeyColumn(key, i)
  {
    WordInColumn(key, i);
  }

  // The same step in the C code's operations
  function NextWord<W(!new)>(k: Keying<W>, step: Step, back: W, last: W): W {
    match step
    case Plain => k.xor(back, last)
    case Substituted => k.xor(back, k.ls0(last))
    case Rotated(j) => k.xor(back, k.xor(k.ls3(last), k.rc(if j == 0 then 0 else j - 1)))
  }

  lemma ExpandedNext<W(!new)>(k: Keying<W>, w: seq<W>, i: nat)
    requires KeyWordCount(|w|) && i >= |w|
    ensures Expanded(k, w, i) == NextWord(k, StepOf(|w|, i), Expanded(k, w, i - |w|), Expanded(k, w, i - 1))
  {
  }

  // The operations, seen as columns
  lemma OperationColumns(j: nat, x: Word, y: Word)
    requires j < 10
    ensures ToColumn(Xor(x, y)) == Plus(ToColumn(x), ToColumn(y))
    ensures ToColumn(Xor(LsBox3(x), Rcon(j))) == Plus(SubWord(RotWord(ToColumn(x))), RconWord(j + 1))
    ensures ToColumn(LsBox0(x)) == SubWord(ToColumn(x))
  {
    XorColumn(x, y);
    LsBoxColumns(x);
    RconColumn(j);
    XorColumn(LsBox3(x), Rcon(j));
  }

  lemma NextWordIsNextColumn(step: Step, back: Word, last: Word)
    requires step.Rotated? ==> 1 <= step.j <= 10
    ensures ToColumn(NextWord(AesKeying(), step, back, last)) == NextColumn(step, ToColumn(back), ToColumn(last))
  {
    hide Xor, LsBox3, LsBox0, Rcon, InvMcol, ToColumn, Fips197.Plus, SubWord, RotWord, RconWord;
    match step
    case Plain => OperationColumns(0, back, last);
    case Substituted =>
      OperationColumns(0, last, last);
      OperationColumns(0, back, LsBox0(last));
    case Rotated(j) =>
      OperationColumns(j - 1, last, last);
      OperationColumns(0, back, Xor(LsBox3(last), Rcon(j - 1)));
  }

  lemma FewConstants(nk: nat, i: nat)
    requires KeyWordCount(nk) && i < 4 * RoundsFor(nk) + 4
    ensures i >= nk && StepOf(nk, i).Rotated? ==> 1 <= StepOf(nk, i).j <= 10
  {
  }

  lemma OneMoreWord(k: Keying<Word>, w: seq<Word>, key: seq<bv8>, nk: nat, i: nat)
    requires k == AesKeying() && KeyWordCount(nk) && |w| == nk <= i && |key| >= 4 * nk && i < 4 * RoundsFor(nk) + 4
    requires ToColumn(Expanded(k, w, i - nk)) == Expansion(key, nk, i - nk)
    requires ToColumn(Expanded(k, w, i - 1)) == Expansion(key, nk, i - 1)
    ensures ToColumn(Expanded(k, w, i)) == Expansion(key, nk, i)
  {
    FewConstants(nk, i);
    hide *;
    ExpansionUnfolds(key, nk, i);
    ExpandedNext(k, w, i);
    NextWordIsNextColumn(StepOf(nk, i), Expanded(k, w, i - nk), Expanded(k, w, i - 1));
  }

  // Every word of the schedule is the word of the standard's expansion.
  lemma {:induction false} ExpandedIsExpansion(key: seq<bv8>, nk: nat, i: nat)
    requires KeyWordCount(nk) && |key| >= 4 * nk && i < 4 * RoundsFor(nk) + 4
    ensures ToColumn(Expanded(AesKeying(), KeyWords(key, nk), i)) == Expansion(key, nk, i)
    decreases i
  {
    hide AesKeying, ToColumn, Expanded, Expansion, NextWord, NextColumn, KeyColumn, StepOf;
    var k, w := AesKeying(), KeyWords(key, nk);
    if i < nk {
      ExpansionUnfolds(key, nk, i);
      ExpandedStart(k, w, i);
      KeyWordColumn(key, nk, i);
    } else {
      ExpandedIsExpansion(key, nk, i - 1);
      ExpandedIsExpansion(key, nk, i - nk);
      OneMoreWord(k, w, key, nk, i);
    }
  }

  lemma ExpandedStart<W(!new)>(k: Keying<W>, w: seq<W>, i: nat)
    requires KeyWordCount(|w|) && i < |w|
    ensures Expanded(k, w, i) == w[i]
  {
  }

  lemma ExpansionUnfolds(key: seq<bv8>, nk: nat, i: nat)
    requires KeyWordCount(nk) && |key| >= 4 * nk
    ensures Expansion(key, nk, i) == if i < nk then KeyColumn(key, i) else NextColumn(StepOf(nk, i), Expansion(key, nk, i - nk), Expansion(key, nk, i - 1))
  {
    hide NextColumn, KeyColumn;
  }

  // The bytes of a block as a state, column by column (FIPS 197 section 3.4), and its round keys
  function StateOf(b: Block): State {
    State(KeyColumn(b, 0), KeyColumn(b, 1), KeyColumn(b, 2), KeyColumn(b, 3))
  }

  function RoundKey(key: seq<bv8>, nk: nat, r: nat): State
    requires KeyWordCount(nk) && |key| >= 4 * nk
  {
    State(Expansion(key, nk, 4 * r), Expansion(key, nk, 4 * r + 1), Expansion(key, nk, 4 * r + 2), Expansion(key, nk, 4 * r + 3))
  }

  function RoundKeysOf(key: seq<bv8>, nk: nat): (w: seq<State>)
    requires KeyWordCount(nk) && |key| >= 4 * nk
    ensures |w| == RoundsFor(nk) + 1 && forall r :: 0 <= r < |w| ==> w[r] == RoundKey(key, nk, r)
  {
    seq(RoundsFor(nk) + 1, r requires 0 <= r < RoundsFor(nk) + 1 => RoundKey(key, nk, r))
  }

  // AES under a key (FIPS 197 section 5.1)
  function CipherUnder(key: seq<bv8>, nk: nat, s: State): State
    requires KeyWordCount(nk) && |key| >= 4 * nk
  {
    Cipher(Forward(), RoundKeysOf(key, nk), s)
  }

  lemma WordInColumn(b: seq<bv8>, c: nat)
    requires 4 * c + 4 <= |b|
    ensures ToColumn(WordIn(b, c)) == KeyColumn(b, c)
  {
    FromColumnInverse(KeyColumn(b, c));
  }

  lemma BlockInIsState(b: Block)
    ensures ToState(BlockIn(b)) == StateOf(b)
  {
    WordInColumn(b, 0);
    WordInColumn(b, 1);
    WordInColumn(b, 2);
    WordInColumn(b, 3);
  }

  lemma StoredIsExpanded<W(!new)>(k: Keying<W>, w: seq<W>, n: nat, ks: seq<W>, i: nat)
    requires KeyWordCount(|w|) && Scheduled(k, w, n, false, 0, ks) && i < n + 4
    ensures n + 4 <= |ks| && ks[i] == Expanded(k, w, i)
  {
    assert Logical(ks, n, false)[i] == Decrypting(k, w, 0, i);
  }

  lemma StoredColumn(key: seq<bv8>, nk: nat, ks: seq<Word>, i: nat)
    requires KeyWordCount(nk) && |key| >= 4 * nk && EncryptionSchedule(key, nk, ks) && i < 4 * RoundsFor(nk) + 4
    ensures i < |ks| && ToColumn(ks[i]) == Expansion(key, nk, i)
  {
    StoredIsExpanded(AesKeying(), KeyWords(key, nk), 4 * RoundsFor(nk), ks, i);
    ExpandedIsExpansion(key, nk, i);
  }

  lemma ViewOfRoundKey(ks: seq<Word>, nr: nat, r: nat)
    requires |ks| >= 4 * nr + 4 && r <= nr
    ensures ViewKeys(RoundKeys(ks, nr))[r] == State(ToColumn(ks[4 * r]), ToColumn(ks[4 * r + 1]), ToColumn(ks[4 * r + 2]), ToColumn(ks[4 * r + 3]))
  {
    hide ToColumn;
  }

  // The round keys of a schedule that aes_encrypt_key stores are those of the standard.
  lemma RoundKeysAreExpansion(key: seq<bv8>, nk: nat, ks: seq<Word>)
    requires KeyWordCount(nk) && |key| >= 4 * nk && EncryptionSchedule(key, nk, ks)
    ensures |ks| >= 4 * RoundsFor(nk) + 4 && ViewKeys(RoundKeys(ks, RoundsFor(nk))) == RoundKeysOf(key, nk)
  {
    var nr := RoundsFor(nk);
    forall r | 0 <= r <= nr
      ensures ViewKeys(RoundKeys(ks, nr))[r] == RoundKey(key, nk, r)
    {
      StoredColumn(key, nk, ks, 4 * r);
      StoredColumn(key, nk, ks, 4 * r + 1);
      StoredColumn(key, nk, ks, 4 * r + 2);
      StoredColumn(key, nk, ks, 4 * r + 3);
      ViewOfRoundKey(ks, nr, r);
    }
  }

  // aes_encrypt after aes_encrypt_key is AES under the key, for every key of 16, 24 or 32 bytes and
  // every block.
  lemma EncryptIsAes(key: seq<bv8>, nk: nat, ks: seq<Word>, b: Block)
    requires KeyWordCount(nk) && |key| >= 4 * nk && EncryptionSchedule(key, nk, ks)
    ensures StateOf(EncryptBlock(ks, RoundsFor(nk), b)) == CipherUnder(key, nk, StateOf(b))
  {
    RoundKeysAreExpansion(key, nk, ks);
    hide RoundKeys, ViewKeys, EncryptBlock, StateOf;
    BlockInIsState(b);
    BlockInIsState(EncryptBlock(ks, RoundsFor(nk), b));
    EncryptBlockIsCipher(ks, RoundsFor(nk), b);
  }

  // The stored words of a key exist for every key; aes_encrypt_key makes them.
  function EncryptionWords(key: seq<bv8>, nk: nat): (ks: seq<Word>)
    requires KeyWordCount(nk) && |key| >= 4 * nk
    ensures EncryptionSchedule(key, nk, ks)
  {
    var n, w := 4 * RoundsFor(nk) + 4, KeyWords(key, nk);
    seq(n, i requires 0 <= i < n => Expanded(AesKeying(), w, i))
  }

  function InvCipherUnder(key: seq<bv8>, nk: nat, s: State): State
    requires KeyWordCount(nk) && |key| >= 4 * nk
  {
    InvCipher(Inverse(), RoundKeysOf(key, nk), s)
  }

  // aes_decrypt after aes_decrypt_key is the inverse cipher of FIPS 197 section 5.3 under the key, on every
  // block and in either schedule order.
  lemma DecryptIsInverseAes(key: seq<bv8>, nk: nat, rev: bool, dk: seq<Word>, b: Block)
    requires KeyWordCount(nk) && |key| >= 4 * nk && DecryptionSchedule(key, nk, rev, dk)
    ensures StateOf(DecryptBlock(dk, RoundsFor(nk), rev, b)) == InvCipherUnder(key, nk, StateOf(b))
  {
    var ek := EncryptionWords(key, nk);
    RoundKeysAreExpansion(key, nk, ek);
    hide RoundKeys, ViewKeys, DecryptBlock, StateOf;
    BlockInIsState(b);
    BlockInIsState(DecryptBlock(dk, RoundsFor(nk), rev, b));
    DecryptBlockIsInvCipher(key, nk, rev, ek, dk, b);
  }

  // AES and its inverse on blocks of bytes

  function ColumnBytes(c: Column): (b: seq<bv8>)
    ensures |b| == 4
  {
    [c.b0, c.b1, c.b2, c.b3]
  }

  function BytesOf(s: State): Block {
    ColumnBytes(s.c0) + ColumnBytes(s.c1) + ColumnBytes(s.c2) + ColumnBytes(s.c3)
  }

  lemma BytesOfStateOf(b: Block)
    ensures BytesOf(StateOf(b)) == b
  {
  }

  lemma StateOfBytesOf(s: State)
    ensures StateOf(BytesOf(s)) == s
  {
  }

  function AesBlock(key: seq<bv8>, nk: nat, b: Block): Block
    requires KeyWordCount(nk) && |key| >= 4 * nk
  {
    BytesOf(CipherUnder(key, nk, StateOf(b)))
  }

  function InvAesBlock(key: seq<bv8>, nk: nat, b: Block): Block
    requires KeyWordCount(nk) && |key| >= 4 * nk
  {
    BytesOf(InvCipherUnder(key, nk, StateOf(b)))
  }

  // As states they are Cipher and InvCipher of the standard.
  lemma AesBlockStates(key: seq<bv8>, nk: nat, b: Block)
    requires KeyWordCount(nk) && |key| >= 4 * nk
    ensures StateOf(AesBlock(key, nk, b)) == CipherUnder(key, nk, StateOf(b))
    ensures StateOf(InvAesBlock(key, nk, b)) == InvCipherUnder(key, nk, StateOf(b))
  {
    hide StateOf, CipherUnder, InvCipherUnder, BytesOf;
    StateOfBytesOf(CipherUnder(key, nk, StateOf(b)));
    StateOfBytesOf(InvCipherUnder(key, nk, StateOf(b)));
  }

  lemma BlocksAreAes(key: seq<bv8>, nk: nat, rev: bool, ek: seq<Word>, dk: seq<Word>, b: Block)
    requires KeyWordCount(nk) && |key| >= 4 * nk
    ensures EncryptionSchedule(key, nk, ek) ==> EncryptBlock(ek, RoundsFor(nk), b) == AesBlock(key, nk, b)
    ensures DecryptionSchedule(key, nk, rev, dk) ==> DecryptBlock(dk, RoundsFor(nk), rev, b) == InvAesBlock(key, nk, b)
  {
    hide StateOf, CipherUnder, InvCipherUnder, BytesOf, EncryptBlock, DecryptBlock, EncryptionSchedule, DecryptionSchedule;
    if EncryptionSchedule(key, nk, ek) {
      ScheduleLength(key, nk, rev, ek, dk);
      EncryptIsAes(key, nk, ek, b);
      BytesOfStateOf(EncryptBlock(ek, RoundsFor(nk), b));
    }
    if DecryptionSchedule(key, nk, rev, dk) {
      ScheduleLength(key, nk, rev, ek, dk);
      DecryptIsInverseAes(key, nk, rev, dk, b);
      BytesOfStateOf(DecryptBlock(dk, RoundsFor(nk), rev, b));
    }
  }

  lemma ScheduleLength(key: seq<bv8>, nk: nat, rev: bool, ek: seq<Word>, dk: seq<Word>)
    requires KeyWordCount(nk) && |key| >= 4 * nk
    ensures EncryptionSchedule(key, nk, ek) ==> |ek| >= 4 * RoundsFor(nk) + 4
    ensures DecryptionSchedule(key, nk, rev, dk) ==> |dk| >= 4 * RoundsFor(nk) + 4
  {
  }
}
