/**
  The TEA codec of Source/Loader/Utils/EncryptionUtils.cs: 32 rounds on two 32-bit words, with
  arithmetic modulo 2^32, over arrays of bytes in little-endian order.
*/
module Tea {
  import opened Wrappers
  import opened Blocks

  // uint, with unchecked arithmetic
  type Uint = bv32

  // uint[] key
  datatype Key = Key(k0: Uint, k1: Uint, k2: Uint, k3: Uint)

  datatype Pair = Pair(v0: Uint, v1: Uint)

  const DELTA: Uint := 0x9E3779B9
  const DECRYPTION_SUM: Uint := 0xC6EF3720

  // One line of a round: v0 += ((v1 << 4) + ka) ^ (v1 + sum) ^ ((v1 >> 5) + kb), and the same with -=

  function Added(w: Uint, v: Uint, sum: Uint, ka: Uint, kb: Uint): Uint {
    w + (((v << 4) + ka) ^ (v + sum) ^ ((v >> 5) + kb))
  }

  function Taken(w: Uint, v: Uint, sum: Uint, ka: Uint, kb: Uint): Uint {
    w - (((v << 4) + ka) ^ (v + sum) ^ ((v >> 5) + kb))
  }

  lemma TakenOfSum(w: Uint, x: Uint, v: Uint, sum: Uint, ka: Uint, kb: Uint)
    requires x == w + (((v << 4) + ka) ^ (v + sum) ^ ((v >> 5) + kb))
    ensures Taken(x, v, sum, ka, kb) == w
  {
  }

  lemma TakenUndoesAdded(w: Uint, v: Uint, sum: Uint, ka: Uint, kb: Uint)
    ensures Taken(Added(w, v, sum, ka, kb), v, sum, ka, kb) == w
  {
    hide Taken;
    TakenOfSum(w, Added(w, v, sum, ka, kb), v, sum, ka, kb);
  }

  // One round of encryption, and of decryption, at a given sum

  function EncryptRound(k: Key, sum: Uint, p: Pair): Pair {
    var v0 := Added(p.v0, p.v1, sum, k.k0, k.k1);
    Pair(v0, Added(p.v1, v0, sum, k.k2, k.k3))
  }

  function DecryptRound(k: Key, sum: Uint, p: Pair): Pair {
    var v1 := Taken(p.v1, p.v0, sum, k.k2, k.k3);
    Pair(Taken(p.v0, v1, sum, k.k0, k.k1), v1)
  }

  // The rounds in full: which key words go with which shifts, and which word goes first

  lemma EncryptRoundInFull(k0: Uint, k1: Uint, k2: Uint, k3: Uint, sum: Uint, v0: Uint, v1: Uint, w0: Uint)
    requires w0 == v0 + (((v1 << 4) + k0) ^ (v1 + sum) ^ ((v1 >> 5) + k1))
    ensures EncryptRound(Key(k0, k1, k2, k3), sum, Pair(v0, v1)) == Pair(w0, v1 + (((w0 << 4) + k2) ^ (w0 + sum) ^ ((w0 >> 5) + k3)))
  {
    hide Added;
    AddedInFull(v0, v1, sum, k0, k1);
    AddedInFull(v1, w0, sum, k2, k3);
  }

  lemma DecryptRoundInFull(k0: Uint, k1: Uint, k2: Uint, k3: Uint, sum: Uint, v0: Uint, v1: Uint, w1: Uint)
    requires w1 == v1 - (((v0 << 4) + k2) ^ (v0 + sum) ^ ((v0 >> 5) + k3))
    ensures DecryptRound(Key(k0, k1, k2, k3), sum, Pair(v0, v1)) == Pair(v0 - (((w1 << 4) + k0) ^ (w1 + sum) ^ ((w1 >> 5) + k1)), w1)
  {
    hide Taken;
    AddedInFull(v1, v0, sum, k2, k3);
    AddedInFull(v0, w1, sum, k0, k1);
  }

  lemma AddedInFull(w: Uint, v: Uint, sum: Uint, ka: Uint, kb: Uint)
    ensures Added(w, v, sum, ka, kb) == w + (((v << 4) + ka) ^ (v + sum) ^ ((v >> 5) + kb))
    ensures Taken(w, v, sum, ka, kb) == w - (((v << 4) + ka) ^ (v + sum) ^ ((v >> 5) + kb))
  {
  }

  lemma RoundUndone(k: Key, sum: Uint, p: Pair)
    ensures DecryptRound(k, sum, EncryptRound(k, sum, p)) == p
  {
    hide Added, Taken;
    var v0 := Added(p.v0, p.v1, sum, k.k0, k.k1);
    TakenUndoesAdded(p.v0, p.v1, sum, k.k0, k.k1);
    TakenUndoesAdded(p.v1, v0, sum, k.k2, k.k3);
  }

  function Plus(a: Uint, b: Uint): Uint {
    a + b
  }

  function Minus(a: Uint, b: Uint): Uint {
    a - b
  }

  lemma MinusOfSum(a: Uint, b: Uint, x: Uint)
    requires x == a + b
    ensures Minus(x, b) == a
  {
  }

  lemma MinusUndoesPlus(a: Uint, b: Uint)
    ensures Minus(Plus(a, b), b) == a
  {
    hide Minus;
    MinusOfSum(a, b, Plus(a, b));
  }

  // The sum in the n-th round of encryption
  function Sum(n: nat): Uint {
    if n == 0 then 0 else Plus(Sum(n - 1), DELTA)
  }

  function EncryptRounds(k: Key, p: Pair, n: nat): Pair
    decreases k, n
  {
    if n == 0 then p else EncryptRound(k, Sum(n), EncryptRounds(k, p, n - 1))
  }

  // The last n rounds of decryption, at the sums n down to 1
  function DecryptRounds(k: Key, p: Pair, n: nat): Pair
    decreases k, n
  {
    if n == 0 then p else DecryptRounds(k, DecryptRound(k, Sum(n), p), n - 1)
  }

  lemma {:induction false} RoundsUndone(k: Key, p: Pair, n: nat)
    ensures DecryptRounds(k, EncryptRounds(k, p, n), n) == p
  {
    hide EncryptRound, DecryptRound, Sum;
    if n > 0 {
      RoundUndone(k, Sum(n), EncryptRounds(k, p, n - 1));
      RoundsUndone(k, p, n - 1);
    }
  }

  lemma PlusLaws(a: Uint, b: Uint, c: Uint)
    ensures Plus(Plus(a, b), c) == Plus(a, Plus(b, c)) && Plus(a, 0) == a
  {
  }

  lemma {:induction false} SumOfRounds(m: nat, n: nat)
    ensures Sum(m + n) == Plus(Sum(m), Sum(n))
  {
    hide Plus;
    if n > 0 {
      SumOfRounds(m, n - 1);
      PlusLaws(Sum(m), Sum(n - 1), DELTA);
    } else {
      PlusLaws(Sum(m), 0, 0);
    }
  }

  // The decryptor starts from the encryptor's last sum.
  lemma LastSum()
    ensures Sum(32) == DECRYPTION_SUM
  {
    assert Sum(1) == DELTA;
    SumOfRounds(1, 1);
    SumOfRounds(2, 2);
    SumOfRounds(4, 4);
    SumOfRounds(8, 8);
    SumOfRounds(16, 16);
  }

  function EncryptPair(k: Key, p: Pair): Pair {
    EncryptRounds(k, p, 32)
  }

  function DecryptPair(k: Key, p: Pair): Pair {
    DecryptRounds(k, p, 32)
  }

  // A block under a key of four different words
  lemma KnownBlock()
    ensures EncryptPair(Key(1, 2, 3, 4), Pair(0, 0)) == Pair(0x68233B78, 0xDCDCEE22)
  {
    var k := Key(1, 2, 3, 4);
    assert Sum(4) == 0x78DDE6E4 && EncryptRounds(k, Pair(0, 0), 4) == Pair(0x47ABAFAD, 0xDE2C5410);
    assert Sum(8) == 0xF1BBCDC8 && EncryptRounds(k, Pair(0, 0), 8) == Pair(0x2DAAB39B, 0xF1A51686);
    assert Sum(12) == 0x6A99B4AC && EncryptRounds(k, Pair(0, 0), 12) == Pair(0x653A476C, 0x891DD6A9);
    assert Sum(16) == 0xE3779B90 && EncryptRounds(k, Pair(0, 0), 16) == Pair(0xA2609465, 0x42680FA4);
    assert Sum(20) == 0x5C558274 && EncryptRounds(k, Pair(0, 0), 20) == Pair(0xBAB2ADC5, 0x5778A6AE);
    assert Sum(24) == 0xD5336958 && EncryptRounds(k, Pair(0, 0), 24) == Pair(0xBF6A3981, 0xE35A810B);
    assert Sum(28) == 0x4E11503C && EncryptRounds(k, Pair(0, 0), 28) == Pair(0xBCA70C58, 0xD3458649);
    assert Sum(32) == 0xC6EF3720 && EncryptRounds(k, Pair(0, 0), 32) == Pair(0x68233B78, 0xDCDCEE22);
  }

  // For every block and key, 32 rounds of decryption undo 32 rounds of encryption.
  lemma BlockUndone(k: Key, p: Pair)
    ensures DecryptPair(k, EncryptPair(k, p)) == p
  {
    hide EncryptRounds, DecryptRounds;
    RoundsUndone(k, p, 32);
  }

  // Bytes and words

  type Byte = bv8

  // BitConverter.ToUInt32(b, at)
  function WordIn(b: seq<Byte>, at: nat): Uint
    requires at + 4 <= |b|
  {
    Word(b[at], b[at + 1], b[at + 2], b[at + 3])
  }

  function Word(b0: Byte, b1: Byte, b2: Byte, b3: Byte): Uint {
    (b0 as bv32) | ((b1 as bv32) << 8) | ((b2 as bv32) << 16) | ((b3 as bv32) << 24)
  }

  // ToBytes
  function WordOut(x: Uint): (b: seq<Byte>)
    ensures |b| == 4
  {
    [ByteOf(x, 0), ByteOf(x, 8), ByteOf(x, 16), ByteOf(x, 24)]
  }

  function ByteOf(x: Uint, shift: nat): Byte
    requires shift <= 24
  {
    ((x >> shift) & 0xFF) as bv8
  }

  lemma WordParts(b0: Byte, b1: Byte, b2: Byte, b3: Byte)
    ensures var x := Word(b0, b1, b2, b3);
            ByteOf(x, 0) == b0 && ByteOf(x, 8) == b1 && ByteOf(x, 16) == b2 && ByteOf(x, 24) == b3
  {
  }

  lemma PartsOfWord(x: Uint)
    ensures Word(ByteOf(x, 0), ByteOf(x, 8), ByteOf(x, 16), ByteOf(x, 24)) == x
  {
    hide Word;
    WordOfParts(x, ByteOf(x, 0), ByteOf(x, 8), ByteOf(x, 16), ByteOf(x, 24));
  }

  lemma WordOfParts(x: Uint, b0: Byte, b1: Byte, b2: Byte, b3: Byte)
    requires b0 as bv32 == x & 0xFF && b1 as bv32 == (x >> 8) & 0xFF && b2 as bv32 == (x >> 16) & 0xFF && b3 as bv32 == (x >> 24) & 0xFF
    ensures Word(b0, b1, b2, b3) == x
  {
  }

  lemma WordInOut(b: seq<Byte>, at: nat)
    requires at + 4 <= |b|
    ensures WordOut(WordIn(b, at)) == b[at..at + 4]
  {
    hide Word, ByteOf;
    WordParts(b[at], b[at + 1], b[at + 2], b[at + 3]);
  }

  lemma WordOutIn(x: Uint)
    ensures WordIn(WordOut(x), 0) == x
  {
    hide Word, ByteOf;
    PartsOfWord(x);
  }

  // The bytes of a word are in the order of their significance, the least one first.
  lemma LittleEndian(b0: Byte, b1: Byte, b2: Byte, b3: Byte)
    ensures var x := WordIn([b0, b1, b2, b3], 0);
            && x & 0xFF == b0 as bv32 && (x >> 8) & 0xFF == b1 as bv32 && (x >> 16) & 0xFF == b2 as bv32 && x >> 24 == b3 as bv32
            && WordOut(x) == [b0, b1, b2, b3]
  {
    WordInOut([b0, b1, b2, b3], 0);
    hide WordOut, ByteOf;
  }

  function PairOut(p: Pair): (b: seq<Byte>)
    ensures |b| == 8
  {
    WordOut(p.v0) + WordOut(p.v1)
  }

  function PairIn(b: seq<Byte>, at: nat): Pair
    requires at + 8 <= |b|
  {
    Pair(WordIn(b, at), WordIn(b, at + 4))
  }

  lemma WordInSlice(b: seq<Byte>, at: nat)
    requires at + 4 <= |b|
    ensures WordIn(b, at) == WordIn(b[at..at + 4], 0)
  {
  }

  lemma PairOutIn(p: Pair, b: seq<Byte>, at: nat)
    requires at + 8 <= |b| && b[at..at + 8] == PairOut(p)
    ensures PairIn(b, at) == p
  {
    var w0, w1 := WordOut(p.v0), WordOut(p.v1);
    assert b[at..at + 4] == b[at..at + 8][..4] == w0;
    assert b[at + 4..at + 8] == b[at..at + 8][4..] == w1;
    WordInSlice(b, at);
    WordInSlice(b, at + 4);
    WordOutIn(p.v0);
    WordOutIn(p.v1);
  }

  // The encryptor reads a word that is not all there as 0.
  function WordAt(d: seq<Byte>, at: nat): Uint {
    if at + 4 > |d| then 0 else WordIn(d, at)
  }

  function BlockAt(d: seq<Byte>, n: nat): Pair {
    Pair(WordAt(d, 8 * n), WordAt(d, 8 * n + 4))
  }

  // The first n blocks of output

  function Encrypted(k: Key, d: seq<Byte>, n: nat): (c: seq<Byte>)
    ensures |c| == 8 * n
  {
    if n == 0 then [] else Encrypted(k, d, n - 1) + PairOut(EncryptPair(k, BlockAt(d, n - 1)))
  }

  function Decrypted(k: Key, c: seq<Byte>, n: nat): (d: seq<Byte>)
    requires 8 * n <= |c|
    ensures |d| == 8 * n
  {
    if n == 0 then [] else Decrypted(k, c, n - 1) + PairOut(DecryptPair(k, PairIn(c, 8 * (n - 1))))
  }

  function DecryptedAll(k: Key, c: seq<Byte>): seq<Byte> {
    Decrypted(k, c, |c| / 8)
  }

  // The blocks that a message is read as
  function ReadAs(d: seq<Byte>, n: nat): (r: seq<Byte>)
    ensures |r| == 8 * n
  {
    if n == 0 then [] else ReadAs(d, n - 1) + PairOut(BlockAt(d, n - 1))
  }

  lemma {:induction false} PrefixOfEncrypted(k: Key, d: seq<Byte>, m: nat, n: nat)
    requires m <= n
    ensures Encrypted(k, d, n)[..8 * m] == Encrypted(k, d, m)
  {
    hide EncryptPair, PairOut, BlockAt;
    if m < n {
      PrefixOfEncrypted(k, d, m, n - 1);
      assert Encrypted(k, d, n)[..8 * (n - 1)] == Encrypted(k, d, n - 1);
      assert Encrypted(k, d, n)[..8 * m] == Encrypted(k, d, n - 1)[..8 * m];
    }
  }

  lemma {:induction false} BlocksUndone(k: Key, d: seq<Byte>, n: nat, m: nat)
    requires m <= n
    ensures Decrypted(k, Encrypted(k, d, n), m) == ReadAs(d, m)
  {
    hide EncryptPair, DecryptPair, PairOut, PairIn, BlockAt, Encrypted;
    if m > 0 {
      BlocksUndone(k, d, n, m - 1);
      BlockOfEncrypted(k, d, n, m - 1);
      BlockUndone(k, BlockAt(d, m - 1));
    }
  }

  lemma BlockOfEncrypted(k: Key, d: seq<Byte>, n: nat, j: nat)
    requires j < n
    ensures PairIn(Encrypted(k, d, n), 8 * j) == EncryptPair(k, BlockAt(d, j))
  {
    hide EncryptPair;
    var c, p := Encrypted(k, d, n), EncryptPair(k, BlockAt(d, j));
    PrefixOfEncrypted(k, d, j + 1, n);
    assert c[8 * j..8 * j + 8] == c[..8 * (j + 1)][8 * j..] == PairOut(p);
    PairOutIn(p, c, 8 * j);
  }

  function Zeros(n: nat): (z: seq<Byte>)
    ensures |z| == n && forall i :: 0 <= i < n ==> z[i] == 0
  {
    seq(n, i => 0)
  }

  // Blocks, the last one perhaps not full, and whole words of a message

  function BlockCount(d: seq<Byte>): (n: nat)
    ensures |d| <= 8 * n < |d| + 8
  {
    (|d| + 7) / 8
  }

  function WordCount(d: seq<Byte>): (n: nat)
    ensures 4 * n <= |d| < 4 * n + 4
  {
    |d| / 4
  }

  // Cut to whole words and filled up with zeros to whole blocks
  function Padded(d: seq<Byte>): (r: seq<Byte>)
    ensures |r| == 8 * BlockCount(d)
  {
    hide *;
    d[..4 * WordCount(d)] + Zeros(8 * BlockCount(d) - 4 * WordCount(d))
  }

  lemma WordOfPadded(d: seq<Byte>, w: nat)
    requires 4 * w + 4 <= 8 * BlockCount(d)
    ensures Padded(d)[4 * w..4 * w + 4] == WordOut(WordAt(d, 4 * w))
  {
    hide WordCount, BlockCount;
    if 4 * w + 4 <= |d| {
      hide WordIn, WordOut;
      WordInOut(d, 4 * w);
    } else {
      assert w >= WordCount(d);
      assert WordOut(0) == Zeros(4);
    }
  }

  lemma TwoWordsMore(p: seq<Byte>, n: nat)
    requires 8 * n + 8 <= |p|
    ensures p[..8 * (n + 1)] == p[..8 * n] + (p[4 * (2 * n)..4 * (2 * n) + 4] + p[4 * (2 * n + 1)..4 * (2 * n + 1) + 4])
  {
  }

  lemma ReadAsNext(d: seq<Byte>, n: nat)
    ensures ReadAs(d, 0) == []
    ensures ReadAs(d, n + 1) == ReadAs(d, n) + (WordOut(WordAt(d, 4 * (2 * n))) + WordOut(WordAt(d, 4 * (2 * n + 1))))
  {
    hide WordOut, WordAt;
  }

  lemma {:induction false} ReadAsPadded(d: seq<Byte>, n: nat)
    requires n <= BlockCount(d)
    ensures ReadAs(d, n) == Padded(d)[..8 * n]
  {
    hide *;
    if n > 0 {
      ReadAsPadded(d, n - 1);
      ReadAsNext(d, n - 1);
      WordOfPadded(d, 2 * (n - 1));
      WordOfPadded(d, 2 * (n - 1) + 1);
      TwoWordsMore(Padded(d), n - 1);
    } else {
      ReadAsNext(d, n);
    }
  }

  function EncryptedAll(k: Key, d: seq<Byte>): (c: seq<Byte>)
    ensures |c| == 8 * BlockCount(d)
  {
    Encrypted(k, d, BlockCount(d))
  }

  // A message after encryption and decryption
  function Recovered(k: Key, d: seq<Byte>): (r: seq<Byte>)
    ensures |r| == 8 * BlockCount(d)
  {
    Decrypted(k, EncryptedAll(k, d), BlockCount(d))
  }

  // It is cut to whole words and padded to whole blocks.
  lemma RoundTrip(k: Key, d: seq<Byte>)
    ensures Recovered(k, d) == Padded(d) && DecryptedAll(k, EncryptedAll(k, d)) == Recovered(k, d)
  {
    DecryptedWhole(k, EncryptedAll(k, d), BlockCount(d));
    BlocksUndone(k, d, BlockCount(d), BlockCount(d));
    ReadAsPadded(d, BlockCount(d));
    assert Padded(d)[..8 * BlockCount(d)] == Padded(d);
  }

  // So it is the same exactly when it has whole blocks, and begins with the message exactly when the
  // bytes after its last whole word are all 0.
  lemma RoundTripExact(k: Key, d: seq<Byte>)
    ensures |d| <= |Recovered(k, d)| && (Recovered(k, d) == d <==> |d| % 8 == 0)
    ensures Recovered(k, d)[..|d|] == d <==> forall i :: 4 * WordCount(d) <= i < |d| ==> d[i] == 0
  {
    hide Recovered, Padded;
    RoundTrip(k, d);
    PaddedExact(d);
  }

  lemma WholeBlocksRecovered(k: Key, d: seq<Byte>)
    requires |d| % 8 == 0
    ensures DecryptedAll(k, EncryptedAll(k, d)) == d
  {
    RoundTrip(k, d);
    RoundTripExact(k, d);
    hide *;
  }

  lemma PaddedExact(d: seq<Byte>)
    ensures var r := Padded(d);
            && |d| <= |r| && (r == d <==> |d| % 8 == 0)
            && (r[..|d|] == d <==> forall i :: 4 * WordCount(d) <= i < |d| ==> d[i] == 0)
  {
    var whole, n := 4 * WordCount(d), 8 * BlockCount(d);
    assert Padded(d) == d[..whole] + Zeros(n - whole);
    WholeBlocksOnly(|d|, BlockCount(d));
    WordsOfBlocks(|d|, WordCount(d), BlockCount(d));
    hide *;
    FilledUp(d, Zeros(n - whole), whole, 0);
  }

  lemma WordsOfBlocks(len: nat, words: nat, blocks: nat)
    requires 4 * words <= len < 4 * words + 4 && len <= 8 * blocks < len + 8
    ensures 4 * words <= 8 * blocks && len <= 8 * blocks && (len == 8 * blocks ==> 4 * words == 8 * blocks)
  {
  }

  lemma FilledUp<T>(d: seq<T>, z: seq<T>, whole: nat, zero: T)
    requires whole <= |d| <= whole + |z| && forall i :: 0 <= i < |z| ==> z[i] == zero
    ensures var r := d[..whole] + z;
            && (r[..|d|] == d <==> forall i :: whole <= i < |d| ==> d[i] == zero)
            && (z == [] ==> r == d)
  {
    var r := d[..whole] + z;
    if forall i :: whole <= i < |d| ==> d[i] == zero {
      assert r[..|d|] == d;
    } else {
      var i :| whole <= i < |d| && d[i] != zero;
      assert r[..|d|][i] == zero;
    }
  }

  lemma WholeBlocksOnly(len: nat, n: nat)
    requires len <= 8 * n < len + 8
    ensures len % 8 == 0 <==> len == 8 * n
  {
    assert len == 8 * (len / 8) + len % 8;
  }

  // The methods

  method RunEncryption(p: Pair, k: Key) returns (q: Pair)
    ensures q == EncryptPair(k, p)
  {
    hide Added, Plus;
    var v0, v1, sum: Uint := p.v0, p.v1, 0;
    var n := 32;
    for i := 0 to n
      invariant sum == Sum(i) && Pair(v0, v1) == EncryptRounds(k, p, i)
    {
      sum := Plus(sum, DELTA);
      v0 := Added(v0, v1, sum, k.k0, k.k1);
      v1 := Added(v1, v0, sum, k.k2, k.k3);
    }
    q := Pair(v0, v1);
  }

  method RunDecryption(p: Pair, k: Key) returns (q: Pair)
    ensures q == DecryptPair(k, p)
  {
    hide Taken, Plus, Minus;
    var v0, v1, sum := p.v0, p.v1, DECRYPTION_SUM;
    LastSum();
    var n := 32;
    for i := 0 to n
      invariant sum == Sum(n - i) && DecryptRounds(k, Pair(v0, v1), n - i) == DecryptRounds(k, p, n)
    {
      v1 := Taken(v1, v0, sum, k.k2, k.k3);
      v0 := Taken(v0, v1, sum, k.k0, k.k1);
      MinusUndoesPlus(Sum(n - 1 - i), DELTA);
      sum := Minus(sum, DELTA);
    }
    q := Pair(v0, v1);
  }

  method Tea32EncryptBlock(input: array<Byte>, inputOffset: nat, output: array<Byte>, outputOffset: nat, k: Key)
    requires outputOffset + 8 <= output.Length
    modifies output
    ensures output[..] == Stored(old(output[..]), outputOffset,
                                 PairOut(EncryptPair(k, Pair(WordAt(old(input[..]), inputOffset), WordAt(old(input[..]), inputOffset + 4)))))
  {
    hide EncryptPair;
    var p := RunEncryption(Pair(WordAt(input[..], inputOffset), WordAt(input[..], inputOffset + 4)), k);
    StoreBlock(output, outputOffset, WordOut(p.v0) + WordOut(p.v1));
  }

  method Tea32DecryptBlock(input: array<Byte>, inputOffset: nat, output: array<Byte>, outputOffset: nat, k: Key)
    requires inputOffset + 8 <= input.Length && outputOffset + 8 <= output.Length
    modifies output
    ensures output[..] == Stored(old(output[..]), outputOffset, PairOut(DecryptPair(k, PairIn(old(input[..]), inputOffset))))
  {
    hide DecryptPair;
    var p := RunDecryption(Pair(WordIn(input[..], inputOffset), WordIn(input[..], inputOffset + 4)), k);
    StoreBlock(output, outputOffset, WordOut(p.v0) + WordOut(p.v1));
  }

  // The loops over the blocks, on the values of the buffers: the bytes before an offset are done.

  ghost predicate EncryptedTo(k: Key, d: seq<Byte>, out: seq<Byte>, offset: nat) {
    exists j: nat {:trigger Encrypted(k, d, j)} ::
      offset == 8 * j && |out| == 8 * BlockCount(d) && j <= BlockCount(d) && out[..offset] == Encrypted(k, d, j)
  }

  ghost predicate DecryptedTo(k: Key, c: seq<Byte>, out: seq<Byte>, offset: nat) {
    exists j: nat {:trigger BlocksDecrypted(k, c, j)} ::
      offset == 8 * j && offset <= |out| == |c| && out[..offset] == BlocksDecrypted(k, c, j)
  }

  function BlocksDecrypted(k: Key, c: seq<Byte>, j: nat): seq<Byte> {
    if 8 * j <= |c| then Decrypted(k, c, j) else []
  }

  lemma EncryptNext(k: Key, d: seq<Byte>, out: seq<Byte>, offset: nat)
    requires EncryptedTo(k, d, out, offset) && offset < |d|
    ensures offset + 8 <= |out|
    ensures var b := PairOut(EncryptPair(k, Pair(WordAt(d, offset), WordAt(d, offset + 4))));
            EncryptedTo(k, d, Stored(out, offset, b), offset + 8)
  {
    hide EncryptPair, WordAt, Stored, PairOut, BlockCount;
    var j: nat :| offset == 8 * j && out[..offset] == Encrypted(k, d, j);
    StoredFront(out, offset, PairOut(EncryptPair(k, BlockAt(d, j))));
    assert |Encrypted(k, d, j + 1)| == 8 * (j + 1);
  }

  lemma DecryptNext(k: Key, c: seq<Byte>, out: seq<Byte>, offset: nat)
    requires DecryptedTo(k, c, out, offset) && offset + 8 <= |out|
    ensures |out| == |c|
    ensures var b := PairOut(DecryptPair(k, PairIn(c, offset)));
            DecryptedTo(k, c, Stored(out, offset, b), offset + 8)
  {
    hide DecryptPair, PairIn, Stored, PairOut;
    var j: nat :| offset == 8 * j && out[..offset] == BlocksDecrypted(k, c, j);
    StoredFront(out, offset, PairOut(DecryptPair(k, PairIn(c, offset))));
    assert |BlocksDecrypted(k, c, j + 1)| == 8 * (j + 1);
  }

  lemma Start(k: Key, d: seq<Byte>, out: seq<Byte>)
    ensures |out| == 8 * BlockCount(d) ==> EncryptedTo(k, d, out, 0)
    ensures |out| == |d| ==> DecryptedTo(k, d, out, 0)
  {
    assert |Encrypted(k, d, 0)| == |BlocksDecrypted(k, d, 0)| == 0;
  }

  lemma EncryptEnd(k: Key, d: seq<Byte>, out: seq<Byte>, offset: nat)
    requires EncryptedTo(k, d, out, offset) && |d| <= offset
    ensures out == EncryptedAll(k, d)
  {
    hide Encrypted, BlockCount;
    var j: nat :| offset == 8 * j && j <= BlockCount(d) && out[..offset] == Encrypted(k, d, j);
    assert out[..offset] == out;
  }

  lemma DecryptEnd(k: Key, c: seq<Byte>, out: seq<Byte>, offset: nat)
    requires DecryptedTo(k, c, out, offset) && |out| < offset + 8
    ensures offset <= |out| == |c| && (|c| % 8 == 0 <==> offset == |c|)
    ensures offset == |c| ==> out == DecryptedAll(k, c)
  {
    hide Decrypted;
    var j: nat :| offset == 8 * j && out[..offset] == BlocksDecrypted(k, c, j);
    WholeBlocks(|c|, j);
    if offset == |c| {
      assert out[..offset] == out;
    }
  }

  method Tea32Encrypt(data: array<Byte>, k: Key) returns (output: array<Byte>)
    ensures fresh(output) && output[..] == EncryptedAll(k, data[..])
  {
    var n := (data.Length + 7) / 8;
    assert n == BlockCount(data[..]);
    hide *;
    output := new Byte[8 * n](_ => 0);
    Start(k, data[..], output[..]);
    var offset := 0;
    while offset < data.Length
      invariant fresh(output) && data[..] == old(data[..])
      invariant EncryptedTo(k, data[..], output[..], offset)
    {
      EncryptNext(k, data[..], output[..], offset);
      Tea32EncryptBlock(data, offset, output, offset, k);
      offset := offset + 8;
    }
    EncryptEnd(k, data[..], output[..], offset);
  }

  // A message that is not of whole blocks makes BitConverter throw.
  method Tea32Decrypt(data: array<Byte>, k: Key) returns (r: Option<array<Byte>>)
    ensures r.Some? <==> data.Length % 8 == 0
    ensures r.Some? ==> fresh(r.value) && r.value.Length == data.Length && r.value[..] == DecryptedAll(k, data[..])
  {
    hide *;
    var output := new Byte[data.Length](_ => 0);
    Start(k, data[..], output[..]);
    var offset := 0;
    while offset < data.Length
      invariant fresh(output) && offset <= output.Length == data.Length && data[..] == old(data[..])
      invariant DecryptedTo(k, data[..], output[..], offset)
    {
      if offset + 8 > data.Length {
        DecryptEnd(k, data[..], output[..], offset);
        return None;
      }
      DecryptNext(k, data[..], output[..], offset);
      Tea32DecryptBlock(data, offset, output, offset, k);
      offset := offset + 8;
    }
    DecryptEnd(k, data[..], output[..], offset);
    return Some(output);
  }

  lemma WholeBlocks(len: nat, j: nat)
    requires 8 * j <= len < 8 * j + 8
    ensures len % 8 == 0 <==> len == 8 * j
    ensures j == len / 8
  {
  }

  lemma DecryptedWhole(k: Key, d: seq<Byte>, j: nat)
    requires |d| == 8 * j
    ensures DecryptedAll(k, d) == Decrypted(k, d, j)
  {
    hide Decrypted;
    WholeBlocks(|d|, j);
  }
}
