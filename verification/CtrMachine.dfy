/**
  CTR (NIST SP 800-38A section 6.5): the reference for aes_ctr_crypt.  The key stream is the
  encryption of a counter block and its successors under the caller's increment function.
*/
module CtrMachine {
  import opened Blocks

  lemma {:induction false} IterateSum<T>(f: T -> T, m: nat, n: nat, x: T)
    ensures Iterate(f, m + n, x) == Iterate(f, m, Iterate(f, n, x))
  {
    if m != 0 {
      assert Iterate(f, m + n, x) == f(Iterate(f, m - 1 + n, x));
      IterateSum(f, m - 1, n, x);
    }
  }

  lemma {:induction false} CounterIsBlock<Y(!new)>(inc: seq<Y> -> seq<Y>, n: nat, c: seq<Y>)
    requires OnBlocks(inc) && |c| == 16
    ensures |Iterate(inc, n, c)| == 16
  {
    if n != 0 {
      CounterIsBlock(inc, n - 1, c);
    }
  }

  // The counter block and the position in its encryption.  A position of 16 is kept when a call ends
  // with the block; the counter goes up when more is asked for.
  datatype Counter<Y> = Counter(block: seq<Y>, pos: nat) {
    ghost predicate Valid() {
      |block| == 16 && pos <= 16
    }
  }

  // Byte j of the key stream from s on
  function KeyByte<Y(!new)>(e: seq<Y> -> seq<Y>, inc: seq<Y> -> seq<Y>, s: Counter<Y>, j: nat): Y
    requires OnBlocks(e) && OnBlocks(inc) && s.Valid()
  {
    CounterIsBlock(inc, (s.pos + j) / 16, s.block);
    e(Iterate(inc, (s.pos + j) / 16, s.block))[(s.pos + j) % 16]
  }

  function KeyStream<Y(!new)>(e: seq<Y> -> seq<Y>, inc: seq<Y> -> seq<Y>, s: Counter<Y>, n: nat): (k: seq<Y>)
    requires OnBlocks(e) && OnBlocks(inc) && s.Valid()
    ensures |k| == n && forall j :: 0 <= j < n ==> k[j] == KeyByte(e, inc, s, j)
  {
    seq(n, j requires 0 <= j < n => KeyByte(e, inc, s, j))
  }

  function Output<Y(!new)>(xor: (Y, Y) -> Y, e: seq<Y> -> seq<Y>, inc: seq<Y> -> seq<Y>, s: Counter<Y>, input: seq<Y>): (out: seq<Y>)
    requires OnBlocks(e) && OnBlocks(inc) && s.Valid()
    ensures |out| == |input|
  {
    Zip(xor, input, KeyStream(e, inc, s, |input|))
  }

  // The state n bytes on
  function After<Y(!new)>(inc: seq<Y> -> seq<Y>, s: Counter<Y>, n: nat): (t: Counter<Y>)
    requires OnBlocks(inc) && s.Valid()
    ensures t.Valid()
  {
    var k := if 0 < s.pos && s.pos + n <= 16 then 0 else (s.pos + n) / 16;
    CounterIsBlock(inc, k, s.block);
    Counter(Iterate(inc, k, s.block), s.pos + n - 16 * k)
  }

  // The key stream goes on where it was left, although the state for a position is not unique.
  lemma KeyByteAfter<Y(!new)>(e: seq<Y> -> seq<Y>, inc: seq<Y> -> seq<Y>, s: Counter<Y>, n: nat, j: nat)
    requires OnBlocks(e) && OnBlocks(inc) && s.Valid()
    ensures KeyByte(e, inc, After(inc, s, n), j) == KeyByte(e, inc, s, n + j)
  {
    var t := After(inc, s, n);
    var k := if 0 < s.pos && s.pos + n <= 16 then 0 else (s.pos + n) / 16;
    assert t.pos + j + 16 * k == s.pos + n + j;
    assert (s.pos + n + j) / 16 == (t.pos + j) / 16 + k && (s.pos + n + j) % 16 == (t.pos + j) % 16;
    IterateSum(inc, (t.pos + j) / 16, k, s.block);
  }

  lemma EndOfBlock<Y(!new)>(e: seq<Y> -> seq<Y>, inc: seq<Y> -> seq<Y>, c: seq<Y>, j: nat)
    requires OnBlocks(e) && OnBlocks(inc) && |c| == 16
    ensures KeyByte(e, inc, Counter(c, 16), j) == KeyByte(e, inc, Counter(inc(c), 0), j)
  {
    assert Iterate(inc, 1, c) == inc(Iterate(inc, 0, c)) == inc(c);
    assert (16 + j) / 16 == j / 16 + 1 && (16 + j) % 16 == j % 16;
    IterateSum(inc, j / 16, 1, c);
  }

  lemma KeyStreamSplit<Y(!new)>(e: seq<Y> -> seq<Y>, inc: seq<Y> -> seq<Y>, s: Counter<Y>, m: nat, n: nat)
    requires OnBlocks(e) && OnBlocks(inc) && s.Valid()
    ensures KeyStream(e, inc, s, m + n) == KeyStream(e, inc, s, m) + KeyStream(e, inc, After(inc, s, m), n)
  {
    var k, l, r := KeyStream(e, inc, s, m + n), KeyStream(e, inc, s, m), KeyStream(e, inc, After(inc, s, m), n);
    forall i | 0 <= i < m + n
      ensures k[i] == (l + r)[i]
    {
      if m <= i {
        KeyByteAfter(e, inc, s, m, i - m);
      }
    }
  }

  lemma ZipConcat<Y>(f: (Y, Y) -> Y, a: seq<Y>, b: seq<Y>, a': seq<Y>, b': seq<Y>)
    requires |a| == |b| && |a'| == |b'|
    ensures Zip(f, a + a', b + b') == Zip(f, a, b) + Zip(f, a', b')
  {
  }

  // Where a message is cut does not matter.
  lemma OutputConcat<Y(!new)>(xor: (Y, Y) -> Y, e: seq<Y> -> seq<Y>, inc: seq<Y> -> seq<Y>, s: Counter<Y>, a: seq<Y>, b: seq<Y>)
    requires OnBlocks(e) && OnBlocks(inc) && s.Valid()
    ensures Output(xor, e, inc, s, a + b) == Output(xor, e, inc, s, a) + Output(xor, e, inc, After(inc, s, |a|), b)
  {
    KeyStreamSplit(e, inc, s, |a|, |b|);
    ZipConcat(xor, a, KeyStream(e, inc, s, |a|), b, KeyStream(e, inc, After(inc, s, |a|), |b|));
  }

  // States that stand for the same place in the key stream
  ghost predicate SamePlace<Y(!new)>(e: seq<Y> -> seq<Y>, inc: seq<Y> -> seq<Y>, s: Counter<Y>, t: Counter<Y>)
    requires OnBlocks(e) && OnBlocks(inc) && s.Valid() && t.Valid()
  {
    forall j: nat :: KeyByte(e, inc, s, j) == KeyByte(e, inc, t, j)
  }

  // A sequence of calls, each going on from the state the one before left
  function Calls<Y(!new)>(xor: (Y, Y) -> Y, e: seq<Y> -> seq<Y>, inc: seq<Y> -> seq<Y>, s: Counter<Y>, chunks: seq<seq<Y>>): seq<Y>
    requires OnBlocks(e) && OnBlocks(inc) && s.Valid()
    decreases |chunks|
  {
    if chunks == [] then []
    else Output(xor, e, inc, s, chunks[0]) + Calls(xor, e, inc, After(inc, s, |chunks[0]|), chunks[1..])
  }

  lemma {:induction false} CallsAreOneCall<Y(!new)>(xor: (Y, Y) -> Y, e: seq<Y> -> seq<Y>, inc: seq<Y> -> seq<Y>, s: Counter<Y>, chunks: seq<seq<Y>>)
    requires OnBlocks(e) && OnBlocks(inc) && s.Valid()
    ensures Calls(xor, e, inc, s, chunks) == Output(xor, e, inc, s, Flatten(chunks))
    decreases |chunks|
  {
    if chunks != [] {
      CallsAreOneCall(xor, e, inc, After(inc, s, |chunks[0]|), chunks[1..]);
      OutputConcat(xor, e, inc, s, chunks[0], Flatten(chunks[1..]));
    }
  }

  // From a reset context: byte j of all the calls together is input byte j XOR byte j % 16 of the
  // encryption of the counter increased j / 16 times, whatever the cuts.
  lemma EveryByte<Y(!new)>(xor: (Y, Y) -> Y, e: seq<Y> -> seq<Y>, inc: seq<Y> -> seq<Y>, c: seq<Y>, chunks: seq<seq<Y>>, j: nat)
    requires OnBlocks(e) && OnBlocks(inc) && |c| == 16 && j < |Flatten(chunks)|
    ensures |Calls(xor, e, inc, Counter(c, 0), chunks)| == |Flatten(chunks)| && |Iterate(inc, j / 16, c)| == 16
    ensures Calls(xor, e, inc, Counter(c, 0), chunks)[j] == xor(Flatten(chunks)[j], e(Iterate(inc, j / 16, c))[j % 16])
  {
    CallsAreOneCall(xor, e, inc, Counter(c, 0), chunks);
    CounterIsBlock(inc, j / 16, c);
  }

  // CTR undoes itself from any state that stands for the same place, whatever the calls on either side.
  lemma RoundTrip<Y(!new)>(xor: (Y, Y) -> Y, e: seq<Y> -> seq<Y>, inc: seq<Y> -> seq<Y>, s: Counter<Y>, t: Counter<Y>,
                           plain: seq<seq<Y>>, cipher: seq<seq<Y>>)
    requires OnBlocks(e) && OnBlocks(inc) && s.Valid() && t.Valid() && SamePlace(e, inc, s, t) && IsXor(xor)
    requires Flatten(cipher) == Calls(xor, e, inc, s, plain)
    ensures Calls(xor, e, inc, t, cipher) == Flatten(plain)
  {
    CallsAreOneCall(xor, e, inc, s, plain);
    CallsAreOneCall(xor, e, inc, t, cipher);
    var m, c := Flatten(plain), Flatten(cipher);
    forall j: nat | j < |m|
      ensures Output(xor, e, inc, t, c)[j] == m[j]
    {
      var k := KeyByte(e, inc, s, j);
      assert k == KeyByte(e, inc, t, j);
      assert xor(xor(m[j], k), k) == m[j];
    }
  }
}
